/** The daemon's execution lanes and per-connection request slots
    and references (src/daemon/server.zig: `ServerExecutor`, `Lane`, `ConnectionSession`).
    A step is one section under one mutex; lane workers and connection threads
    interleave freely. Enqueuing never fails here. */
module Executor {
  import opened Basics

  const SLOT_LIMIT: nat := 32

  datatype LaneKey = Root | Coordinator(path: string) | Domain(path: string, rootNodeId: nat)

  datatype Work = Request(conn: nat, key: LaneKey, tag: nat) | Maintenance

  /** A lane, what its worker is executing and whether it has dropped that
      request's reference to the session, and its history: everything that was
      enqueued and everything that was finished, in order. */
  datatype Lane = Lane(documentPath: Option<string>, domainRoot: Option<nat>, queue: seq<Work>, running: Option<Work>,
                       released: bool, entered: seq<Work>, done: seq<Work>)

  function KeyOf(lane: Lane): LaneKey {
    if lane.documentPath.None? then Root
    else if lane.domainRoot.None? then Coordinator(lane.documentPath.value)
    else Domain(lane.documentPath.value, lane.domainRoot.value)
  }

  function NewLane(key: LaneKey): (lane: Lane)
    ensures KeyOf(lane) == key
  {
    match key
    case Root => Lane(None, None, [], None, false, [], [])
    case Coordinator(path) => Lane(Some(path), None, [], None, false, [], [])
    case Domain(path, root) => Lane(Some(path), Some(root), [], None, false, [], [])
  }

  /** Where a connection's own thread stands. It leaves holding on to a slot
      when the request it had reserved it for cannot be classified. */
  datatype Phase =
    | Idle
    | Reserved(key: LaneKey, tag: nat)
    | Retained(key: LaneKey, tag: nat)
    | Routed(lane: nat, key: LaneKey, tag: nat)
    | Serving
    | Leaving(kept: bool)
    | Left(kept: bool)

  /** A session: `refs` counts its references, `streams` those of them that
      registered projection streams hold. Without any it is destroyed. */
  datatype Conn = Conn(pending: nat, closed: bool, refs: nat, streams: nat, phase: Phase)

  datatype State = State(lanes: seq<Lane>, conns: seq<Conn>)

  function Init(): State { State([NewLane(Root)], []) }

  /** The first document lane with the key, or the number of lanes. */
  function FindLane(lanes: seq<Lane>, key: LaneKey, start: nat): (i: nat)
    requires start <= |lanes|
    ensures start <= i <= |lanes|
    ensures i < |lanes| ==> KeyOf(lanes[i]) == key
    ensures forall j :: start <= j < i ==> KeyOf(lanes[j]) != key
    decreases |lanes| - start
  {
    if start == |lanes| || KeyOf(lanes[start]) == key then start else FindLane(lanes, key, start + 1)
  }

  function ResolvedIndex(lanes: seq<Lane>, key: LaneKey): nat
    requires lanes != []
  {
    if key.Root? then 0 else FindLane(lanes, key, 1)
  }

  function WithLane(lanes: seq<Lane>, key: LaneKey): (r: seq<Lane>)
    requires lanes != []
    ensures |lanes| <= |r|
  {
    if ResolvedIndex(lanes, key) < |lanes| then lanes else lanes + [NewLane(key)]
  }

  datatype Op =
    | Accept
    | Submit(conn: nat, key: LaneKey, tag: nat)   // reserve a slot for a lane request
    | Retain(conn: nat)                           // a reference for that request
    | Route(conn: nat)                            // `resolveLane`
    | Append(conn: nat)                           // `Lane.enqueue`
    | Open(conn: nat) | Finish(conn: nat)         // a stream served by the connection's own thread
    | Attach(conn: nat) | Detach(conn: nat)       // a projection stream is registered, or removed
    | Pump                                        // periodic maintenance
    | Begin(lane: nat)                            // the lane's worker takes the next piece of work,
    | Release(lane: nat)                          // drops the request's reference once it is executed,
    | End(lane: nat)                              // and then gives its slot back
    | Close(conn: nat)
    | Depart(conn: nat) | Leave(conn: nat)        // the thread's `closeSession`, then its own `release`

  predicate Legal(s: State, op: Op) {
    s.lanes != [] &&
    match op
    case Accept | Pump => true
    case Submit(c, _, _) => c < |s.conns| && s.conns[c].phase.Idle?
    case Open(c) => c < |s.conns| && s.conns[c].phase.Idle?
    case Retain(c) => c < |s.conns| && s.conns[c].phase.Reserved?
    case Route(c) => c < |s.conns| && s.conns[c].phase.Retained?
    case Append(c) => c < |s.conns| && s.conns[c].phase.Routed? && s.conns[c].phase.lane < |s.lanes|
    case Finish(c) => c < |s.conns| && s.conns[c].phase.Serving? && s.conns[c].pending > 0
    case Attach(c) => c < |s.conns| && s.conns[c].phase.Idle?
    case Detach(c) => c < |s.conns| && 0 < s.conns[c].streams <= s.conns[c].refs
    case Begin(l) => l < |s.lanes| && s.lanes[l].running.None? && s.lanes[l].queue != []
    case Release(l) =>
      l < |s.lanes| && s.lanes[l].running.Some? && s.lanes[l].running.value.Request? && !s.lanes[l].released &&
      var c := s.lanes[l].running.value.conn; c < |s.conns| && s.conns[c].refs > 0
    case End(l) =>
      l < |s.lanes| && s.lanes[l].running.Some? &&
      var work := s.lanes[l].running.value;
      work.Request? ==> s.lanes[l].released && work.conn < |s.conns| && s.conns[work.conn].pending > 0
    case Close(c) => c < |s.conns| && s.conns[c].refs > 0
    case Depart(c) =>
      c < |s.conns| && (s.conns[c].phase.Idle? || s.conns[c].phase.Reserved?) && s.conns[c].streams < s.conns[c].refs
    case Leave(c) => c < |s.conns| && s.conns[c].phase.Leaving? && s.conns[c].refs > 0
  }

  predicate Admits(c: Conn) { !c.closed && c.pending < SLOT_LIMIT }

  /** A slot is reserved only when the connection is open and below its limit. */
  function Reserve(c: Conn, phase: Phase): Conn {
    if Admits(c) then c.(pending := c.pending + 1, phase := phase) else c
  }

  /** `ConnectionSession.release`: dropping the last reference closes the session
      and destroys it. */
  function Dropped(c: Conn): Conn
    requires c.refs > 0
  {
    c.(refs := c.refs - 1, closed := c.closed || c.refs == 1)
  }

  predicate Destroyed(c: Conn) { c.refs == 0 }

  function Entered(lane: Lane, work: Work): Lane {
    lane.(queue := lane.queue + [work], entered := lane.entered + [work])
  }

  function Released(conns: seq<Conn>, work: Work): seq<Conn>
    requires work.Request? ==> work.conn < |conns| && conns[work.conn].pending > 0
  {
    if work.Maintenance? then conns else conns[work.conn := conns[work.conn].(pending := conns[work.conn].pending - 1)]
  }

  function Step(s: State, op: Op): State
    requires Legal(s, op)
  {
    match op
    case Accept => s.(conns := s.conns + [Conn(0, false, 1, 0, Idle)])
    case Submit(c, key, tag) => s.(conns := s.conns[c := Reserve(s.conns[c], Reserved(key, tag))])
    case Open(c) => s.(conns := s.conns[c := Reserve(s.conns[c], Serving)])
    case Retain(c) =>
      var p := s.conns[c].phase;
      s.(conns := s.conns[c := s.conns[c].(refs := s.conns[c].refs + 1, phase := Retained(p.key, p.tag))])
    case Route(c) =>
      var p := s.conns[c].phase;
      State(WithLane(s.lanes, p.key),
            s.conns[c := s.conns[c].(phase := Routed(ResolvedIndex(s.lanes, p.key), p.key, p.tag))])
    case Append(c) =>
      var p := s.conns[c].phase;
      State(s.lanes[p.lane := Entered(s.lanes[p.lane], Request(c, p.key, p.tag))],
            s.conns[c := s.conns[c].(phase := Idle)])
    case Finish(c) => s.(conns := s.conns[c := s.conns[c].(pending := s.conns[c].pending - 1, phase := Idle)])
    case Attach(c) =>
      s.(conns := s.conns[c := s.conns[c].(refs := s.conns[c].refs + 1, streams := s.conns[c].streams + 1)])
    case Detach(c) => s.(conns := s.conns[c := Dropped(s.conns[c]).(streams := s.conns[c].streams - 1)])
    case Pump => s.(lanes := s.lanes[0 := Entered(s.lanes[0], Maintenance)])
    case Begin(l) =>
      var lane := s.lanes[l];
      s.(lanes := s.lanes[l := lane.(queue := lane.queue[1..], running := Some(lane.queue[0]))])
    case Release(l) =>
      var c := s.lanes[l].running.value.conn;
      State(s.lanes[l := s.lanes[l].(released := true)], s.conns[c := Dropped(s.conns[c])])
    case End(l) =>
      var lane := s.lanes[l];
      State(s.lanes[l := lane.(running := None, released := false, done := lane.done + [lane.running.value])],
            Released(s.conns, lane.running.value))
    case Close(c) => s.(conns := s.conns[c := s.conns[c].(closed := true)])
    case Depart(c) =>
      var conn := s.conns[c];
      s.(conns := s.conns[c := conn.(refs := conn.refs - conn.streams, streams := 0,
                                     phase := Leaving(conn.phase.Reserved?))])
    case Leave(c) => s.(conns := s.conns[c := Dropped(s.conns[c]).(phase := Left(s.conns[c].phase.kept))])
  }

  ghost predicate CanRun(s: State, ops: seq<Op>)
    decreases |ops|
  {
    ops == [] || (Legal(s, ops[0]) && CanRun(Step(s, ops[0]), ops[1..]))
  }

  ghost function After(s: State, ops: seq<Op>): State
    requires CanRun(s, ops)
    decreases |ops|
  {
    if ops == [] then s else After(Step(s, ops[0]), ops[1..])
  }

  // Lanes.

  function Running(lane: Lane): seq<Work> {
    if lane.running.Some? then [lane.running.value] else []
  }

  predicate Belongs(work: Work, key: LaneKey) {
    match work
    case Maintenance => key == Root
    case Request(_, k, _) => k == key
  }

  /** One lane: everything enqueued is finished, running (one at most) or still
      queued, in that order, and belongs there. */
  ghost predicate LaneFine(lane: Lane) {
    && lane.entered == lane.done + Running(lane) + lane.queue
    && (lane.released ==> lane.running.Some? && lane.running.value.Request?)
    && forall w :: w in lane.entered ==> Belongs(w, KeyOf(lane))
  }

  ghost predicate KeysDistinct(lanes: seq<Lane>) {
    && lanes != [] && KeyOf(lanes[0]) == Root
    && forall i, j :: 0 <= i < j < |lanes| ==> KeyOf(lanes[i]) != KeyOf(lanes[j])
  }

  // Slots and references.

  /** What an unfinished request holds of its connection: its slot to the end,
      its reference until the worker drops it. */
  datatype Hold = Slot | Reference

  function Mine(work: seq<Work>, c: nat): nat {
    if work == [] then 0 else (if work[0].Request? && work[0].conn == c then 1 else 0) + Mine(work[1..], c)
  }

  function Load(lane: Lane, hold: Hold, c: nat): nat {
    (if hold.Reference? && lane.released then 0 else Mine(Running(lane), c)) + Mine(lane.queue, c)
  }

  /** A connection's requests, queued or executing anywhere, that hold it. */
  function TotalLoad(lanes: seq<Lane>, hold: Hold, c: nat): nat {
    if lanes == [] then 0 else Load(lanes[0], hold, c) + TotalLoad(lanes[1..], hold, c)
  }

  predicate Held(p: Phase) {
    match p
    case Idle => false
    case Leaving(kept) => kept
    case Left(kept) => kept
    case _ => true
  }

  predicate Gone(p: Phase) { p.Leaving? || p.Left? }

  /** The references of the thread itself: its own, and one for a request that
      it has not enqueued yet. */
  function Own(p: Phase): nat {
    match p
    case Left(_) => 0
    case Retained(_, _) | Routed(_, _, _) => 2
    case _ => 1
  }

  ghost predicate ConnFine(lanes: seq<Lane>, conn: Conn, c: nat) {
    && conn.pending == TotalLoad(lanes, Slot, c) + (if Held(conn.phase) then 1 else 0)
    && conn.pending <= SLOT_LIMIT
    && conn.refs == TotalLoad(lanes, Reference, c) + Own(conn.phase) + conn.streams
    && (Gone(conn.phase) ==> conn.streams == 0)
    && (Destroyed(conn) ==> conn.closed)
    && (conn.phase.Routed? ==> conn.phase.lane < |lanes| && KeyOf(lanes[conn.phase.lane]) == conn.phase.key)
  }

  /** Connections not accepted yet have nothing anywhere. */
  ghost predicate SlotsFine(lanes: seq<Lane>, conns: seq<Conn>) {
    && (forall c :: 0 <= c < |conns| ==> ConnFine(lanes, conns[c], c))
    && forall c :: |conns| <= c ==> TotalLoad(lanes, Slot, c) == 0 && TotalLoad(lanes, Reference, c) == 0
  }

  ghost predicate Invariant(s: State) {
    && KeysDistinct(s.lanes) && SlotsFine(s.lanes, s.conns)
    && forall i :: 0 <= i < |s.lanes| ==> LaneFine(s.lanes[i])
  }

  lemma {:induction false} MineConcat(a: seq<Work>, b: seq<Work>, c: nat)
    ensures Mine(a + b, c) == Mine(a, c) + Mine(b, c)
  {
    if a == [] {
      assert a + b == b;
    } else {
      assert (a + b)[1..] == a[1..] + b;
      MineConcat(a[1..], b, c);
    }
  }

  lemma {:induction false} TotalUpdate(lanes: seq<Lane>, l: nat, lane: Lane, hold: Hold, c: nat)
    requires l < |lanes|
    ensures TotalLoad(lanes[l := lane], hold, c) + Load(lanes[l], hold, c) == TotalLoad(lanes, hold, c) + Load(lane, hold, c)
  {
    if l == 0 {
      assert lanes[l := lane][1..] == lanes[1..];
    } else {
      assert lanes[l := lane][1..] == lanes[1..][l - 1 := lane];
      TotalUpdate(lanes[1..], l - 1, lane, hold, c);
    }
  }

  lemma {:induction false} TotalAppend(lanes: seq<Lane>, lane: Lane, hold: Hold, c: nat)
    ensures TotalLoad(lanes + [lane], hold, c) == TotalLoad(lanes, hold, c) + Load(lane, hold, c)
  {
    if lanes == [] {
      assert lanes + [lane] == [lane];
    } else {
      assert (lanes + [lane])[1..] == lanes[1..] + [lane];
      TotalAppend(lanes[1..], lane, hold, c);
    }
  }

  lemma {:induction false} TotalAtLeast(lanes: seq<Lane>, l: nat, hold: Hold, c: nat)
    requires l < |lanes|
    ensures Load(lanes[l], hold, c) <= TotalLoad(lanes, hold, c)
  {
    if l > 0 { TotalAtLeast(lanes[1..], l - 1, hold, c); }
  }

  function One(work: Work, c: nat): nat {
    if work.Request? && work.conn == c then 1 else 0
  }

  lemma EnteredFine(lane: Lane, work: Work)
    requires LaneFine(lane) && Belongs(work, KeyOf(lane))
    ensures LaneFine(Entered(lane, work)) && KeyOf(Entered(lane, work)) == KeyOf(lane)
    ensures forall hold, c :: Load(Entered(lane, work), hold, c) == Load(lane, hold, c) + One(work, c)
  {
    assert lane.done + Running(lane) + (lane.queue + [work]) == lane.done + Running(lane) + lane.queue + [work];
    forall hold, c
      ensures Load(Entered(lane, work), hold, c) == Load(lane, hold, c) + One(work, c)
    {
      MineConcat(lane.queue, [work], c);
    }
  }

  lemma BeginFine(lane: Lane)
    requires LaneFine(lane) && lane.running.None? && lane.queue != []
    ensures var after := lane.(queue := lane.queue[1..], running := Some(lane.queue[0]));
            LaneFine(after) && KeyOf(after) == KeyOf(lane) && forall hold, c :: Load(after, hold, c) == Load(lane, hold, c)
  {
    var head, rest := [lane.queue[0]], lane.queue[1..];
    var after := lane.(queue := rest, running := Some(head[0]));
    assert lane.queue == head + rest;
    assert lane.done + [] + lane.queue == lane.done + head + rest;
    forall hold, c
      ensures Load(after, hold, c) == Load(lane, hold, c)
    {
      MineConcat(head, rest, c);
      assert Mine([], c) == 0;
    }
  }

  lemma OneRunning(work: Work, c: nat)
    ensures Mine([work], c) == One(work, c)
  {
    assert [work][1..] == [];
  }

  lemma ReleaseFine(lane: Lane)
    requires LaneFine(lane) && lane.running.Some? && lane.running.value.Request? && !lane.released
    ensures var after := lane.(released := true);
            && LaneFine(after) && KeyOf(after) == KeyOf(lane)
            && forall c :: Load(lane, Slot, c) == Load(after, Slot, c) &&
                           Load(lane, Reference, c) == Load(after, Reference, c) + One(lane.running.value, c)
  {
    forall c
      ensures Mine([lane.running.value], c) == One(lane.running.value, c)
    {
      OneRunning(lane.running.value, c);
    }
  }

  lemma EndFine(lane: Lane)
    requires LaneFine(lane) && lane.running.Some? && (lane.running.value.Request? ==> lane.released)
    ensures var after := lane.(running := None, released := false, done := lane.done + [lane.running.value]);
            && LaneFine(after) && KeyOf(after) == KeyOf(lane)
            && forall c :: Load(lane, Slot, c) == Load(after, Slot, c) + One(lane.running.value, c) &&
                           Load(lane, Reference, c) == Load(after, Reference, c)
  {
    var work := lane.running.value;
    assert lane.done + [work] + [] + lane.queue == lane.done + [work] + lane.queue;
    forall c
      ensures Mine([work], c) == One(work, c)
    {
      OneRunning(work, c);
    }
  }

  // Steps.

  ghost predicate LanesFine(lanes: seq<Lane>) {
    KeysDistinct(lanes) && forall i :: 0 <= i < |lanes| ==> LaneFine(lanes[i])
  }

  /** Replacing a lane by one with the same key. */
  lemma LaneReplaced(lanes: seq<Lane>, l: nat, lane: Lane)
    requires LanesFine(lanes) && l < |lanes| && LaneFine(lane) && KeyOf(lane) == KeyOf(lanes[l])
    ensures LanesFine(lanes[l := lane])
  {
    var after := lanes[l := lane];
    assert forall i :: 0 <= i < |lanes| ==> KeyOf(after[i]) == KeyOf(lanes[i]);
  }

  lemma LaneAdded(lanes: seq<Lane>, key: LaneKey)
    requires LanesFine(lanes)
    ensures LanesFine(WithLane(lanes, key))
    ensures var i := ResolvedIndex(lanes, key); i < |WithLane(lanes, key)| && KeyOf(WithLane(lanes, key)[i]) == key
    ensures forall hold, c :: TotalLoad(WithLane(lanes, key), hold, c) == TotalLoad(lanes, hold, c)
    ensures forall i :: 0 <= i < |lanes| ==> KeyOf(WithLane(lanes, key)[i]) == KeyOf(lanes[i])
  {
    var lane := NewLane(key);
    forall hold, c
      ensures TotalLoad(WithLane(lanes, key), hold, c) == TotalLoad(lanes, hold, c)
    {
      TotalAppend(lanes, lane, hold, c);
    }
  }

  /** Loads after a lane took in, or gave back, a piece of work. */
  lemma TotalChanges(lanes: seq<Lane>, l: nat, lane: Lane)
    requires l < |lanes|
    ensures forall hold, c :: TotalLoad(lanes[l := lane], hold, c) + Load(lanes[l], hold, c) == TotalLoad(lanes, hold, c) + Load(lane, hold, c)
  {
    forall hold, c
      ensures TotalLoad(lanes[l := lane], hold, c) + Load(lanes[l], hold, c) == TotalLoad(lanes, hold, c) + Load(lane, hold, c)
    {
      TotalUpdate(lanes, l, lane, hold, c);
    }
  }

  ghost predicate SameKeys(a: seq<Lane>, b: seq<Lane>) {
    |a| <= |b| && forall i :: 0 <= i < |a| ==> KeyOf(b[i]) == KeyOf(a[i])
  }

  ghost predicate SameLoad(before: seq<Lane>, after: seq<Lane>, c: nat) {
    && TotalLoad(after, Slot, c) == TotalLoad(before, Slot, c)
    && TotalLoad(after, Reference, c) == TotalLoad(before, Reference, c)
  }

  /** Only connection `c` changes, and lanes keep their keys. */
  lemma OneConnChanges(before: seq<Lane>, after: seq<Lane>, conns: seq<Conn>, c: nat, conn: Conn)
    requires SlotsFine(before, conns) && SameKeys(before, after) && c < |conns|
    requires forall k :: k != c ==> SameLoad(before, after, k)
    requires ConnFine(after, conn, c)
    ensures SlotsFine(after, conns[c := conn])
  {
    assert forall k {:trigger TotalLoad(after, Slot, k)} :: k != c ==> SameLoad(before, after, k);
    forall k | 0 <= k < |conns| && k != c
      ensures ConnFine(after, conns[k], k)
    {
      assert SameLoad(before, after, k);
    }
  }

  lemma SameLoads(before: seq<Lane>, after: seq<Lane>, conns: seq<Conn>)
    requires SlotsFine(before, conns) && SameKeys(before, after)
    requires forall c :: SameLoad(before, after, c)
    ensures SlotsFine(after, conns)
  {
    assert forall k {:trigger TotalLoad(after, Slot, k)} :: SameLoad(before, after, k);
    forall k | 0 <= k < |conns|
      ensures ConnFine(after, conns[k], k)
    {
      assert SameLoad(before, after, k);
    }
  }

  lemma AppendKeeps(s: State, c: nat)
    requires Invariant(s) && Legal(s, Append(c))
    ensures Invariant(Step(s, Append(c)))
  {
    var p := s.conns[c].phase;
    var lane, work := s.lanes[p.lane], Request(c, p.key, p.tag);
    EnteredFine(lane, work);
    LaneReplaced(s.lanes, p.lane, Entered(lane, work));
    TotalChanges(s.lanes, p.lane, Entered(lane, work));
    OneConnChanges(s.lanes, s.lanes[p.lane := Entered(lane, work)], s.conns, c, s.conns[c].(phase := Idle));
  }

  lemma RouteKeeps(s: State, c: nat)
    requires Invariant(s) && Legal(s, Route(c))
    ensures Invariant(Step(s, Route(c)))
  {
    var p := s.conns[c].phase;
    LaneAdded(s.lanes, p.key);
    OneConnChanges(s.lanes, WithLane(s.lanes, p.key), s.conns, c,
                   s.conns[c].(phase := Routed(ResolvedIndex(s.lanes, p.key), p.key, p.tag)));
  }

  lemma PumpKeeps(s: State)
    requires Invariant(s)
    ensures Invariant(Step(s, Pump))
  {
    var after := Entered(s.lanes[0], Maintenance);
    EnteredFine(s.lanes[0], Maintenance);
    LaneReplaced(s.lanes, 0, after);
    TotalChanges(s.lanes, 0, after);
  }

  lemma BeginKeeps(s: State, l: nat)
    requires Invariant(s) && Legal(s, Begin(l))
    ensures Invariant(Step(s, Begin(l)))
  {
    var lane := s.lanes[l];
    var after := lane.(queue := lane.queue[1..], running := Some(lane.queue[0]));
    BeginFine(lane);
    LaneReplaced(s.lanes, l, after);
    TotalChanges(s.lanes, l, after);
    SameLoads(s.lanes, s.lanes[l := after], s.conns);
  }

  lemma ReleaseKeeps(s: State, l: nat)
    requires Invariant(s) && Legal(s, Release(l))
    ensures Invariant(Step(s, Release(l)))
  {
    var lane := s.lanes[l];
    var after, c := lane.(released := true), lane.running.value.conn;
    ReleaseFine(lane);
    LaneReplaced(s.lanes, l, after);
    TotalChanges(s.lanes, l, after);
    OneConnChanges(s.lanes, s.lanes[l := after], s.conns, c, Dropped(s.conns[c]));
  }

  /** The lane's part of an end. */
  lemma LaneEnds(s: State, l: nat)
    requires Invariant(s) && Legal(s, End(l))
    ensures var lane := s.lanes[l];
            var lanes := s.lanes[l := lane.(running := None, released := false, done := lane.done + [lane.running.value])];
            && LanesFine(lanes) && SameKeys(s.lanes, lanes)
            && forall c :: TotalLoad(s.lanes, Slot, c) == TotalLoad(lanes, Slot, c) + One(lane.running.value, c) &&
                           TotalLoad(s.lanes, Reference, c) == TotalLoad(lanes, Reference, c)
  {
    var lane := s.lanes[l];
    var after := lane.(running := None, released := false, done := lane.done + [lane.running.value]);
    EndFine(lane);
    LaneReplaced(s.lanes, l, after);
    TotalChanges(s.lanes, l, after);
  }

  lemma EndKeeps(s: State, l: nat)
    requires Invariant(s) && Legal(s, End(l))
    ensures Invariant(Step(s, End(l)))
  {
    var work, lanes := s.lanes[l].running.value, Step(s, End(l)).lanes;
    LaneEnds(s, l);
    if work.Maintenance? {
      SameLoads(s.lanes, lanes, s.conns);
    } else {
      var conn := s.conns[work.conn];
      OneConnChanges(s.lanes, lanes, s.conns, work.conn, conn.(pending := conn.pending - 1));
    }
  }

  lemma AcceptKeeps(s: State)
    requires Invariant(s)
    ensures Invariant(Step(s, Accept))
  {
  }

  /** Taking and giving back slots. */
  lemma SlotKeeps(s: State, op: Op)
    requires Invariant(s) && Legal(s, op) && (op.Submit? || op.Open? || op.Finish? || op.Close?)
    ensures Invariant(Step(s, op))
  {
    OneConnChanges(s.lanes, s.lanes, s.conns, op.conn, Step(s, op).conns[op.conn]);
  }

  /** Taking and dropping references. */
  lemma ReferenceKeeps(s: State, op: Op)
    requires Invariant(s) && Legal(s, op) && (op.Retain? || op.Attach? || op.Detach? || op.Depart? || op.Leave?)
    ensures Invariant(Step(s, op))
  {
    OneConnChanges(s.lanes, s.lanes, s.conns, op.conn, Step(s, op).conns[op.conn]);
  }

  lemma StepKeeps(s: State, op: Op)
    requires Invariant(s) && Legal(s, op)
    ensures Invariant(Step(s, op))
  {
    match op {
      case Route(c) => RouteKeeps(s, c);
      case Append(c) => AppendKeeps(s, c);
      case Pump => PumpKeeps(s);
      case Begin(l) => BeginKeeps(s, l);
      case Release(l) => ReleaseKeeps(s, l);
      case End(l) => EndKeeps(s, l);
      case Accept => AcceptKeeps(s);
      case Submit(_, _, _) | Open(_) | Finish(_) | Close(_) => SlotKeeps(s, op);
      case _ => ReferenceKeeps(s, op);
    }
  }

  lemma {:induction false} RunKeeps(s: State, ops: seq<Op>)
    requires Invariant(s) && CanRun(s, ops)
    ensures Invariant(After(s, ops))
    decreases |ops|
  {
    if ops != [] {
      StepKeeps(s, ops[0]);
      RunKeeps(Step(s, ops[0]), ops[1..]);
    }
  }

  /** Over every interleaving: no two lanes share a key, requests for one key
      run one at a time in enqueue order, and a connection's count is exactly
      its reserved, unfinished requests, at most the limit. */
  lemma ExecutorSafe(ops: seq<Op>)
    requires CanRun(Init(), ops)
    ensures var s := After(Init(), ops);
            && KeysDistinct(s.lanes)
            && (forall i :: 0 <= i < |s.lanes| ==> LaneFine(s.lanes[i]))
            && forall c :: 0 <= c < |s.conns| ==> ConnFine(s.lanes, s.conns[c], c)
  {
    InitFine();
    RunKeeps(Init(), ops);
  }

  lemma InitFine()
    ensures Invariant(Init())
  {
    assert forall hold, c :: TotalLoad([NewLane(Root)], hold, c) == Load(NewLane(Root), hold, c) + TotalLoad([], hold, c);
  }

  /** Every slot and every reference that is given back was counted, and a
      routed request always finds its lane: no decrement underflows. */
  lemma FinishNeverUnderflows(ops: seq<Op>)
    requires CanRun(Init(), ops)
    ensures var s := After(Init(), ops);
            && (forall l :: 0 <= l < |s.lanes| && s.lanes[l].running.Some? ==> WorkerProceeds(s, l))
            && forall c :: 0 <= c < |s.conns| ==> ThreadProceeds(s, c)
  {
    InitFine();
    RunKeeps(Init(), ops);
    var s := After(Init(), ops);
    forall l | 0 <= l < |s.lanes| && s.lanes[l].running.Some?
      ensures WorkerProceeds(s, l)
    {
      if s.lanes[l].running.value.Request? { RunningIsCounted(s, l); }
    }
    forall c | 0 <= c < |s.conns|
      ensures ThreadProceeds(s, c)
    {
      ThreadIsCounted(s, c);
    }
  }

  predicate WorkerProceeds(s: State, l: nat)
    requires l < |s.lanes| && s.lanes[l].running.Some?
  {
    if s.lanes[l].released || s.lanes[l].running.value.Maintenance? then Legal(s, End(l)) else Legal(s, Release(l))
  }

  /** What the connection's thread, or a stream's removal, does next is in order. */
  predicate ThreadProceeds(s: State, c: nat)
    requires c < |s.conns|
  {
    var conn := s.conns[c];
    && (conn.phase.Serving? ==> Legal(s, Finish(c)))
    && (conn.phase.Routed? ==> Legal(s, Append(c)))
    && (conn.phase.Idle? || conn.phase.Reserved? ==> Legal(s, Depart(c)))
    && (conn.phase.Leaving? ==> Legal(s, Leave(c)))
    && (conn.streams > 0 ==> Legal(s, Detach(c)))
  }

  lemma ThreadIsCounted(s: State, c: nat)
    requires Invariant(s) && c < |s.conns|
    ensures ThreadProceeds(s, c)
  {
    assert ConnFine(s.lanes, s.conns[c], c);
  }

  lemma RunningIsCounted(s: State, l: nat)
    requires Invariant(s) && l < |s.lanes| && s.lanes[l].running.Some? && s.lanes[l].running.value.Request?
    ensures var c := s.lanes[l].running.value.conn;
            && c < |s.conns| && s.conns[c].pending > 0
            && (!s.lanes[l].released ==> s.conns[c].refs > 0)
  {
    var c := s.lanes[l].running.value.conn;
    OneRunning(s.lanes[l].running.value, c);
    TotalAtLeast(s.lanes, l, Slot, c);
    TotalAtLeast(s.lanes, l, Reference, c);
  }

  // When a session is destroyed.

  /** A request of the connection is queued on the lane, or executes there with
      its reference not yet dropped. */
  predicate HoldsSession(lane: Lane, c: nat) {
    Load(lane, Reference, c) > 0
  }

  lemma {:induction false} TotalPositiveIff(lanes: seq<Lane>, hold: Hold, c: nat)
    ensures TotalLoad(lanes, hold, c) > 0 <==> exists k :: 0 <= k < |lanes| && Load(lanes[k], hold, c) > 0
  {
    if lanes != [] {
      TotalPositiveIff(lanes[1..], hold, c);
      forall k | 0 <= k < |lanes| && Load(lanes[k], hold, c) > 0
        ensures TotalLoad(lanes, hold, c) > 0
      {
        TotalAtLeast(lanes, k, hold, c);
      }
      assert forall k :: 0 <= k < |lanes[1..]| ==> lanes[1..][k] == lanes[k + 1];
    }
  }

  /** Over every interleaving: a session is destroyed exactly when its thread
      has left and no request of it is queued or holds on to it. */
  lemma DestroyedIff(ops: seq<Op>, c: nat)
    requires CanRun(Init(), ops) && c < |After(Init(), ops).conns|
    ensures var s := After(Init(), ops);
            Destroyed(s.conns[c]) <==>
            s.conns[c].phase.Left? && forall k :: 0 <= k < |s.lanes| ==> !HoldsSession(s.lanes[k], c)
  {
    InitFine();
    RunKeeps(Init(), ops);
    TotalPositiveIff(After(Init(), ops).lanes, Reference, c);
  }

  /** The worker drops its reference before it gives the slot back: the session
      it gives it back to still exists exactly when its thread is there or
      another request of it holds on to it. */
  lemma SlotReturnedToLiveIff(ops: seq<Op>, l: nat)
    requires CanRun(Init(), ops) && l < |After(Init(), ops).lanes|
    requires var lane := After(Init(), ops).lanes[l]; lane.running.Some? && lane.running.value.Request? && lane.released
    ensures var s := After(Init(), ops);
            var c := s.lanes[l].running.value.conn;
            && Legal(s, End(l))
            && (!Destroyed(s.conns[c]) <==>
                || !s.conns[c].phase.Left?
                || Mine(s.lanes[l].queue, c) > 0
                || (exists k :: 0 <= k < |s.lanes| && k != l && HoldsSession(s.lanes[k], c)))
  {
    FinishNeverUnderflows(ops);
    var s := After(Init(), ops);
    var c := s.lanes[l].running.value.conn;
    DestroyedIff(ops, c);
    assert HoldsSession(s.lanes[l], c) <==> Mine(s.lanes[l].queue, c) > 0;
  }

  lemma Cons(s: State, op: Op, t: State, rest: seq<Op>)
    requires Legal(s, op) && Step(s, op) == t && CanRun(t, rest)
    ensures CanRun(s, [op] + rest) && After(s, [op] + rest) == After(t, rest)
  {
    assert ([op] + rest)[1..] == rest;
  }

  function RootLane(queue: seq<Work>, running: Option<Work>, released: bool, entered: seq<Work>): seq<Lane> {
    [Lane(None, None, queue, running, released, entered, [])]
  }

  /** A request is enqueued on the root lane. */
  function Enqueue(tag: nat): seq<Op> {
    [Submit(0, Root, tag), Retain(0), Route(0), Append(0)]
  }

  function Enqueued(tag: nat): State {
    State(RootLane([Request(0, Root, tag)], None, false, [Request(0, Root, tag)]), [Conn(1, false, 2, 0, Idle)])
  }

  lemma AfterEnqueue(tag: nat)
    ensures var s := State(RootLane([], None, false, []), [Conn(0, false, 1, 0, Idle)]);
            CanRun(s, Enqueue(tag)) && After(s, Enqueue(tag)) == Enqueued(tag)
  {
    var lanes := RootLane([], None, false, []);
    assert [] + [Request(0, Root, tag)] == [Request(0, Root, tag)];
    var s, a := State(lanes, [Conn(0, false, 1, 0, Idle)]), State(lanes, [Conn(1, false, 1, 0, Reserved(Root, tag))]);
    var b, c := State(lanes, [Conn(1, false, 2, 0, Retained(Root, tag))]),
                State(lanes, [Conn(1, false, 2, 0, Routed(0, Root, tag))]);
    Cons(c, Append(0), Enqueued(tag), []);
    Cons(b, Route(0), c, [Append(0)]);
    Cons(a, Retain(0), b, [Route(0), Append(0)]);
    Cons(s, Submit(0, Root, tag), a, [Retain(0), Route(0), Append(0)]);
  }

  /** The thread leaves, and then the worker executes the request. */
  function LeaveThenExecute(): seq<Op> {
    [Depart(0), Leave(0), Begin(0), Release(0)]
  }

  function Abandoned(tag: nat): State {
    State(RootLane([Request(0, Root, tag)], None, false, [Request(0, Root, tag)]), [Conn(1, false, 1, 0, Left(false))])
  }

  lemma Executed(tag: nat)
    ensures CanRun(Abandoned(tag), [Begin(0), Release(0)])
    ensures var t := After(Abandoned(tag), [Begin(0), Release(0)]);
            Legal(t, End(0)) && |t.conns| == 1 && Destroyed(t.conns[0])
  {
    var work := Request(0, Root, tag);
    assert [work][1..] == [];
    var a := State(RootLane([], Some(work), false, [work]), [Conn(1, false, 1, 0, Left(false))]);
    var t := State(RootLane([], Some(work), true, [work]), [Conn(1, true, 0, 0, Left(false))]);
    Cons(a, Release(0), t, []);
    Cons(Abandoned(tag), Begin(0), a, [Release(0)]);
  }

  lemma AfterExecution(tag: nat)
    ensures CanRun(Enqueued(tag), LeaveThenExecute())
    ensures var t := After(Enqueued(tag), LeaveThenExecute());
            Legal(t, End(0)) && |t.conns| == 1 && Destroyed(t.conns[0])
  {
    var a := Enqueued(tag).(conns := [Conn(1, false, 2, 0, Leaving(false))]);
    Executed(tag);
    Cons(a, Leave(0), Abandoned(tag), [Begin(0), Release(0)]);
    Cons(Enqueued(tag), Depart(0), a, [Leave(0), Begin(0), Release(0)]);
  }

  lemma {:induction false} Concatenated(s: State, a: seq<Op>, b: seq<Op>)
    requires CanRun(s, a) && CanRun(After(s, a), b)
    ensures CanRun(s, a + b) && After(s, a + b) == After(After(s, a), b)
    decreases |a|
  {
    if a == [] {
      assert a + b == b;
    } else {
      assert (a + b)[1..] == a[1..] + b;
      Concatenated(Step(s, a[0]), a[1..], b);
    }
  }

  /** With one request per connection the thread leaves as soon as it has
      enqueued it, and the session is destroyed before the slot is given back. */
  lemma SlotReturnedTooLate(tag: nat)
    ensures var ops := [Accept] + (Enqueue(tag) + LeaveThenExecute());
            && CanRun(Init(), ops)
            && var s := After(Init(), ops); Legal(s, End(0)) && |s.conns| == 1 && Destroyed(s.conns[0])
  {
    var s := State(RootLane([], None, false, []), [Conn(0, false, 1, 0, Idle)]);
    AfterEnqueue(tag);
    AfterExecution(tag);
    Concatenated(s, Enqueue(tag), LeaveThenExecute());
    assert [] + [Conn(0, false, 1, 0, Idle)] == [Conn(0, false, 1, 0, Idle)];
    Cons(Init(), Accept, s, Enqueue(tag) + LeaveThenExecute());
  }

  // Slots asked for.

  /** A slot is granted exactly on an open connection with fewer than 32 pending
      requests; refused, nothing changes. */
  lemma SlotGrantedIff(s: State, op: Op)
    requires Legal(s, op) && (op.Submit? || op.Open?)
    ensures var before, after := s.conns[op.conn], Step(s, op).conns[op.conn];
            && after.pending == before.pending + (if !before.closed && before.pending < 32 then 1 else 0)
            && (before.closed || before.pending >= 32 ==> Step(s, op) == s)
  {
  }

  /** Once closed, a connection stays closed and never gets a slot again. */
  lemma ClosedGetsNoSlot(s: State, ops: seq<Op>, c: nat)
    requires Legal(s, Close(c)) && CanRun(Step(s, Close(c)), ops)
    ensures var after := After(Step(s, Close(c)), ops);
            c < |after.conns| && after.conns[c].closed && after.conns[c].pending <= s.conns[c].pending
  {
    ClosedStays(Step(s, Close(c)), ops, c);
  }

  lemma {:induction false} ClosedStays(s: State, ops: seq<Op>, c: nat)
    requires CanRun(s, ops) && c < |s.conns| && s.conns[c].closed
    ensures c < |After(s, ops).conns| && After(s, ops).conns[c].closed
    ensures After(s, ops).conns[c].pending <= s.conns[c].pending
    decreases |ops|
  {
    if ops != [] {
      StaysClosed(s, ops[0], c);
      ClosedStays(Step(s, ops[0]), ops[1..], c);
    }
  }

  lemma StaysClosed(s: State, op: Op, c: nat)
    requires Legal(s, op) && c < |s.conns| && s.conns[c].closed
    ensures var after := Step(s, op);
            c < |after.conns| && after.conns[c].closed && after.conns[c].pending <= s.conns[c].pending
  {
  }

  // The objects.

  class ConnectionSession {
    var pendingRequests: nat
    var closed: bool
    var refCount: nat

    constructor ()
      ensures pendingRequests == 0 && !closed && refCount == 1
    {
      pendingRequests, closed, refCount := 0, false, 1;
    }

    ghost predicate Shows(c: Conn)
      reads this
    {
      pendingRequests == c.pending && closed == c.closed && refCount == c.refs
    }

    method Retain()
      modifies this`refCount
      ensures refCount == old(refCount) + 1
    {
      refCount := refCount + 1;
    }

    /** Says whether the session is to be destroyed. */
    method Release(ghost c: Conn) returns (last: bool)
      requires Shows(c) && refCount > 0
      modifies this
      ensures Shows(Dropped(c)) && last == Destroyed(Dropped(c))
    {
      refCount := refCount - 1;
      last := refCount == 0;
      if last {
        MarkClosed();
      }
    }

    method TryReservePendingSlot(ghost c: Conn, ghost phase: Phase) returns (reserved: bool)
      requires Shows(c)
      modifies this
      ensures reserved == Admits(c) && Shows(Reserve(c, phase))
    {
      if closed || pendingRequests >= SLOT_LIMIT {
        return false;
      }
      pendingRequests := pendingRequests + 1;
      reserved := true;
    }

    method FinishPendingRequest()
      requires pendingRequests > 0
      modifies this`pendingRequests
      ensures pendingRequests == old(pendingRequests) - 1
    {
      pendingRequests := pendingRequests - 1;
    }

    method MarkClosed()
      modifies this`closed
      ensures closed
    {
      closed := true;
    }
  }

  class ServerExecutor {
    var rootLane: Lane
    var documentLanes: seq<Lane>

    constructor ()
      ensures Lanes() == Init().lanes
    {
      rootLane, documentLanes := NewLane(Root), [];
    }

    function Lanes(): (lanes: seq<Lane>)
      reads this
      ensures lanes != []
    {
      [rootLane] + documentLanes
    }

    /** The lane with the key: the first one found, or a new one at the end. */
    method ResolveLane(key: LaneKey) returns (index: nat)
      modifies this
      ensures index == ResolvedIndex(old(Lanes()), key) && Lanes() == WithLane(old(Lanes()), key)
    {
      match key {
        case Root =>
          index := 0;
        case Coordinator(path) =>
          index := 0;
          while index < |documentLanes|
            invariant index <= |documentLanes| && Lanes() == old(Lanes())
            invariant FindLane(Lanes(), key, 1) == FindLane(Lanes(), key, index + 1)
          {
            var lane := documentLanes[index];
            assert Lanes()[index + 1] == lane;
            if lane.domainRoot == None && lane.documentPath == Some(path) {
              return index + 1;
            }
            index := index + 1;
          }
          documentLanes := documentLanes + [NewLane(key)];
          index := index + 1;
        case Domain(path, rootNodeId) =>
          index := 0;
          while index < |documentLanes|
            invariant index <= |documentLanes| && Lanes() == old(Lanes())
            invariant FindLane(Lanes(), key, 1) == FindLane(Lanes(), key, index + 1)
          {
            var lane := documentLanes[index];
            assert Lanes()[index + 1] == lane;
            if lane.domainRoot == Some(rootNodeId) && lane.documentPath == Some(path) {
              return index + 1;
            }
            index := index + 1;
          }
          documentLanes := documentLanes + [NewLane(key)];
          index := index + 1;
      }
    }
  }
}
