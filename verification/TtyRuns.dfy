/** What every run of the TTY queue conserves (src/daemon/server.zig). A step is
    one section under the handle's mutex, so any interleaving of the reader
    thread and the writer thread is a sequence of steps. */
module TtyRuns {
  import opened Basics
  import opened Lines
  import opened TtyQueue

  datatype Op = Put(bytes: seq<byte>) | Take | EndReader | Close

  /** `entered` is every chunk accepted so far, `received` what the writer got,
      `lossy` how many chunks had to push older data out. */
  datatype Trace = Trace(handle: Handle, entered: seq<seq<byte>>, received: seq<Queued>, lossy: nat)

  function Start(): Trace { Trace(Handle([], false, false), [], [], 0) }

  predicate Legal(t: Trace, op: Op) {
    match op
    case Put(bytes) => 0 < |bytes| <= CHUNK_LIMIT
    case Take => t.handle.queue != [] || t.handle.closing || t.handle.readerDone
    case _ => true
  }

  function Step(t: Trace, op: Op): Trace
    requires Legal(t, op)
  {
    match op
    case Put(bytes) =>
      t.(handle := Enqueue(t.handle, bytes),
         entered := if t.handle.closing then t.entered else t.entered + [bytes],
         lossy := t.lossy + if !t.handle.closing && Lossy(t.handle.queue, |bytes|) then 1 else 0)
    case Take =>
      if t.handle.queue == [] then t
      else t.(handle := t.handle.(queue := t.handle.queue[1..]), received := t.received + [t.handle.queue[0]])
    case EndReader => t.(handle := t.handle.(readerDone := true))
    case Close => t.(handle := t.handle.(queue := [], closing := true))
  }

  ghost predicate CanRun(t: Trace, ops: seq<Op>)
    decreases |ops|
  {
    ops == [] || (Legal(t, ops[0]) && CanRun(Step(t, ops[0]), ops[1..]))
  }

  ghost function After(t: Trace, ops: seq<Op>): Trace
    requires CanRun(t, ops)
    decreases |ops|
  {
    if ops == [] then t else After(Step(t, ops[0]), ops[1..])
  }

  // Dropping.

  /** The bytes of all chunks from the k-th on. */
  function SizeFrom(chunks: seq<seq<byte>>, k: nat): nat
    requires k <= |chunks|
  {
    Size(chunks[k..])
  }

  /** How many of the oldest chunks have to go. */
  function Dropped(chunks: seq<seq<byte>>, extra: nat): (k: nat)
    ensures k <= |chunks|
    ensures extra <= QUEUE_LIMIT ==> SizeFrom(chunks, k) + extra <= QUEUE_LIMIT
    ensures forall j :: 0 <= j < k ==> SizeFrom(chunks, j) + extra > QUEUE_LIMIT
  {
    if chunks == [] || Size(chunks) + extra <= QUEUE_LIMIT then
      assert chunks[0..] == chunks;
      0
    else
      var k := Dropped(chunks[1..], extra);
      assert forall j :: 0 < j <= 1 + k ==> SizeFrom(chunks, j) == SizeFrom(chunks[1..], j - 1) by {
        assert forall j :: 0 < j <= 1 + k ==> chunks[j..] == chunks[1..][j - 1..];
      }
      assert chunks[0..] == chunks;
      1 + k
  }

  /** Room is made by dropping the least number of oldest chunks, whole. */
  lemma {:induction false} MakeRoomExact(queue: seq<Queued>, extra: nat)
    ensures DataOf(MakeRoom(queue, extra)) == DataOf(queue)[Dropped(DataOf(queue), extra)..]
    ensures Markers(MakeRoom(queue, extra)) == Markers(queue)
    ensures Lossy(queue, extra) <==> Dropped(DataOf(queue), extra) > 0
    decreases |DataOf(queue)|
  {
    if Lossy(queue, extra) {
      DropOldestExact(queue);
      MakeRoomExact(DropOldest(queue), extra);
    }
  }

  // What every step keeps.

  /** What is queued is the newest part of what entered; what was received comes,
      in order, from the part before it. */
  ghost predicate Split(entered: seq<seq<byte>>, got: seq<seq<byte>>, queued: seq<seq<byte>>) {
    && |queued| <= |entered| && entered[|entered| - |queued|..] == queued
    && Subsequence(got, entered[..|entered| - |queued|])
  }

  ghost predicate Conserved(t: Trace) {
    var queued, got := DataOf(t.handle.queue), DataOf(t.received);
    && Split(t.entered, got, queued) && Size(queued) <= QUEUE_LIMIT
    && Markers(t.received) + Markers(t.handle.queue) == t.lossy
    && (t.lossy == 0 <==> |got| + |queued| == |t.entered|)
  }

  ghost predicate Kept(t: Trace) {
    if t.handle.closing then t.handle.queue == [] else Conserved(t)
  }

  lemma {:induction false} SubsequenceLength<T>(s: seq<T>, t: seq<T>)
    requires Subsequence(s, t)
    ensures |s| <= |t|
    decreases |t|
  {
    if s != [] {
      if s[0] == t[0] && Subsequence(s[1..], t[1..]) {
        SubsequenceLength(s[1..], t[1..]);
      } else {
        SubsequenceLength(s, t[1..]);
      }
    }
  }

  lemma Longer<T>(a: seq<T>, b: seq<T>, c: seq<T>, d: seq<T>)
    requires Subsequence(a, b) && Subsequence(c, d)
    ensures Subsequence(a + c, b + d)
  {
    SubsequenceConcat(a, b, c, d);
  }

  lemma SplitPut(entered: seq<seq<byte>>, got: seq<seq<byte>>, queued: seq<seq<byte>>, k: nat, x: seq<byte>)
    requires Split(entered, got, queued) && k <= |queued|
    ensures Split(entered + [x], got, queued[k..] + [x])
  {
    var gone := entered[..|entered| - |queued|];
    assert entered == gone + queued;
    assert (entered + [x])[..|gone| + k] == gone + queued[..k];
    Longer(got, gone, [], queued[..k]);
    assert got + [] == got;
  }

  lemma SplitTake(entered: seq<seq<byte>>, got: seq<seq<byte>>, queued: seq<seq<byte>>)
    requires Split(entered, got, queued) && queued != []
    ensures Split(entered, got + [queued[0]], queued[1..])
  {
    var gone := entered[..|entered| - |queued|];
    assert entered == gone + queued;
    assert entered[..|gone| + 1] == gone + [queued[0]];
    SubsequenceRefl([queued[0]]);
    Longer(got, gone, [queued[0]], [queued[0]]);
  }

  /** Whether everything that entered is still accounted for. */
  lemma CountPut(entered: seq<seq<byte>>, got: seq<seq<byte>>, queued: seq<seq<byte>>, k: nat, x: seq<byte>)
    requires Split(entered, got, queued) && k <= |queued|
    ensures |got| + |queued[k..] + [x]| == |entered + [x]| <==> k == 0 && |got| + |queued| == |entered|
  {
    SubsequenceLength(got, entered[..|entered| - |queued|]);
  }

  lemma RoomSize(queued: seq<seq<byte>>, x: seq<byte>)
    requires |x| <= QUEUE_LIMIT
    ensures Size(queued[Dropped(queued, |x|)..] + [x]) <= QUEUE_LIMIT
  {
    SizeConcat(queued[Dropped(queued, |x|)..], [x]);
  }

  lemma PutKeeps(t: Trace, bytes: seq<byte>)
    requires Conserved(t) && Legal(t, Put(bytes)) && !t.handle.closing
    ensures Conserved(Step(t, Put(bytes)))
  {
    var queue, extra := t.handle.queue, |bytes|;
    var queued, got := DataOf(queue), DataOf(t.received);
    var room, k := MakeRoom(queue, extra), Dropped(queued, extra);
    MakeRoomExact(queue, extra);
    Appended(room, Lossy(queue, extra), bytes);
    var after := Step(t, Put(bytes)).handle.queue;
    assert DataOf(after) == queued[k..] + [bytes];
    SplitPut(t.entered, got, queued, k, bytes);
    CountPut(t.entered, got, queued, k, bytes);
    RoomSize(queued, bytes);
  }

  lemma HeadData(queue: seq<Queued>)
    requires queue != []
    ensures queue[0].Data? ==>
              && DataOf(queue) == [queue[0].bytes] + DataOf(queue[1..]) && Markers(queue[1..]) == Markers(queue)
              && DataOf(queue)[0] == queue[0].bytes && DataOf(queue)[1..] == DataOf(queue[1..])
    ensures queue[0].Overflow? ==> DataOf(queue) == DataOf(queue[1..]) && Markers(queue) == 1 + Markers(queue[1..])
  {
  }

  lemma OneReceived(received: seq<Queued>, head: Queued)
    ensures DataOf(received + [head]) == if head.Data? then DataOf(received) + [head.bytes] else DataOf(received)
    ensures Markers(received + [head]) == Markers(received) + if head.Data? then 0 else 1
  {
    DataOfConcat(received, [head]);
    MarkersConcat(received, [head]);
    assert DataOf([head]) == if head.Data? then [head.bytes] else [];
    assert DataOf(received) + [] == DataOf(received);
  }

  lemma TakeKeeps(t: Trace)
    requires Conserved(t) && t.handle.queue != []
    ensures Conserved(Step(t, Take))
  {
    var queue := t.handle.queue;
    HeadTaken(queue);
    HeadData(queue);
    OneReceived(t.received, queue[0]);
    if queue[0].Data? { SplitTake(t.entered, DataOf(t.received), DataOf(queue)); }
  }

  lemma {:induction false} RunKeeps(t: Trace, ops: seq<Op>)
    requires Kept(t) && CanRun(t, ops)
    ensures Kept(After(t, ops))
    decreases |ops|
  {
    if ops != [] {
      if !t.handle.closing {
        if ops[0].Put? { PutKeeps(t, ops[0].bytes); }
        if ops[0].Take? && t.handle.queue != [] { TakeKeeps(t); }
      }
      RunKeeps(Step(t, ops[0]), ops[1..]);
    }
  }

  /** Until the stream is closed: received and queued data are the chunks that
      entered, in order, minus whole dropped chunks, none younger than what is
      queued; the queue keeps to its limit; markers delivered or queued count
      the lossy puts, and nothing was lost exactly when there is no marker. */
  lemma TtyConserves(ops: seq<Op>)
    requires CanRun(Start(), ops) && !After(Start(), ops).handle.closing
    ensures var t := After(Start(), ops);
            var queued, got := DataOf(t.handle.queue), DataOf(t.received);
            && Split(t.entered, got, queued) && Subsequence(got + queued, t.entered)
            && Size(queued) <= QUEUE_LIMIT
            && Markers(t.received) + Markers(t.handle.queue) == t.lossy
            && (got + queued == t.entered <==> t.lossy == 0)
  {
    RunKeeps(Start(), ops);
    var t := After(Start(), ops);
    var queued, got := DataOf(t.handle.queue), DataOf(t.received);
    var gone := t.entered[..|t.entered| - |queued|];
    assert t.entered == gone + queued;
    SubsequenceRefl(queued);
    Longer(got, gone, queued, queued);
    if t.lossy == 0 { WholeSubsequence(got, gone); }
  }

  lemma {:induction false} WholeSubsequence<T>(s: seq<T>, t: seq<T>)
    requires Subsequence(s, t) && |s| == |t|
    ensures s == t
    decreases |t|
  {
    if s != [] {
      if s[0] == t[0] && Subsequence(s[1..], t[1..]) {
        WholeSubsequence(s[1..], t[1..]);
        assert s == [s[0]] + s[1..] && t == [t[0]] + t[1..];
      } else {
        SubsequenceLength(s, t[1..]);
      }
    }
  }

  /** Closing drops what is queued, and a closed stream stays closed and empty:
      nothing enters it any more, and nothing is received from it. */
  lemma ClosedForGood(t: Trace, ops: seq<Op>)
    requires CanRun(Step(t, Close), ops)
    ensures var u := After(Step(t, Close), ops);
            && u.handle.closing && u.handle.queue == []
            && u.entered == t.entered && u.received == t.received && u.lossy == t.lossy
  {
    ClosedStays(Step(t, Close), ops);
  }

  lemma {:induction false} ClosedStays(t: Trace, ops: seq<Op>)
    requires CanRun(t, ops) && t.handle.closing && t.handle.queue == []
    ensures var u := After(t, ops);
            && u.handle.closing && u.handle.queue == []
            && u.entered == t.entered && u.received == t.received && u.lossy == t.lossy
    decreases |ops|
  {
    if ops != [] { ClosedStays(Step(t, ops[0]), ops[1..]); }
  }

  // Whole reads.

  function Puts(parts: seq<seq<byte>>): seq<Op> {
    if parts == [] then [] else [Put(parts[0])] + Puts(parts[1..])
  }

  lemma RunCons(t: Trace, op: Op, ops: seq<Op>)
    requires Legal(t, op) && CanRun(Step(t, op), ops)
    ensures CanRun(t, [op] + ops) && After(t, [op] + ops) == After(Step(t, op), ops)
  {
    assert ([op] + ops)[1..] == ops;
  }

  /** A read is the run of the puts of its parts. */
  lemma {:induction false} ReadIsPuts(t: Trace, parts: seq<seq<byte>>)
    requires forall part :: part in parts ==> 0 < |part| <= CHUNK_LIMIT
    ensures CanRun(t, Puts(parts))
    ensures var u := After(t, Puts(parts));
            && u.handle == EnqueueAll(t.handle, parts) && u.received == t.received
            && u.entered == (if t.handle.closing then t.entered else t.entered + parts)
    decreases |parts|
  {
    if parts == [] {
      assert t.entered + parts == t.entered;
    } else {
      var part, rest := parts[0], parts[1..];
      assert part in parts && forall x :: x in rest ==> x in parts;
      ReadIsPuts(Step(t, Put(part)), rest);
      RunCons(t, Put(part), Puts(rest));
      HeadTail(parts);
      Regroup(t.entered, [part], rest);
    }
  }

  ghost predicate LeastThatFits(chunks: seq<seq<byte>>, extra: nat, k: nat) {
    && k <= |chunks| && SizeFrom(chunks, k) + extra <= QUEUE_LIMIT
    && forall j :: 0 <= j < k ==> SizeFrom(chunks, j) + extra > QUEUE_LIMIT
  }

  lemma DroppedIs(chunks: seq<seq<byte>>, extra: nat, k: nat)
    requires extra <= QUEUE_LIMIT
    ensures Dropped(chunks, extra) == k <==> LeastThatFits(chunks, extra, k)
  {
  }

  lemma OneMoreSize(chunks: seq<seq<byte>>, x: seq<byte>, j: nat)
    requires j <= |chunks|
    ensures SizeFrom(chunks + [x], j) == SizeFrom(chunks, j) + |x|
  {
    assert (chunks + [x])[j..] == chunks[j..] + [x];
    SizeConcat(chunks[j..], [x]);
  }

  lemma SizeFromLater(chunks: seq<seq<byte>>, a: nat, b: nat)
    requires a + b <= |chunks|
    ensures SizeFrom(chunks[a..], b) == SizeFrom(chunks, a + b)
  {
    assert chunks[a..][b..] == chunks[a + b..];
  }

  lemma OverBefore(all: seq<seq<byte>>, x: seq<byte>, a: nat, b: nat, j: nat)
    requires LeastThatFits(all, 0, a) && LeastThatFits(all[a..], |x|, b) && j < a + b
    ensures SizeFrom(all + [x], j) > QUEUE_LIMIT
  {
    OneMoreSize(all, x, j);
    if j >= a { SizeFromLater(all, a, j - a); }
  }

  /** Dropping for what is there, and then for one chunk more, is dropping for all. */
  lemma FitsTwice(all: seq<seq<byte>>, x: seq<byte>, a: nat, b: nat)
    requires LeastThatFits(all, 0, a) && LeastThatFits(all[a..], |x|, b)
    ensures LeastThatFits(all + [x], 0, a + b)
  {
    OneMoreSize(all, x, a + b);
    SizeFromLater(all, a, b);
    forall j | 0 <= j < a + b
      ensures SizeFrom(all + [x], j) > QUEUE_LIMIT
    {
      OverBefore(all, x, a, b, j);
    }
  }

  lemma SliceThenOne<T>(s: seq<T>, x: T, a: nat, b: nat)
    requires a + b <= |s|
    ensures s[a..][b..] + [x] == (s + [x])[a + b..]
  {
  }

  lemma PutData(h: Handle, bytes: seq<byte>) returns (k: nat)
    requires !h.closing && |bytes| <= QUEUE_LIMIT
    ensures LeastThatFits(DataOf(h.queue), |bytes|, k)
    ensures DataOf(Enqueue(h, bytes).queue) == DataOf(h.queue)[k..] + [bytes] && !Enqueue(h, bytes).closing
  {
    MakeRoomExact(h.queue, |bytes|);
    Appended(MakeRoom(h.queue, |bytes|), Lossy(h.queue, |bytes|), bytes);
    k := Dropped(DataOf(h.queue), |bytes|);
    DroppedIs(DataOf(h.queue), |bytes|, k);
  }

  /** The queue is the longest end, that fits, of everything put so far. */
  lemma {:induction false} PutsData(h: Handle, parts: seq<seq<byte>>, all: seq<seq<byte>>, a: nat) returns (k: nat)
    requires !h.closing && forall part :: part in parts ==> |part| <= QUEUE_LIMIT
    requires LeastThatFits(all, 0, a) && DataOf(h.queue) == all[a..]
    ensures LeastThatFits(all + parts, 0, k) && DataOf(EnqueueAll(h, parts).queue) == (all + parts)[k..]
    decreases |parts|
  {
    if parts == [] {
      k := a;
      assert all + parts == all;
    } else {
      var part, rest := parts[0], parts[1..];
      assert part in parts && forall x :: x in rest ==> x in parts;
      var b := PutData(h, part);
      FitsTwice(all, part, a, b);
      SliceThenOne(all, part, a, b);
      k := PutsData(Enqueue(h, part), rest, all + [part], a + b);
      HeadTail(parts);
      Regroup(all, [part], rest);
    }
  }

  /** What a read does to an open stream: the parts it is cut into, which make up
      exactly the read, are queued behind everything else, and the least number
      of oldest chunks is gone so that the rest fits. */
  lemma ReadExact(h: Handle, chunk: seq<byte>)
    requires !h.closing && Size(DataOf(h.queue)) <= QUEUE_LIMIT
    ensures var parts := Parts(chunk);
            var all := DataOf(h.queue) + parts;
            && Flat(parts) == chunk
            && DataOf(EnqueueAll(h, parts).queue) == all[Dropped(all, 0)..]
            && (|chunk| <= CHUNK_LIMIT && chunk != [] ==> parts == [chunk])
  {
    var queued := DataOf(h.queue);
    PartsExact(chunk);
    assert queued[0..] == queued;
    var k := PutsData(h, Parts(chunk), queued, 0);
    DroppedIs(queued + Parts(chunk), 0, k);
  }

  /** A put ends the queue with its chunk, right after a marker if and only if
      older data had to go. */
  lemma MarkerBeforeChunk(h: Handle, bytes: seq<byte>)
    requires !h.closing
    ensures var after := Enqueue(h, bytes).queue;
            && after != [] && after[|after| - 1] == Data(bytes)
            && (Dropped(DataOf(h.queue), |bytes|) > 0 ==> |after| > 1 && after[|after| - 2] == Overflow)
            && Markers(after) == Markers(h.queue) + if Dropped(DataOf(h.queue), |bytes|) > 0 then 1 else 0
  {
    MakeRoomExact(h.queue, |bytes|);
    Appended(MakeRoom(h.queue, |bytes|), Lossy(h.queue, |bytes|), bytes);
  }
}
