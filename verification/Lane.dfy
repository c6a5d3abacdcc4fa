/** `LaneQueue` (tools/transport_bridge/src/main.rs) as a transition system:
    any number of tasks with distinct sequence numbers, in any interleaving. */
module Lane {
  import opened Tasks

  /** `sequences[t]` is task `t`'s number. The last three fields are history:
      the orders in which numbers entered the waiting set and were let in, and
      whether a number registered after a larger one had been let in. */
  datatype State = State(sequences: seq<nat>, pcs: seq<Pc>, busy: bool, waiting: set<nat>, generation: nat,
                         registered: seq<nat>, grants: seq<nat>, late: bool)

  ghost predicate Distinct(s: seq<nat>) {
    forall i, j :: 0 <= i < j < |s| ==> s[i] != s[j]
  }

  /** The tasks in `absent` use some other lane. */
  function Init(sequences: seq<nat>, absent: set<nat>): State {
    State(sequences, seq(|sequences|, t => if t in absent then Skipped else Outside), false, {}, 0, [], [], false)
  }

  predicate Overtaken(grants: seq<nat>, x: nat) {
    exists y :: y in grants && x <= y
  }

  /** `first` of the ordered set. */
  predicate IsFirst(waiting: set<nat>, x: nat) {
    x in waiting && forall y :: y in waiting ==> x <= y
  }

  predicate Enabled(s: State, t: nat) {
    t < |s.pcs| == |s.sequences| && s.pcs[t].Enabled(s.generation)
  }

  /** What task `t` does next: `Outside` registers, releasing takes two steps. */
  function Step(s: State, t: nat): State
    requires Enabled(s, t)
  {
    var x := s.sequences[t];
    match s.pcs[t]
    case Outside =>
      s.(pcs := s.pcs[t := Top], waiting := s.waiting + {x}, registered := s.registered + [x],
         late := s.late || Overtaken(s.grants, x))
    case Top => s.(pcs := s.pcs[t := Armed(s.generation)])
    case Armed(g) =>
      if !s.busy && IsFirst(s.waiting, x)
      then s.(pcs := s.pcs[t := Holding], busy := true, waiting := s.waiting - {x}, grants := s.grants + [x])
      else s.(pcs := s.pcs[t := Parked(g)])
    case Parked(_) => s.(pcs := s.pcs[t := Top])
    case Holding => s.(pcs := s.pcs[t := Releasing], busy := false)
    case _ => s.(pcs := s.pcs[t := Done], generation := s.generation + 1)
  }

  ghost predicate CanRun(s: State, schedule: seq<nat>)
    decreases |schedule|
  {
    schedule == [] || (Enabled(s, schedule[0]) && CanRun(Step(s, schedule[0]), schedule[1..]))
  }

  ghost function After(s: State, schedule: seq<nat>): (r: State)
    requires CanRun(s, schedule)
    ensures |r.pcs| == |s.pcs| && r.sequences == s.sequences
    decreases |schedule|
  {
    if schedule == [] then s else After(Step(s, schedule[0]), schedule[1..])
  }

  // What every step keeps.

  ghost predicate Consistent(s: State) {
    && |s.pcs| == |s.sequences| && Distinct(s.sequences)
    && (forall t :: 0 <= t < |s.pcs| ==>
          s.pcs[t].Noted(s.generation) && (s.pcs[t].Trying() <==> s.sequences[t] in s.waiting))
    && forall x :: x in s.waiting ==> x in s.sequences
  }

  ghost predicate OneHolder(s: State) {
    && (s.busy <==> exists t :: 0 <= t < |s.pcs| && s.pcs[t].Holding?)
    && forall t, u :: 0 <= t < u < |s.pcs| ==> !(s.pcs[t].Holding? && s.pcs[u].Holding?)
  }

  /** No lost wakeup. */
  ghost predicate NoLostWakeup(s: State)
    requires |s.pcs| == |s.sequences|
  {
    forall t :: 0 <= t < |s.pcs| && s.pcs[t] == Parked(s.generation) ==>
      s.busy || !IsFirst(s.waiting, s.sequences[t]) || SomeReleasing(s.pcs)
  }

  ghost predicate Increasing(s: seq<nat>) {
    forall i, j :: 0 <= i < j < |s| ==> s[i] < s[j]
  }

  /** What is still waiting is what registered and was not let in yet, in order. */
  ghost predicate Fifo(s: State) {
    && s.grants <= s.registered
    && forall x :: x in s.waiting <==> x in s.registered[|s.grants|..]
  }

  ghost predicate FifoIfOrdered(s: State) {
    Increasing(s.registered) ==> Fifo(s)
  }

  /** While nobody was late the grants ascend, below everything waiting; a late
      number still waits, or has put the grants out of order. */
  ghost predicate LateIffOvertaken(s: State) {
    if s.late then
      !Increasing(s.grants) || exists a :: a in s.waiting && Overtaken(s.grants, a)
    else
      Increasing(s.grants) && forall x, g :: x in s.waiting && g in s.grants ==> g < x
  }

  ghost predicate Invariant(s: State) {
    Consistent(s) && OneHolder(s) && NoLostWakeup(s) && FifoIfOrdered(s) && LateIffOvertaken(s)
  }

  lemma StepKeepsConsistent(s: State, t: nat)
    requires Consistent(s) && Enabled(s, t)
    ensures Consistent(Step(s, t))
  {
    var n, x := Step(s, t), s.sequences[t];
    forall u | 0 <= u < |s.pcs|
      ensures u != t ==> s.sequences[u] != x
    {
    }
    assert x in s.sequences;
  }

  lemma StepKeepsOneHolder(s: State, t: nat)
    requires Consistent(s) && OneHolder(s) && Enabled(s, t)
    ensures OneHolder(Step(s, t))
  {
    var n := Step(s, t);
    if s.pcs[t].Armed? && n.busy && !s.busy {
      assert n.pcs[t].Holding?;
    } else if !s.pcs[t].Holding? && s.busy {
      var h :| 0 <= h < |s.pcs| && s.pcs[h].Holding?;
      assert n.pcs[h].Holding?;
    }
  }

  lemma StepKeepsWakeups(s: State, t: nat)
    requires Consistent(s) && NoLostWakeup(s) && Enabled(s, t)
    ensures NoLostWakeup(Step(s, t))
  {
    var n := Step(s, t);
    forall u | 0 <= u < |n.pcs| && n.pcs[u] == Parked(n.generation)
      ensures n.busy || !IsFirst(n.waiting, n.sequences[u]) || SomeReleasing(n.pcs)
    {
      if s.pcs[t].Holding? {
        assert n.pcs[t].Releasing?;
      } else if u != t && SomeReleasing(s.pcs) {
        var r :| 0 <= r < |s.pcs| && s.pcs[r].Releasing?;
        if r == t {
          assert s.pcs[u].Noted(s.generation);
        } else {
          assert n.pcs[r].Releasing?;
        }
      } else if u != t && !n.busy {
        assert s.waiting <= n.waiting;
      }
    }
  }

  lemma LeastIsFirst(waiting: set<nat>, rest: seq<nat>, x: nat)
    requires Increasing(rest) && IsFirst(waiting, x) && forall y :: y in waiting <==> y in rest
    ensures rest != [] && rest[0] == x
    ensures forall y :: y in waiting - {x} <==> y in rest[1..]
  {
    assert rest[0] in waiting && x in rest;
    assert forall y :: y in rest <==> y == rest[0] || y in rest[1..];
    assert forall i :: 0 <= i < |rest[1..]| ==> rest[1..][i] == rest[i + 1] > x;
  }

  lemma Registers(s: State, x: nat)
    requires Fifo(s)
    ensures s.grants <= s.registered + [x]
    ensures forall y :: y in s.waiting + {x} <==> y in (s.registered + [x])[|s.grants|..]
  {
    assert (s.registered + [x])[|s.grants|..] == s.registered[|s.grants|..] + [x];
  }

  lemma Grants(s: State, x: nat)
    requires Fifo(s) && Increasing(s.registered) && IsFirst(s.waiting, x)
    ensures s.grants + [x] <= s.registered
    ensures forall y :: y in s.waiting - {x} <==> y in s.registered[|s.grants| + 1..]
  {
    var rest := s.registered[|s.grants|..];
    LeastIsFirst(s.waiting, rest, x);
    assert s.registered[|s.grants| + 1..] == rest[1..];
  }

  lemma StepKeepsFifo(s: State, t: nat)
    requires Enabled(s, t) && Fifo(s) && Increasing(s.registered)
    ensures Fifo(Step(s, t))
  {
    var n, x := Step(s, t), s.sequences[t];
    if s.pcs[t].Outside? {
      Registers(s, x);
    } else if n.grants != s.grants {
      Grants(s, x);
    }
  }

  lemma StepKeepsOrder(s: State, t: nat)
    requires Enabled(s, t) && FifoIfOrdered(s)
    ensures FifoIfOrdered(Step(s, t))
  {
    var n := Step(s, t);
    if Increasing(n.registered) {
      IncreasingSnoc(s.registered, s.sequences[t]);
      StepKeepsFifo(s, t);
    }
  }

  lemma IncreasingSnoc(s: seq<nat>, x: nat)
    ensures Increasing(s + [x]) <==> Increasing(s) && forall y :: y in s ==> y < x
  {
    var r := s + [x];
    if Increasing(r) {
      forall i, j | 0 <= i < j < |s|
        ensures s[i] < s[j]
      {
        assert r[i] < r[j];
      }
      forall y | y in s
        ensures y < x
      {
        var i :| 0 <= i < |s| && s[i] == y;
        assert r[i] < r[|s|];
      }
    }
    if Increasing(s) && forall y :: y in s ==> y < x {
      forall i, j | 0 <= i < j < |r|
        ensures r[i] < r[j]
      {
        assert s[i] in s;
      }
    }
  }

  lemma StepKeepsInOrder(s: State, t: nat)
    requires Enabled(s, t) && !s.late && LateIffOvertaken(s)
    ensures LateIffOvertaken(Step(s, t))
  {
    var n, x := Step(s, t), s.sequences[t];
    if n.grants != s.grants {
      IncreasingSnoc(s.grants, x);
    } else if n.late {
      assert x in n.waiting && Overtaken(n.grants, x);
    }
  }

  lemma StepKeepsLate(s: State, t: nat)
    requires Enabled(s, t) && s.late && LateIffOvertaken(s)
    ensures LateIffOvertaken(Step(s, t))
  {
    var n, x := Step(s, t), s.sequences[t];
    if Increasing(s.grants) {
      var a :| a in s.waiting && Overtaken(s.grants, a);
      var y :| y in s.grants && a <= y;
      assert y in n.grants && Overtaken(n.grants, a);
    }
    if n.grants != s.grants { IncreasingSnoc(s.grants, x); }
  }

  ghost predicate SameSkipped(s: State, n: State) {
    |n.pcs| == |s.pcs| && forall t :: 0 <= t < |s.pcs| ==> (n.pcs[t].Skipped? <==> s.pcs[t].Skipped?)
  }

  lemma SkippedStay(s: State, t: nat)
    requires Enabled(s, t)
    ensures SameSkipped(s, Step(s, t))
  {
  }

  lemma StepKeeps(s: State, t: nat)
    requires Invariant(s) && Enabled(s, t)
    ensures Invariant(Step(s, t))
    ensures SameSkipped(s, Step(s, t))
  {
    SkippedStay(s, t);
    StepKeepsConsistent(s, t);
    StepKeepsOneHolder(s, t);
    StepKeepsWakeups(s, t);
    if s.late { StepKeepsLate(s, t); } else { StepKeepsInOrder(s, t); }
    StepKeepsOrder(s, t);
  }

  lemma {:induction false} RunKeeps(s: State, schedule: seq<nat>)
    requires Invariant(s) && CanRun(s, schedule)
    ensures Invariant(After(s, schedule))
    ensures SameSkipped(s, After(s, schedule))
    decreases |schedule|
  {
    if schedule != [] {
      StepKeeps(s, schedule[0]);
      RunKeeps(Step(s, schedule[0]), schedule[1..]);
    }
  }

  /** Over every interleaving: at most one holder, busy exactly while there is
      one, and a task parked on the current notification is owed nothing yet. */
  lemma LaneSafe(sequences: seq<nat>, absent: set<nat>, schedule: seq<nat>)
    requires Distinct(sequences) && CanRun(Init(sequences, absent), schedule)
    ensures OneHolder(After(Init(sequences, absent), schedule))
    ensures NoLostWakeup(After(Init(sequences, absent), schedule))
  {
    RunKeeps(Init(sequences, absent), schedule);
  }

  // Order.

  /** After the first `start` grants, `b` comes only after `a`. */
  ghost predicate NotBefore(grants: seq<nat>, start: nat, a: nat, b: nat) {
    forall j :: start <= j < |grants| && grants[j] == b ==> a in grants[start..j]
  }

  lemma OneGrantEarlier(grants: seq<nat>, start: nat, a: nat, b: nat)
    requires start < |grants| && grants[start] != b
    requires grants[start] == a || NotBefore(grants, start + 1, a, b)
    ensures NotBefore(grants, start, a, b)
  {
    forall j | start <= j < |grants| && grants[j] == b
      ensures a in grants[start..j]
    {
      assert grants[start..j] == [grants[start]] + grants[start + 1..j];
    }
  }

  /** Of two numbers waiting together the smaller is let in first. */
  lemma {:induction false} SmallerFirst(s: State, schedule: seq<nat>, a: nat, b: nat)
    requires CanRun(s, schedule) && a < b && a in s.waiting && b in s.waiting
    ensures s.grants <= After(s, schedule).grants && NotBefore(After(s, schedule).grants, |s.grants|, a, b)
    decreases |schedule|
  {
    if schedule != [] {
      var t := schedule[0];
      var n, x := Step(s, t), s.sequences[t];
      if n.grants == s.grants {
        SmallerFirst(n, schedule[1..], a, b);
      } else {
        GrantsGrow(n, schedule[1..]);
        assert After(s, schedule).grants[|s.grants|] == n.grants[|s.grants|] == x;
        if x != a { SmallerFirst(n, schedule[1..], a, b); }
        OneGrantEarlier(After(s, schedule).grants, |s.grants|, a, b);
      }
    }
  }

  lemma {:induction false} GrantsGrow(s: State, schedule: seq<nat>)
    requires CanRun(s, schedule)
    ensures s.grants <= After(s, schedule).grants
    decreases |schedule|
  {
    if schedule != [] { GrantsGrow(Step(s, schedule[0]), schedule[1..]); }
  }

  /** Registrations made in increasing order are granted in that order. */
  lemma LaneFifo(sequences: seq<nat>, absent: set<nat>, schedule: seq<nat>)
    requires Distinct(sequences) && CanRun(Init(sequences, absent), schedule)
    requires Increasing(After(Init(sequences, absent), schedule).registered)
    ensures After(Init(sequences, absent), schedule).grants <= After(Init(sequences, absent), schedule).registered
  {
    RunKeeps(Init(sequences, absent), schedule);
  }

  /** Once nobody is left waiting, the grants were in order exactly when no
      number registered after a larger one had been let in. */
  lemma LaneOrderedIff(sequences: seq<nat>, absent: set<nat>, schedule: seq<nat>)
    requires Distinct(sequences) && CanRun(Init(sequences, absent), schedule)
    requires After(Init(sequences, absent), schedule).waiting == {}
    ensures var s := After(Init(sequences, absent), schedule); Increasing(s.grants) <==> !s.late
  {
    RunKeeps(Init(sequences, absent), schedule);
  }

  // Liveness.

  ghost predicate Stuck(s: State) {
    forall t :: !Enabled(s, t)
  }

  lemma {:induction false} SomeFirst(waiting: set<nat>) returns (x: nat)
    requires waiting != {}
    ensures IsFirst(waiting, x)
    decreases |waiting|
  {
    x :| x in waiting;
    if waiting - {x} != {} {
      var z := x;
      var y := SomeFirst(waiting - {z});
      x := if y < z then y else z;
      assert forall w :: w in waiting ==> w == z || w in waiting - {z};
    } else {
      assert waiting == {x};
    }
  }

  /** When only tasks that have not registered yet could move, nobody waits. */
  lemma QuietServed(s: State)
    requires Invariant(s) && forall t: nat :: Enabled(s, t) ==> s.pcs[t].Outside?
    ensures s.waiting == {} && forall t :: 0 <= t < |s.pcs| ==> s.pcs[t].Finished() || s.pcs[t].Outside?
  {
    forall t | 0 <= t < |s.pcs|
      ensures s.pcs[t] == Parked(s.generation) || s.pcs[t].Finished() || s.pcs[t].Outside?
    {
      assert Enabled(s, t) ==> s.pcs[t].Outside?;
    }
    if s.waiting != {} {
      var _ := SomeFirst(s.waiting);
    }
  }

  /** A run that can go no further has let every task of the lane in and out again. */
  lemma LaneServesAll(sequences: seq<nat>, absent: set<nat>, schedule: seq<nat>)
    requires Distinct(sequences) && CanRun(Init(sequences, absent), schedule)
    requires Stuck(After(Init(sequences, absent), schedule))
    ensures forall t :: 0 <= t < |sequences| && t !in absent ==> After(Init(sequences, absent), schedule).pcs[t].Done?
  {
    RunKeeps(Init(sequences, absent), schedule);
    var s := After(Init(sequences, absent), schedule);
    QuietServed(s);
    forall t | 0 <= t < |s.pcs|
      ensures s.pcs[t].Finished()
    {
      assert !Enabled(s, t);
    }
  }

  lemma StepLowers(s: State, t: nat)
    requires Consistent(s) && Enabled(s, t)
    ensures Measure(Step(s, t).pcs, Step(s, t).generation) < Measure(s.pcs, s.generation)
  {
    if s.pcs[t].Releasing? {
      NotifyStep(s.pcs, s.generation, t);
    } else {
      QuietStep(s.pcs, s.generation, t, Step(s, t).pcs[t]);
    }
  }

  lemma {:induction false} RunLowers(s: State, schedule: seq<nat>)
    requires Consistent(s) && CanRun(s, schedule)
    ensures |schedule| + Measure(After(s, schedule).pcs, After(s, schedule).generation) <= Measure(s.pcs, s.generation)
    decreases |schedule|
  {
    if schedule != [] {
      StepLowers(s, schedule[0]);
      StepKeepsConsistent(s, schedule[0]);
      RunLowers(Step(s, schedule[0]), schedule[1..]);
    }
  }

  /** No livelock: every run ends within a bound that depends only on the
      number of tasks. */
  lemma LaneRunsEnd(sequences: seq<nat>, absent: set<nat>, schedule: seq<nat>)
    requires Distinct(sequences) && CanRun(Init(sequences, absent), schedule)
    ensures |schedule| <= RunBound(|sequences|)
  {
    var s := Init(sequences, absent);
    RunLowers(s, schedule);
    MeasureBound(s.pcs, s.generation);
  }

  // The atomic sections.

  /** Each method is one mutex-protected section or one call on the `Notify`,
      and takes exactly the step of the transition system. */
  class LaneQueue {
    var busy: bool
    var waitingSequences: set<nat>
    var generation: nat   // how often the `Notify` has woken its waiters

    constructor ()
      ensures forall sequences, absent :: Shows(Init(sequences, absent))
    {
      busy, waitingSequences, generation := false, {}, 0;
    }

    ghost predicate Shows(s: State)
      reads this
    {
      busy == s.busy && waitingSequences == s.waiting && generation == s.generation
    }

    method Register(ghost s: State, ghost t: nat, sequence: nat)
      requires Enabled(s, t) && s.sequences[t] == sequence && s.pcs[t].Outside? && Shows(s)
      modifies this
      ensures Shows(Step(s, t))
    {
      waitingSequences := waitingSequences + {sequence};
    }

    method Notified(ghost s: State, ghost t: nat) returns (g: nat)
      requires Enabled(s, t) && s.pcs[t].Top? && Shows(s)
      ensures Shows(Step(s, t)) && Step(s, t).pcs[t] == Armed(g)
    {
      g := generation;
    }

    method TryAcquire(ghost s: State, ghost t: nat, sequence: nat) returns (granted: bool)
      requires Enabled(s, t) && s.sequences[t] == sequence && s.pcs[t].Armed? && Shows(s)
      modifies this
      ensures Shows(Step(s, t))
      ensures granted <==> Step(s, t).pcs[t].Holding?
    {
      granted := !busy && IsFirst(waitingSequences, sequence);
      if granted {
        busy := true;
        waitingSequences := waitingSequences - {sequence};
      }
    }

    method ClearBusy(ghost s: State, ghost t: nat)
      requires Enabled(s, t) && s.pcs[t].Holding? && Shows(s)
      modifies this
      ensures Shows(Step(s, t))
    {
      busy := false;
    }

    method NotifyWaiters(ghost s: State, ghost t: nat)
      requires Enabled(s, t) && s.pcs[t].Releasing? && Shows(s)
      modifies this
      ensures Shows(Step(s, t))
    {
      generation := generation + 1;
    }
  }
}
