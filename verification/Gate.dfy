/** `OrderedSequenceGate` (tools/transport_bridge/src/main.rs) as a transition
    system: any number of tasks, interleaved in any order. */
module Gate {
  import opened Basics
  import opened Tasks

  /** Task `t` carries sequence `t + 1`; `grants` records the sequences in the
      order in which they were let in. */
  datatype State = State(pcs: seq<Pc>, busy: bool, next: nat, generation: nat, grants: seq<nat>)

  /** Some accepted streams never call `acquire` (the wrong-path exit). */
  function Init(count: nat, skipped: set<nat>): State {
    State(seq(count, t => if t in skipped then Skipped else Outside), false, 1, 0, [])
  }

  predicate Enabled(s: State, t: nat) {
    t < |s.pcs| && s.pcs[t].Enabled(s.generation)
  }

  /** What task `t` does next. Releasing takes two steps. */
  function Step(s: State, t: nat): State
    requires Enabled(s, t)
  {
    match s.pcs[t]
    case Outside => s.(pcs := s.pcs[t := Top])
    case Top => s.(pcs := s.pcs[t := Armed(s.generation)])
    case Armed(g) =>
      if !s.busy && s.next == t + 1
      then s.(pcs := s.pcs[t := Holding], busy := true, grants := s.grants + [t + 1])
      else s.(pcs := s.pcs[t := Parked(g)])
    case Parked(_) => s.(pcs := s.pcs[t := Top])
    case Holding => s.(pcs := s.pcs[t := Releasing], busy := false, next := s.next + 1)
    case _ => s.(pcs := s.pcs[t := Done], generation := s.generation + 1)
  }

  ghost predicate CanRun(s: State, schedule: seq<nat>)
    decreases |schedule|
  {
    schedule == [] || (Enabled(s, schedule[0]) && CanRun(Step(s, schedule[0]), schedule[1..]))
  }

  ghost function After(s: State, schedule: seq<nat>): (r: State)
    requires CanRun(s, schedule)
    ensures |r.pcs| == |s.pcs|
    decreases |schedule|
  {
    if schedule == [] then s else After(Step(s, schedule[0]), schedule[1..])
  }

  // What every step keeps.

  ghost predicate Ordered(s: State) {
    && 1 <= s.next <= |s.pcs| + 1
    && (forall t :: 0 <= t < |s.pcs| ==>
          && s.pcs[t].Noted(s.generation)
          && (t + 1 < s.next <==> s.pcs[t].Releasing? || s.pcs[t].Done?)
          && (s.pcs[t].Holding? ==> s.busy && t + 1 == s.next))
    && (s.busy ==> s.next <= |s.pcs| && s.pcs[s.next - 1].Holding?)
  }

  /** The k-th grant is sequence k. */
  ghost predicate InSequence(s: State) {
    && |s.grants| == s.next - (if s.busy then 0 else 1)
    && forall k :: 0 <= k < |s.grants| ==> s.grants[k] == k + 1
  }

  /** No lost wakeup. */
  ghost predicate NoLostWakeup(s: State) {
    forall t :: 0 <= t < |s.pcs| && s.pcs[t] == Parked(s.generation) ==>
      s.busy || s.next != t + 1 || SomeReleasing(s.pcs)
  }

  ghost predicate Invariant(s: State) {
    Ordered(s) && InSequence(s) && NoLostWakeup(s)
  }

  lemma StepKeepsOrder(s: State, t: nat)
    requires Ordered(s) && InSequence(s) && Enabled(s, t)
    ensures Ordered(Step(s, t)) && InSequence(Step(s, t))
  {
  }

  lemma StepKeepsWakeups(s: State, t: nat)
    requires Ordered(s) && NoLostWakeup(s) && Enabled(s, t)
    ensures NoLostWakeup(Step(s, t))
  {
    var n := Step(s, t);
    forall u | 0 <= u < |n.pcs| && n.pcs[u] == Parked(n.generation)
      ensures n.busy || n.next != u + 1 || SomeReleasing(n.pcs)
    {
      if s.pcs[t].Holding? {
        assert n.pcs[t].Releasing?;
      } else if u != t && SomeReleasing(s.pcs) {
        var r :| 0 <= r < |s.pcs| && s.pcs[r].Releasing?;
        if r == t {
          assert s.pcs[u].Noted(s.generation);
        } else {
          assert n.pcs[r].Releasing?;
        }
      }
    }
  }

  lemma {:induction false} RunKeeps(s: State, schedule: seq<nat>)
    requires Invariant(s) && CanRun(s, schedule)
    ensures Invariant(After(s, schedule))
    ensures forall t :: 0 <= t < |s.pcs| ==> (After(s, schedule).pcs[t].Skipped? <==> s.pcs[t].Skipped?)
    decreases |schedule|
  {
    if schedule != [] {
      StepKeepsOrder(s, schedule[0]);
      StepKeepsWakeups(s, schedule[0]);
      RunKeeps(Step(s, schedule[0]), schedule[1..]);
    }
  }

  /** Over every interleaving: at most one holder, the k-th grant is sequence
      k, and a task parked on the current notification is owed nothing yet. */
  lemma GateSafe(count: nat, skipped: set<nat>, schedule: seq<nat>)
    requires CanRun(Init(count, skipped), schedule)
    ensures var s := After(Init(count, skipped), schedule);
            && |s.pcs| == count && InSequence(s) && NoLostWakeup(s)
            && forall t, u :: 0 <= t < count && 0 <= u < count && s.pcs[t].Holding? && s.pcs[u].Holding? ==> t == u
  {
    RunKeeps(Init(count, skipped), schedule);
  }

  // Liveness.

  ghost predicate Stuck(s: State) {
    forall t :: !Enabled(s, t)
  }

  /** Where a stuck gate stands: at the least sequence that never calls `acquire`. */
  lemma StuckAtSkipped(s: State)
    requires Invariant(s) && Stuck(s)
    ensures forall t :: 0 <= t < |s.pcs| ==>
              if t + 1 < s.next then s.pcs[t].Done? else s.pcs[t].Parked? || s.pcs[t].Skipped?
    ensures s.next <= |s.pcs| ==> s.pcs[s.next - 1].Skipped?
  {
    forall t | 0 <= t < |s.pcs|
      ensures s.pcs[t] == Parked(s.generation) || s.pcs[t].Finished()
    {
      assert !Enabled(s, t);
    }
    assert !SomeReleasing(s.pcs);
  }

  /** A run that can go no further has served a task exactly when no smaller
      sequence skips `acquire`; with nobody skipping, it has served them all. */
  lemma GateServesIff(count: nat, skipped: set<nat>, schedule: seq<nat>, t: nat)
    requires CanRun(Init(count, skipped), schedule) && Stuck(After(Init(count, skipped), schedule))
    requires t < count && t !in skipped
    ensures After(Init(count, skipped), schedule).pcs[t].Done? <==> forall u :: 0 <= u < t ==> u !in skipped
  {
    var s := After(Init(count, skipped), schedule);
    RunKeeps(Init(count, skipped), schedule);
    StuckAtSkipped(s);
    if t + 1 >= s.next {
      var u := s.next - 1;
      assert Init(count, skipped).pcs[u].Skipped? && Init(count, skipped).pcs[t].Outside?;
      assert u in skipped && u < t;
    } else {
      forall u | 0 <= u < t
        ensures u !in skipped
      {
        assert s.pcs[u].Done?;
      }
    }
  }

  /** The first sequence skips, the second waits for it for ever. */
  lemma SkippedSequenceStalls()
    ensures CanRun(Init(2, {0}), [1, 1, 1]) && Stuck(After(Init(2, {0}), [1, 1, 1]))
    ensures After(Init(2, {0}), [1, 1, 1]).pcs == [Skipped, Parked(0)]
  {
    var s := Init(2, {0});
    assert s.pcs == [Skipped, Outside];
    var a := Step(s, 1);
    assert a.pcs == [Skipped, Top];
    var b := Step(a, 1);
    assert b.pcs == [Skipped, Armed(0)];
    var c := Step(b, 1);
    assert c.pcs == [Skipped, Parked(0)];
    assert [1, 1, 1][1..] == [1, 1] && [1, 1][1..] == [1] && [1][1..] == [];
    assert After(c, []) == c && After(b, [1]) == c && After(a, [1, 1]) == c;
  }

  lemma StepLowers(s: State, t: nat)
    requires Ordered(s) && Enabled(s, t)
    ensures Measure(Step(s, t).pcs, Step(s, t).generation) < Measure(s.pcs, s.generation)
  {
    if s.pcs[t].Releasing? {
      NotifyStep(s.pcs, s.generation, t);
    } else {
      QuietStep(s.pcs, s.generation, t, Step(s, t).pcs[t]);
    }
  }

  lemma {:induction false} RunLowers(s: State, schedule: seq<nat>)
    requires Invariant(s) && CanRun(s, schedule)
    ensures |schedule| + Measure(After(s, schedule).pcs, After(s, schedule).generation) <= Measure(s.pcs, s.generation)
    decreases |schedule|
  {
    if schedule != [] {
      StepLowers(s, schedule[0]);
      StepKeepsOrder(s, schedule[0]);
      StepKeepsWakeups(s, schedule[0]);
      RunLowers(Step(s, schedule[0]), schedule[1..]);
    }
  }

  /** No livelock: every run ends within a bound that depends only on the
      number of tasks. */
  lemma GateRunsEnd(count: nat, skipped: set<nat>, schedule: seq<nat>)
    requires CanRun(Init(count, skipped), schedule)
    ensures |schedule| <= RunBound(count)
  {
    var s := Init(count, skipped);
    RunLowers(s, schedule);
    MeasureBound(s.pcs, s.generation);
  }

  // The atomic sections.

  /** Each method is one mutex-protected section or one call on the `Notify`,
      and takes exactly the step of the transition system. */
  class OrderedSequenceGate {
    var busy: bool
    var nextSequence: usize
    var generation: nat   // how often the `Notify` has woken its waiters

    constructor ()
      ensures forall count, skipped :: Shows(Init(count, skipped))
    {
      busy, nextSequence, generation := false, 1, 0;
    }

    ghost predicate Shows(s: State)
      reads this
    {
      busy == s.busy && nextSequence == s.next && generation == s.generation
    }

    method Notified(ghost s: State, ghost t: nat) returns (g: nat)
      requires Enabled(s, t) && s.pcs[t].Top? && Shows(s)
      ensures Shows(Step(s, t)) && Step(s, t).pcs[t] == Armed(g)
    {
      g := generation;
    }

    method TryAcquire(ghost s: State, sequence: usize) returns (granted: bool)
      requires 1 <= sequence && Enabled(s, sequence - 1) && s.pcs[sequence - 1].Armed? && Shows(s)
      modifies this
      ensures Shows(Step(s, sequence - 1))
      ensures granted <==> Step(s, sequence - 1).pcs[sequence - 1].Holding?
    {
      granted := !busy && nextSequence == sequence;
      if granted {
        busy := true;
      }
    }

    /** The counter never overflows while fewer than 2^64 - 1 sequences were issued. */
    method ClearAndAdvance(ghost s: State, ghost t: nat)
      requires Enabled(s, t) && s.pcs[t].Holding? && Shows(s)
      requires Ordered(s) && |s.pcs| < U64_MAX
      modifies this
      ensures Shows(Step(s, t))
    {
      busy := false;
      nextSequence := nextSequence + 1;
    }

    method NotifyWaiters(ghost s: State, ghost t: nat)
      requires Enabled(s, t) && s.pcs[t].Releasing? && Shows(s)
      modifies this
      ensures Shows(Step(s, t))
    {
      generation := generation + 1;
    }
  }
}
