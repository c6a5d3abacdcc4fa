/** One stream's way into the bridge (tools/transport_bridge/src/main.rs,
    `start_h2_stream`): through the body-read gate, then through the lane its
    request is classified to. A stream with a wrong path is refused before the
    gate, one with a bad body after it. */
module Admission {
  import opened Basics
  import opened Tasks
  import Gate
  import Lane

  /** Task `t` carries sequence `t + 1`; the tasks in `skipped` never reach the
      gate; task `t` goes on to lane `laneOf[t]`, or leaves if it has none. */
  datatype State = State(gate: Gate.State, lanes: seq<Lane.State>, laneOf: seq<Option<nat>>, skipped: set<nat>)

  function Numbers(count: nat): (s: seq<nat>)
    ensures |s| == count && Lane.Distinct(s)
  {
    seq(count, t => t + 1)
  }

  function Elsewhere(laneOf: seq<Option<nat>>, lane: nat): set<nat> {
    set t | 0 <= t < |laneOf| && laneOf[t] != Some(lane)
  }

  function Init(laneOf: seq<Option<nat>>, laneCount: nat, skipped: set<nat>): State {
    var lanes := seq(laneCount, k requires 0 <= k < laneCount => Lane.Init(Numbers(|laneOf|), Elsewhere(laneOf, k)));
    State(Gate.Init(|laneOf|, skipped), lanes, laneOf, skipped)
  }

  /** Every lane named exists. */
  predicate LanesExist(laneOf: seq<Option<nat>>, laneCount: nat) {
    forall t :: 0 <= t < |laneOf| && laneOf[t].Some? ==> laneOf[t].value < laneCount
  }

  predicate InLane(s: State, t: nat) {
    t < |s.laneOf| && s.laneOf[t].Some? && s.laneOf[t].value < |s.lanes|
  }

  predicate Enabled(s: State, t: nat) {
    t < |s.gate.pcs| &&
    if s.gate.pcs[t].Done? then InLane(s, t) && Lane.Enabled(s.lanes[s.laneOf[t].value], t) else Gate.Enabled(s.gate, t)
  }

  function Step(s: State, t: nat): State
    requires Enabled(s, t)
  {
    if s.gate.pcs[t].Done? then
      var k := s.laneOf[t].value;
      s.(lanes := s.lanes[k := Lane.Step(s.lanes[k], t)])
    else s.(gate := Gate.Step(s.gate, t))
  }

  ghost predicate CanRun(s: State, schedule: seq<nat>)
    decreases |schedule|
  {
    schedule == [] || (Enabled(s, schedule[0]) && CanRun(Step(s, schedule[0]), schedule[1..]))
  }

  ghost function After(s: State, schedule: seq<nat>): (r: State)
    requires CanRun(s, schedule)
    ensures |r.lanes| == |s.lanes| && r.laneOf == s.laneOf && r.skipped == s.skipped
    decreases |schedule|
  {
    if schedule == [] then s else After(Step(s, schedule[0]), schedule[1..])
  }

  ghost predicate GateFine(gate: Gate.State, count: nat, skipped: set<nat>) {
    Gate.Invariant(gate) && |gate.pcs| == count && forall t :: 0 <= t < count ==> (gate.pcs[t].Skipped? <==> t in skipped)
  }

  /** A lane's own tasks are those sent to it, and none has entered before it
      passed the gate. */
  ghost predicate LaneFine(lane: Lane.State, k: nat, laneOf: seq<Option<nat>>, gate: Gate.State) {
    && Lane.Invariant(lane) && lane.sequences == Numbers(|laneOf|) && |gate.pcs| == |laneOf|
    && (forall t :: 0 <= t < |laneOf| ==> (lane.pcs[t].Skipped? <==> laneOf[t] != Some(k)))
    && forall t :: 0 <= t < |laneOf| && !gate.pcs[t].Done? ==> lane.pcs[t].Skipped? || lane.pcs[t].Outside?
  }

  ghost predicate Invariant(s: State) {
    && GateFine(s.gate, |s.laneOf|, s.skipped)
    && LanesExist(s.laneOf, |s.lanes|)
    && forall k :: 0 <= k < |s.lanes| ==> LaneFine(s.lanes[k], k, s.laneOf, s.gate)
  }

  lemma GateStep(gate: Gate.State, t: nat, count: nat, skipped: set<nat>)
    requires GateFine(gate, count, skipped) && Gate.Enabled(gate, t)
    ensures GateFine(Gate.Step(gate, t), count, skipped)
    ensures forall u :: 0 <= u < count && gate.pcs[u].Done? ==> Gate.Step(gate, t).pcs[u].Done?
  {
    Gate.StepKeepsOrder(gate, t);
    Gate.StepKeepsWakeups(gate, t);
  }

  lemma LaneStep(lane: Lane.State, k: nat, laneOf: seq<Option<nat>>, gate: Gate.State, t: nat)
    requires LaneFine(lane, k, laneOf, gate) && Lane.Enabled(lane, t) && gate.pcs[t].Done?
    ensures LaneFine(Lane.Step(lane, t), k, laneOf, gate)
  {
    Lane.StepKeeps(lane, t);
  }

  lemma StepKeeps(s: State, t: nat)
    requires Invariant(s) && Enabled(s, t)
    ensures Invariant(Step(s, t))
  {
    if s.gate.pcs[t].Done? {
      var k := s.laneOf[t].value;
      LaneStep(s.lanes[k], k, s.laneOf, s.gate, t);
    } else {
      GateStep(s.gate, t, |s.laneOf|, s.skipped);
    }
  }

  lemma {:induction false} RunKeeps(s: State, schedule: seq<nat>)
    requires Invariant(s) && CanRun(s, schedule)
    ensures Invariant(After(s, schedule))
    decreases |schedule|
  {
    if schedule != [] {
      StepKeeps(s, schedule[0]);
      RunKeeps(Step(s, schedule[0]), schedule[1..]);
    }
  }

  lemma InitFine(laneOf: seq<Option<nat>>, laneCount: nat, skipped: set<nat>)
    requires LanesExist(laneOf, laneCount)
    ensures Invariant(Init(laneOf, laneCount, skipped))
  {
    var s := Init(laneOf, laneCount, skipped);
    forall k | 0 <= k < laneCount
      ensures LaneFine(s.lanes[k], k, laneOf, s.gate)
    {
    }
  }

  /** What holds of a lane within the bridge. */
  ghost predicate LaneSafe(lane: Lane.State, k: nat, laneOf: seq<Option<nat>>, gate: Gate.State) {
    && |lane.pcs| == |lane.sequences| == |laneOf| == |gate.pcs|
    && Lane.OneHolder(lane) && Lane.NoLostWakeup(lane) && Lane.FifoIfOrdered(lane) && Lane.LateIffOvertaken(lane)
    && forall t :: 0 <= t < |laneOf| && !lane.pcs[t].Outside? && !lane.pcs[t].Skipped? ==>
         gate.pcs[t].Done? && laneOf[t] == Some(k)
  }

  /** Exclusion, order and wakeups, over every interleaving of gate and lanes;
      and only streams that passed the gate are ever in their lane. */
  lemma BridgeSafe(laneOf: seq<Option<nat>>, laneCount: nat, skipped: set<nat>, schedule: seq<nat>)
    requires LanesExist(laneOf, laneCount) && CanRun(Init(laneOf, laneCount, skipped), schedule)
    ensures var s := After(Init(laneOf, laneCount, skipped), schedule);
            && Gate.InSequence(s.gate) && Gate.NoLostWakeup(s.gate)
            && forall k :: 0 <= k < laneCount ==> LaneSafe(s.lanes[k], k, laneOf, s.gate)
  {
    InitFine(laneOf, laneCount, skipped);
    RunKeeps(Init(laneOf, laneCount, skipped), schedule);
    var s := After(Init(laneOf, laneCount, skipped), schedule);
    forall k | 0 <= k < laneCount
      ensures LaneSafe(s.lanes[k], k, laneOf, s.gate)
    {
      assert LaneFine(s.lanes[k], k, laneOf, s.gate);
    }
  }

  ghost predicate Stuck(s: State) {
    forall t :: !Enabled(s, t)
  }

  lemma StuckGate(s: State, t: nat)
    requires Invariant(s) && Stuck(s) && t < |s.laneOf|
    ensures s.gate.pcs[t].Done? <==> forall u :: 0 <= u <= t ==> u !in s.skipped
  {
    assert Gate.Stuck(s.gate) by {
      forall u
        ensures !Gate.Enabled(s.gate, u)
      {
        assert !Enabled(s, u);
      }
    }
    Gate.StuckAtSkipped(s.gate);
    if s.gate.pcs[t].Done? {
      assert forall u :: 0 <= u <= t ==> s.gate.pcs[u].Done?;
    } else {
      assert s.gate.pcs[s.gate.next - 1].Skipped?;
    }
  }

  lemma StuckLane(s: State, k: nat, t: nat)
    requires Invariant(s) && Stuck(s) && t < |s.laneOf| && s.laneOf[t] == Some(k)
    ensures |s.lanes[k].pcs| == |s.laneOf| && (s.lanes[k].pcs[t].Done? <==> s.gate.pcs[t].Done?)
  {
    var lane := s.lanes[k];
    assert LaneFine(lane, k, s.laneOf, s.gate);
    forall u: nat | Lane.Enabled(lane, u)
      ensures lane.pcs[u].Outside?
    {
      assert !Enabled(s, u);
    }
    Lane.QuietServed(lane);
    assert !Enabled(s, t);
  }

  /** No deadlock of the two locks beyond the gate's own: a run that can go no
      further has taken a stream through the gate, and through its lane if it
      has one, exactly when neither it nor a smaller sequence was refused
      before the gate. */
  lemma BridgeServesIff(laneOf: seq<Option<nat>>, laneCount: nat, skipped: set<nat>, schedule: seq<nat>, t: nat)
    requires LanesExist(laneOf, laneCount) && CanRun(Init(laneOf, laneCount, skipped), schedule) && t < |laneOf|
    requires Stuck(After(Init(laneOf, laneCount, skipped), schedule))
    ensures var s := After(Init(laneOf, laneCount, skipped), schedule);
            && |s.gate.pcs| == |laneOf|
            && (s.gate.pcs[t].Done? <==> forall u :: 0 <= u <= t ==> u !in skipped)
            && (laneOf[t].Some? ==>
                  && |s.lanes[laneOf[t].value].pcs| == |laneOf|
                  && (s.lanes[laneOf[t].value].pcs[t].Done? <==> forall u :: 0 <= u <= t ==> u !in skipped))
  {
    InitFine(laneOf, laneCount, skipped);
    RunKeeps(Init(laneOf, laneCount, skipped), schedule);
    var s := After(Init(laneOf, laneCount, skipped), schedule);
    StuckGate(s, t);
    if laneOf[t].Some? {
      StuckLane(s, laneOf[t].value, t);
    }
  }

  // Termination.

  function LaneWork(lanes: seq<Lane.State>): nat {
    if lanes == [] then 0 else Measure(lanes[0].pcs, lanes[0].generation) + LaneWork(lanes[1..])
  }

  function Work(s: State): nat {
    Measure(s.gate.pcs, s.gate.generation) + LaneWork(s.lanes)
  }

  lemma {:induction false} LaneWorkUpdate(lanes: seq<Lane.State>, k: nat, lane: Lane.State)
    requires k < |lanes|
    ensures LaneWork(lanes[k := lane]) + Measure(lanes[k].pcs, lanes[k].generation) ==
            LaneWork(lanes) + Measure(lane.pcs, lane.generation)
  {
    if k == 0 {
      assert lanes[k := lane][1..] == lanes[1..];
    } else {
      assert lanes[k := lane][1..] == lanes[1..][k - 1 := lane];
      LaneWorkUpdate(lanes[1..], k - 1, lane);
    }
  }

  lemma {:induction false} LaneWorkBound(lanes: seq<Lane.State>, count: nat)
    requires forall k :: 0 <= k < |lanes| ==> |lanes[k].pcs| == count
    ensures LaneWork(lanes) <= |lanes| * RunBound(count)
  {
    if lanes != [] {
      LaneWorkBound(lanes[1..], count);
      MeasureBound(lanes[0].pcs, lanes[0].generation);
      Unroll(|lanes|, RunBound(count));
    }
  }

  lemma Unroll(n: nat, unit: nat)
    requires n > 0
    ensures n * unit == unit + (n - 1) * unit
  {
  }

  lemma StepLowers(s: State, t: nat)
    requires Invariant(s) && Enabled(s, t)
    ensures Work(Step(s, t)) < Work(s)
  {
    if s.gate.pcs[t].Done? {
      var k := s.laneOf[t].value;
      assert LaneFine(s.lanes[k], k, s.laneOf, s.gate);
      Lane.StepLowers(s.lanes[k], t);
      LaneWorkUpdate(s.lanes, k, Lane.Step(s.lanes[k], t));
    } else {
      Gate.StepLowers(s.gate, t);
    }
  }

  lemma {:induction false} RunLowers(s: State, schedule: seq<nat>)
    requires Invariant(s) && CanRun(s, schedule)
    ensures |schedule| + Work(After(s, schedule)) <= Work(s)
    decreases |schedule|
  {
    if schedule != [] {
      StepLowers(s, schedule[0]);
      StepKeeps(s, schedule[0]);
      RunLowers(Step(s, schedule[0]), schedule[1..]);
    }
  }

  /** Every run of the whole admission path ends. */
  lemma BridgeRunsEnd(laneOf: seq<Option<nat>>, laneCount: nat, skipped: set<nat>, schedule: seq<nat>)
    requires LanesExist(laneOf, laneCount) && CanRun(Init(laneOf, laneCount, skipped), schedule)
    ensures |schedule| <= (laneCount + 1) * RunBound(|laneOf|)
  {
    var s, n := Init(laneOf, laneCount, skipped), |laneOf|;
    InitFine(laneOf, laneCount, skipped);
    RunLowers(s, schedule);
    LaneWorkBound(s.lanes, n);
    MeasureBound(s.gate.pcs, s.gate.generation);
    Unroll(laneCount + 1, RunBound(n));
  }

  // The gate's order is not the lane's order.

  lemma {:induction false} Extend(s: State, schedule: seq<nat>, t: nat)
    requires CanRun(s, schedule) && Enabled(After(s, schedule), t)
    ensures CanRun(s, schedule + [t]) && After(s, schedule + [t]) == Step(After(s, schedule), t)
    decreases |schedule|
  {
    if schedule == [] {
      assert schedule + [t] == [t] && [t][1..] == [];
    } else {
      assert (schedule + [t])[1..] == schedule[1..] + [t];
      Extend(Step(s, schedule[0]), schedule[1..], t);
    }
  }

  ghost predicate Reachable(from: State, to: State) {
    exists schedule :: CanRun(from, schedule) && After(from, schedule) == to
  }

  lemma Reach(from: State, to: State, t: nat, next: State)
    requires Reachable(from, to) && Enabled(to, t) && Step(to, t) == next
    ensures Reachable(from, next)
  {
    var schedule :| CanRun(from, schedule) && After(from, schedule) == to;
    Extend(from, schedule, t);
  }

  function FreshLane(): Lane.State {
    Lane.State([1, 2], [Outside, Outside], false, {}, 0, [], [], false)
  }

  /** Two streams, one lane. */
  function Both(): seq<Option<nat>> {
    [Some(0), Some(0)]
  }

  function AtGate(gate: Gate.State): State {
    State(gate, [FreshLane()], Both(), {})
  }

  function AtLane(pcs: seq<Pc>, busy: bool, waiting: set<nat>, grants: seq<nat>): Lane.State {
    Lane.State([1, 2], pcs, busy, waiting, 0, [2], grants, false)
  }

  lemma GateMove(from: State, gate: Gate.State, t: nat, next: Gate.State)
    requires Reachable(from, AtGate(gate)) && t < |gate.pcs| == 2 && !gate.pcs[t].Done?
    requires Gate.Enabled(gate, t) && Gate.Step(gate, t) == next
    ensures Reachable(from, AtGate(next))
  {
    Reach(from, AtGate(gate), t, AtGate(next));
  }

  lemma LaneMove(from: State, gate: Gate.State, lane: Lane.State, next: Lane.State)
    requires gate.pcs == [Done, Done] && Reachable(from, State(gate, [lane], Both(), {}))
    requires Lane.Enabled(lane, 1) && Lane.Step(lane, 1) == next
    ensures Reachable(from, State(gate, [next], Both(), {}))
  {
    assert [lane][0 := next] == [next];
    Reach(from, State(gate, [lane], Both(), {}), 1, State(gate, [next], Both(), {}));
  }

  lemma FirstPassesTheGate(from: State)
    requires Reachable(from, AtGate(Gate.State([Outside, Outside], false, 1, 0, [])))
    ensures Reachable(from, AtGate(Gate.State([Done, Outside], false, 2, 1, [1])))
  {
    var o, a := Gate.State([Outside, Outside], false, 1, 0, []), Gate.State([Top, Outside], false, 1, 0, []);
    var b, c := Gate.State([Armed(0), Outside], false, 1, 0, []), Gate.State([Holding, Outside], true, 1, 0, [1]);
    var d, e := Gate.State([Releasing, Outside], false, 2, 0, [1]), Gate.State([Done, Outside], false, 2, 1, [1]);
    GateMove(from, o, 0, a);
    GateMove(from, a, 0, b);
    GateMove(from, b, 0, c);
    GateMove(from, c, 0, d);
    GateMove(from, d, 0, e);
  }

  lemma SecondTakesTheGate(from: State)
    requires Reachable(from, AtGate(Gate.State([Done, Outside], false, 2, 1, [1])))
    ensures Reachable(from, AtGate(Gate.State([Done, Holding], true, 2, 1, [1, 2])))
  {
    var e, f := Gate.State([Done, Outside], false, 2, 1, [1]), Gate.State([Done, Top], false, 2, 1, [1]);
    var g, h := Gate.State([Done, Armed(1)], false, 2, 1, [1]), Gate.State([Done, Holding], true, 2, 1, [1, 2]);
    GateMove(from, e, 1, f);
    GateMove(from, f, 1, g);
    GateMove(from, g, 1, h);
  }

  lemma SecondLeavesTheGate(from: State)
    requires Reachable(from, AtGate(Gate.State([Done, Holding], true, 2, 1, [1, 2])))
    ensures Reachable(from, AtGate(Gate.State([Done, Done], false, 3, 2, [1, 2])))
  {
    var h, i := Gate.State([Done, Holding], true, 2, 1, [1, 2]), Gate.State([Done, Releasing], false, 3, 1, [1, 2]);
    GateMove(from, h, 1, i);
    GateMove(from, i, 1, Gate.State([Done, Done], false, 3, 2, [1, 2]));
  }

  lemma SecondTakesTheLane(from: State, gate: Gate.State)
    requires gate.pcs == [Done, Done] && Reachable(from, AtGate(gate))
    ensures Reachable(from, State(gate, [AtLane([Outside, Holding], true, {}, [2])], Both(), {}))
  {
    var a, b := AtLane([Outside, Top], false, {2}, []), AtLane([Outside, Armed(0)], false, {2}, []);
    var c := AtLane([Outside, Holding], true, {}, [2]);
    assert {} + {2} == {2} && {2} - {2} == {};
    assert Lane.Step(FreshLane(), 1) == a;
    LaneMove(from, gate, FreshLane(), a);
    assert Lane.Step(a, 1) == b;
    LaneMove(from, gate, a, b);
    assert Lane.Step(b, 1) == c;
    LaneMove(from, gate, b, c);
  }

  /** The second of two streams may be let into the lane before the first,
      although it passed the gate after it. */
  lemma GateOrderIsNotLaneOrder()
    ensures exists schedule :: CanRun(Init(Both(), 1, {}), schedule) &&
              var s := After(Init(Both(), 1, {}), schedule); s.gate.grants == [1, 2] && s.lanes[0].grants == [2]
  {
    var s := Init(Both(), 1, {});
    assert Elsewhere(Both(), 0) == {} && Numbers(2) == [1, 2];
    assert s.gate.pcs == [Outside, Outside] && s.lanes[0].pcs == [Outside, Outside];
    assert s.lanes == [FreshLane()];
    assert CanRun(s, []) && After(s, []) == s;
    FirstPassesTheGate(s);
    SecondTakesTheGate(s);
    SecondLeavesTheGate(s);
    SecondTakesTheLane(s, Gate.State([Done, Done], false, 3, 2, [1, 2]));
  }
}
