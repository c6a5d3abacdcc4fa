/** What the two admission locks of the H2 bridge share (tools/transport_bridge/src/main.rs):
    where a task stands in `acquire` and `release`, and a measure of the work
    left. A `Notified` created at notification count `g` completes as soon as
    the count differs from `g`. */
module Tasks {
  datatype Pc =
    | Outside          // accepted, not in `acquire` yet
    | Top              // at the top of the retry loop
    | Armed(g: nat)    // holds a `Notified`, has not looked at the state yet
    | Parked(g: nat)   // awaits that `Notified`
    | Holding          // owns the guard
    | Releasing        // cleared `busy`, has not notified yet
    | Done
    | Skipped          // will never call `acquire`
  {
    predicate Finished() { Done? || Skipped? }

    predicate Trying() { Top? || Armed? || Parked? }

    predicate Enabled(generation: nat) {
      if Parked? then g != generation else !Finished()
    }

    predicate Noted(generation: nat) {
      Armed? || Parked? ==> g <= generation
    }
  }

  ghost predicate SomeReleasing(pcs: seq<Pc>) {
    exists t :: 0 <= t < |pcs| && pcs[t].Releasing?
  }

  // A measure that every step lowers.

  function Weight(pc: Pc, generation: nat): (w: nat)
    ensures w <= 5
  {
    match pc
    case Outside => 4
    case Top => 3
    case Armed(g) => if g == generation then 2 else 5
    case Parked(g) => if g == generation then 0 else 4
    case Holding => 1
    case _ => 0
  }

  function Weights(pcs: seq<Pc>, generation: nat): (w: nat)
    ensures w <= 5 * |pcs|
  {
    if pcs == [] then 0 else Weight(pcs[0], generation) + Weights(pcs[1..], generation)
  }

  function Unfinished(pcs: seq<Pc>): (n: nat)
    ensures n <= |pcs|
  {
    if pcs == [] then 0 else (if pcs[0].Finished() then 0 else 1) + Unfinished(pcs[1..])
  }

  /** Notifications still to come first, then the weights. */
  function Measure(pcs: seq<Pc>, generation: nat): nat {
    Unfinished(pcs) * (5 * |pcs| + 1) + Weights(pcs, generation)
  }

  lemma Scale(a: nat, b: nat, unit: nat)
    requires a <= b
    ensures a * unit <= b * unit
  {
  }

  function RunBound(count: nat): nat {
    count * (5 * count + 1) + 5 * count
  }

  lemma MeasureBound(pcs: seq<Pc>, generation: nat)
    ensures Measure(pcs, generation) <= RunBound(|pcs|)
  {
    Scale(Unfinished(pcs), |pcs|, 5 * |pcs| + 1);
  }

  lemma {:induction false} WeightsUpdate(pcs: seq<Pc>, generation: nat, t: nat, pc: Pc)
    requires t < |pcs|
    ensures Weights(pcs[t := pc], generation) ==
            Weights(pcs, generation) - Weight(pcs[t], generation) + Weight(pc, generation)
  {
    if t == 0 {
      assert pcs[t := pc][1..] == pcs[1..];
    } else {
      assert pcs[t := pc][1..] == pcs[1..][t - 1 := pc];
      WeightsUpdate(pcs[1..], generation, t - 1, pc);
    }
  }

  lemma {:induction false} UnfinishedUpdate(pcs: seq<Pc>, t: nat, pc: Pc)
    requires t < |pcs|
    ensures Unfinished(pcs[t := pc]) ==
            Unfinished(pcs) - (if pcs[t].Finished() then 0 else 1) + (if pc.Finished() then 0 else 1)
  {
    if t == 0 {
      assert pcs[t := pc][1..] == pcs[1..];
    } else {
      assert pcs[t := pc][1..] == pcs[1..][t - 1 := pc];
      UnfinishedUpdate(pcs[1..], t - 1, pc);
    }
  }

  /** A step that leaves the notification count alone lowers the measure when
      it lowers the task's own weight. */
  lemma QuietStep(pcs: seq<Pc>, generation: nat, t: nat, pc: Pc)
    requires t < |pcs| && !pcs[t].Finished() && !pc.Finished()
    requires Weight(pc, generation) < Weight(pcs[t], generation)
    ensures Measure(pcs[t := pc], generation) < Measure(pcs, generation)
  {
    WeightsUpdate(pcs, generation, t, pc);
    UnfinishedUpdate(pcs, t, pc);
  }

  /** The notifying step lowers it whatever it does to the others' weights. */
  lemma NotifyStep(pcs: seq<Pc>, generation: nat, t: nat)
    requires t < |pcs| && pcs[t].Releasing?
    ensures Measure(pcs[t := Done], generation + 1) < Measure(pcs, generation)
  {
    UnfinishedUpdate(pcs, t, Done);
    var u, unit := Unfinished(pcs), 5 * |pcs| + 1;
    assert u * unit == (u - 1) * unit + unit;
  }
}
