/** Concurrency domains (src/core/document.zig): which ancestor of a node is
    the root of the domain its mutations are serialised in. */
module Domains {
  import opened Basics
  import opened Forests
  import opened DocumentState
  import opened Traversal

  datatype EnabledKinds = EnabledKinds(horizontal: bool, vertical: bool)

  predicate Enabled(slots: Slots, id: NodeId, on: EnabledKinds) {
    Live(slots, id) &&
    match Find(slots, id).value.kind
    case HContainer => on.horizontal
    case VContainer => on.vertical
    case _ => false
  }

  /** `x` starts a domain: its parent is the root or an enabled container. */
  predicate StartsDomain(slots: Slots, root: NodeId, on: EnabledKinds, x: NodeId) {
    Parent(slots, x).Some? && (Parent(slots, x).value == root || Enabled(slots, Parent(slots, x).value, on))
  }

  /** The upward loop of `concurrentContainerDomainRoot`. */
  ghost function DomainRoot(slots: Slots, root: NodeId, on: EnabledKinds, x: NodeId): (r: NodeId)
    requires TreeShaped(slots, root) && Live(slots, x) && x != root
    ensures Live(slots, r) && r != root
    decreases Climb(slots, root, x)
  {
    ClimbsDown(slots, root, x);
    if StartsDomain(slots, root, on, x) then x else DomainRoot(slots, root, on, Parent(slots, x).value)
  }

  ghost function Climb(slots: Slots, root: NodeId, x: NodeId): nat
    requires TreeShaped(slots, root) && Live(slots, x)
  {
    assert Within(slots, root, x);
    Depth(slots, root, x)
  }

  lemma ClimbsDown(slots: Slots, root: NodeId, x: NodeId)
    requires TreeShaped(slots, root) && Live(slots, x) && x != root
    ensures Parent(slots, x).Some? && Live(slots, Parent(slots, x).value)
    ensures Climb(slots, root, Parent(slots, x).value) < Climb(slots, root, x)
  {
    assert LinkedUp(slots, root, x);
    var p := Parent(slots, x).value;
    assert Within(slots, root, p);
    DepthStep(slots, root, p, x);
  }

  /** The first-layer island of a node: `firstLayerAncestor`. */
  ghost function Island(slots: Slots, root: NodeId, x: NodeId): NodeId
    requires TreeShaped(slots, root) && Live(slots, x) && x != root
  {
    DomainRoot(slots, root, EnabledKinds(false, false), x)
  }

  /** The domain root is the nearest ancestor-or-self that starts a domain. */
  lemma {:induction false} DomainRootNearest(slots: Slots, root: NodeId, on: EnabledKinds, x: NodeId)
    requires TreeShaped(slots, root) && Live(slots, x) && x != root
    ensures var r := DomainRoot(slots, root, on, x);
            && Within(slots, r, x) && StartsDomain(slots, root, on, r)
            && forall y :: Within(slots, r, y) && Within(slots, y, x) && StartsDomain(slots, root, on, y) ==> y == r
    decreases Climb(slots, root, x)
  {
    ClimbsDown(slots, root, x);
    WithinSelf(slots, x);
    var r := DomainRoot(slots, root, on, x);
    if StartsDomain(slots, root, on, x) {
      forall y | Within(slots, x, y) && Within(slots, y, x)
        ensures y == x
      {
        MutuallyWithin(slots, root, x, y);
      }
    } else {
      var p := Parent(slots, x).value;
      DomainRootNearest(slots, root, on, p);
      WithinStep(slots, p, x);
      WithinTransitive(slots, r, p, x);
      forall y | Within(slots, r, y) && Within(slots, y, x) && StartsDomain(slots, root, on, y)
        ensures y == r
      {
        WithinParent(slots, y, x);
      }
    }
  }

  lemma MutuallyWithin(slots: Slots, root: NodeId, x: NodeId, y: NodeId)
    requires TreeShaped(slots, root) && Live(slots, x) && Within(slots, x, y) && Within(slots, y, x)
    ensures x == y
  {
    DepthGrows(slots, root, x, y);
    DepthGrows(slots, root, y, x);
  }

  /** It is its own domain root and lies in the node's own island. */
  lemma {:induction false} DomainRootStable(slots: Slots, root: NodeId, on: EnabledKinds, x: NodeId)
    requires TreeShaped(slots, root) && Live(slots, x) && x != root
    ensures var r := DomainRoot(slots, root, on, x);
            && DomainRoot(slots, root, on, r) == r
            && Island(slots, root, r) == Island(slots, root, x)
    decreases Climb(slots, root, x)
  {
    ClimbsDown(slots, root, x);
    if !StartsDomain(slots, root, on, x) {
      DomainRootStable(slots, root, on, Parent(slots, x).value);
    }
  }

  /** What the downward search of `subtreeContainsEnabledContainerKinds` decides. */
  ghost predicate HasEnabledBelow(slots: Slots, on: EnabledKinds, id: NodeId) {
    exists x :: Within(slots, id, x) && Enabled(slots, x, on)
  }

  /** How many nodes are still to be searched below a list of nodes. */
  ghost function Remaining(slots: Slots, root: NodeId, ids: seq<NodeId>): nat
    requires TreeShaped(slots, root)
  {
    if ids == [] then 0
    else
      var last := ids[|ids| - 1];
      Remaining(slots, root, ids[..|ids| - 1])
      + if Live(slots, last) then |Pre(Subtree(slots, root, last))| else 0
  }

  lemma {:induction false} RemainingOfForest(slots: Slots, root: NodeId, ids: seq<NodeId>, f: Forest)
    requires TreeShaped(slots, root) && Shape(slots, ids, f)
    ensures Remaining(slots, root, ids) == |Pre(f)|
    decreases |ids|
  {
    if ids != [] {
      var front, last := ids[..|ids| - 1], ids[|ids| - 1];
      assert ids == front + [last];
      var g, h := ShapeSplit(slots, front, [last], f);
      RemainingOfForest(slots, root, front, g);
      assert Live(slots, last);
      ShapeUnique(slots, [last], h, Subtree(slots, root, last));
      PreAppend(g, h);
    }
  }

  lemma {:induction false} RemainingConcat(slots: Slots, root: NodeId, a: seq<NodeId>, b: seq<NodeId>)
    requires TreeShaped(slots, root)
    ensures Remaining(slots, root, a + b) == Remaining(slots, root, a) + Remaining(slots, root, b)
    decreases |b|
  {
    if b == [] {
      assert a + b == a;
    } else {
      assert (a + b)[..|a + b| - 1] == a + b[..|b| - 1];
      RemainingConcat(slots, root, a, b[..|b| - 1]);
    }
  }

  /** Replacing a node by its children leaves one node fewer to search. */
  lemma ReplacedByChildren(slots: Slots, root: NodeId, below: seq<NodeId>, id: NodeId)
    requires TreeShaped(slots, root) && Live(slots, id)
    ensures Remaining(slots, root, below + Kids(slots, id)) < Remaining(slots, root, below + [id])
  {
    var f := Subtree(slots, root, id);
    assert [id][1..] == [];
    RemainingOfForest(slots, root, Kids(slots, id), f.kids);
    RemainingOfForest(slots, root, [id], f);
    RemainingConcat(slots, root, below, Kids(slots, id));
    RemainingConcat(slots, root, below, [id]);
  }

  /** The search's invariant: listed nodes lie below `id` and are not enabled;
      every enabled node below `id` lies below a listed one. */
  ghost predicate Searching(slots: Slots, on: EnabledKinds, id: NodeId, stack: seq<NodeId>) {
    && (forall x :: x in stack ==> Within(slots, id, x) && Live(slots, x) && !Enabled(slots, x, on))
    && (forall x :: Within(slots, id, x) && Enabled(slots, x, on) ==> exists s :: s in stack && Within(slots, s, x))
  }

  lemma SearchStep(slots: Slots, root: NodeId, on: EnabledKinds, id: NodeId, below: seq<NodeId>, current: NodeId)
    requires TreeShaped(slots, root) && Searching(slots, on, id, below + [current])
    requires forall c :: c in Kids(slots, current) ==> !Enabled(slots, c, on)
    ensures Searching(slots, on, id, below + Kids(slots, current))
  {
    var stack, next := below + [current], below + Kids(slots, current);
    assert current in stack && LinkedDown(slots, current);
    forall x | x in next
      ensures Within(slots, id, x) && Live(slots, x) && !Enabled(slots, x, on)
    {
      if x in below {
        assert x in stack;
      } else {
        WithinStep(slots, current, x);
        WithinTransitive(slots, id, current, x);
      }
    }
    forall x | Within(slots, id, x) && Enabled(slots, x, on)
      ensures exists s :: s in next && Within(slots, s, x)
    {
      var s :| s in stack && Within(slots, s, x);
      if s in below {
        assert s in next;
      } else {
        WithinSomeChild(slots, root, current, x);
        var c :| c in Kids(slots, current) && Within(slots, c, x);
        assert c in next;
      }
    }
  }

  lemma {:induction false} NoEnabledOneDomain(slots: Slots, root: NodeId, on: EnabledKinds, id: NodeId, x: NodeId)
    requires TreeShaped(slots, root) && Live(slots, id) && id != root && Within(slots, id, x)
    requires forall y :: Within(slots, id, y) && Kids(slots, y) != [] ==> !Enabled(slots, y, on)
    ensures Live(slots, x) && x != root
    ensures DomainRoot(slots, root, on, x) == DomainRoot(slots, root, on, id)
    decreases if Live(slots, x) then Climb(slots, root, x) else 0
  {
    DepthGrows(slots, root, id, x);
    BelowNonRoot(slots, root, id, x);
    if x != id {
      ClimbsDown(slots, root, x);
      WithinParent(slots, id, x);
      var p := Parent(slots, x).value;
      NoEnabledOneDomain(slots, root, on, id, p);
      assert LinkedUp(slots, root, x);
    }
  }

  lemma BelowNonRoot(slots: Slots, root: NodeId, id: NodeId, x: NodeId)
    requires TreeShaped(slots, root) && id != root && Within(slots, id, x)
    ensures x != root
  {
    WithinParent(slots, id, x);
  }

  /** One domain below `id`, exactly when no enabled container below it has a
      child: the search's "no" therefore guarantees it. */
  lemma OneDomainIff(slots: Slots, root: NodeId, on: EnabledKinds, id: NodeId)
    requires TreeShaped(slots, root) && Live(slots, id) && id != root
    ensures (forall x :: Within(slots, id, x) ==>
               Live(slots, x) && x != root && DomainRoot(slots, root, on, x) == DomainRoot(slots, root, on, id))
            <==> (forall y :: Within(slots, id, y) && Kids(slots, y) != [] ==> !Enabled(slots, y, on))
    ensures !HasEnabledBelow(slots, on, id) ==>
              forall y :: Within(slots, id, y) && Kids(slots, y) != [] ==> !Enabled(slots, y, on)
  {
    if y :| Within(slots, id, y) && Kids(slots, y) != [] && Enabled(slots, y, on) {
      var c := Kids(slots, y)[0];
      assert c in Kids(slots, y);
      assert LinkedDown(slots, y);
      WithinStep(slots, y, c);
      WithinTransitive(slots, id, y, c);
      BelowNonRoot(slots, root, id, c);
      DomainRootNearest(slots, root, on, id);
      ChildNotAbove(slots, root, on, id, y, c);
    } else {
      forall x | Within(slots, id, x)
        ensures Live(slots, x) && x != root && DomainRoot(slots, root, on, x) == DomainRoot(slots, root, on, id)
      {
        NoEnabledOneDomain(slots, root, on, id, x);
      }
    }
  }

  lemma ChildNotAbove(slots: Slots, root: NodeId, on: EnabledKinds, id: NodeId, y: NodeId, c: NodeId)
    requires TreeShaped(slots, root) && Live(slots, id) && id != root && Live(slots, c) && c != root
    requires Within(slots, id, y) && Enabled(slots, y, on) && Parent(slots, c) == Some(y)
    ensures DomainRoot(slots, root, on, c) == c && DomainRoot(slots, root, on, id) != c
  {
    assert StartsDomain(slots, root, on, c);
    DomainRootNearest(slots, root, on, id);
    var r := DomainRoot(slots, root, on, id);
    DepthGrows(slots, root, r, id);
    DepthGrows(slots, root, id, y);
    assert Within(slots, root, y);
    DepthStep(slots, root, y, c);
  }

  /** Enabling more kinds only splits domains: the finer root lies at or below
      the coarser one, so in particular inside the node's island. */
  lemma {:induction false} MoreKindsFinerDomains(slots: Slots, root: NodeId, few: EnabledKinds, more: EnabledKinds,
                                                 x: NodeId)
    requires TreeShaped(slots, root) && Live(slots, x) && x != root
    requires few.horizontal ==> more.horizontal
    requires few.vertical ==> more.vertical
    ensures Within(slots, DomainRoot(slots, root, few, x), DomainRoot(slots, root, more, x))
    decreases Climb(slots, root, x)
  {
    ClimbsDown(slots, root, x);
    DomainRootNearest(slots, root, few, x);
    if !StartsDomain(slots, root, more, x) {
      MoreKindsFinerDomains(slots, root, few, more, Parent(slots, x).value);
    }
  }

  /** By kind: a node below the first layer starts a domain exactly when its
      parent is a horizontal container and those are enabled, or a vertical one
      and those are. */
  lemma DomainStartsByKind(slots: Slots, root: NodeId, on: EnabledKinds, x: NodeId)
    requires TreeShaped(slots, root) && Live(slots, x) && x != root
    ensures Parent(slots, x).Some? && Live(slots, Parent(slots, x).value)
    ensures var p := Parent(slots, x).value;
            var kind := Find(slots, p).value.kind;
            DomainRoot(slots, root, on, x) == x <==>
            p == root || (kind == HContainer && on.horizontal) || (kind == VContainer && on.vertical)
  {
    ClimbsDown(slots, root, x);
    DomainRootNearest(slots, root, on, x);
  }

  /** The search's answer by kind. */
  lemma EnabledBelowByKind(slots: Slots, on: EnabledKinds, id: NodeId)
    ensures HasEnabledBelow(slots, on, id) <==>
            exists x :: Within(slots, id, x) && Live(slots, x) &&
                        ((Find(slots, x).value.kind == HContainer && on.horizontal) ||
                         (Find(slots, x).value.kind == VContainer && on.vertical))
  {
    if x :| Within(slots, id, x) && Live(slots, x) && ((Find(slots, x).value.kind == HContainer && on.horizontal) ||
                                                      (Find(slots, x).value.kind == VContainer && on.vertical)) {
      assert Enabled(slots, x, on);
    }
  }
}
