/** The recursive traversals of a document's tree, and what they visit. */
module Traversal {
  import opened Basics
  import opened Forests
  import opened DocumentState

  /** `f` is what the child lists unfold to below the listed ids. */
  ghost predicate Shape(slots: Slots, ids: seq<NodeId>, f: Forest)
    decreases f
  {
    match f
    case Nil => ids == []
    case Cons(id, kids, rest) =>
      && ids != [] && ids[0] == id && Live(slots, id)
      && Shape(slots, Kids(slots, id), kids)
      && Shape(slots, ids[1..], rest)
  }

  lemma {:induction false} ShapeUnique(slots: Slots, ids: seq<NodeId>, f: Forest, g: Forest)
    requires Shape(slots, ids, f) && Shape(slots, ids, g)
    ensures f == g
    decreases f
  {
    if f.Cons? {
      ShapeUnique(slots, Kids(slots, f.id), f.kids, g.kids);
      ShapeUnique(slots, ids[1..], f.rest, g.rest);
    }
  }

  lemma {:induction false} ShapeAppend(slots: Slots, a: seq<NodeId>, f: Forest, b: seq<NodeId>, g: Forest)
    requires Shape(slots, a, f) && Shape(slots, b, g)
    ensures Shape(slots, a + b, Append(f, g))
    decreases f
  {
    if f.Nil? {
      assert a + b == b;
    } else {
      assert (a + b)[1..] == a[1..] + b;
      ShapeAppend(slots, a[1..], f.rest, b, g);
    }
  }

  lemma {:induction false} ShapeSplit(slots: Slots, a: seq<NodeId>, b: seq<NodeId>, h: Forest)
    returns (f: Forest, g: Forest)
    requires Shape(slots, a + b, h)
    ensures Shape(slots, a, f) && Shape(slots, b, g) && h == Append(f, g)
    decreases |a|
  {
    if a == [] {
      assert a + b == b;
      f, g := Nil, h;
    } else {
      assert (a + b)[1..] == a[1..] + b;
      f, g := ShapeSplit(slots, a[1..], b, h.rest);
      f := Cons(h.id, h.kids, f);
    }
  }

  /** The nodes listed are siblings-at-one-level of a tree-shaped table. */
  ghost predicate AtLevel(slots: Slots, root: NodeId, ids: seq<NodeId>, level: nat)
    requires TreeShaped(slots, root)
  {
    forall x :: x in ids ==> Live(slots, x) && Depth(slots, root, x) == level
  }

  lemma KidsAtLevel(slots: Slots, root: NodeId, id: NodeId)
    requires TreeShaped(slots, root) && Live(slots, id)
    ensures AtLevel(slots, root, Kids(slots, id), Depth(slots, root, id) + 1)
    ensures NoDup(Kids(slots, id))
  {
    assert LinkedDown(slots, id);
    forall c | c in Kids(slots, id)
      ensures Live(slots, c) && Depth(slots, root, c) == Depth(slots, root, id) + 1
    {
      DepthStep(slots, root, id, c);
    }
  }

  /** Every tree-shaped table unfolds to a forest below any one level. */
  ghost function ForestAt(slots: Slots, root: NodeId, ids: seq<NodeId>, level: nat): (f: Forest)
    requires TreeShaped(slots, root) && AtLevel(slots, root, ids, level)
    ensures Shape(slots, ids, f)
    decreases if ids == [] then 0 else MaxDepth(slots, root, |slots|) + 1 - level, |ids|
  {
    if ids == [] then Nil
    else
      assert ids[0] in ids;
      KidsAtLevel(slots, root, ids[0]);
      Cons(ids[0],
           ForestAt(slots, root, Kids(slots, ids[0]), level + 1),
           ForestAt(slots, root, ids[1..], level))
  }

  /** The tree below and including one node. */
  ghost function Subtree(slots: Slots, root: NodeId, id: NodeId): (f: Forest)
    requires TreeShaped(slots, root) && Live(slots, id)
    ensures Shape(slots, [id], f)
  {
    ForestAt(slots, root, [id], Depth(slots, root, id))
  }

  lemma {:induction false} PreClosed(slots: Slots, ids: seq<NodeId>, f: Forest, y: NodeId, c: NodeId)
    requires Shape(slots, ids, f)
    requires y in Pre(f) && c in Kids(slots, y)
    ensures c in Pre(f)
    decreases f
  {
    if y == f.id {
      PreHasIds(slots, Kids(slots, y), f.kids);
    } else if y in Pre(f.kids) {
      PreClosed(slots, Kids(slots, f.id), f.kids, y, c);
    } else {
      PreClosed(slots, ids[1..], f.rest, y, c);
    }
  }

  lemma {:induction false} PreHasIds(slots: Slots, ids: seq<NodeId>, f: Forest)
    requires Shape(slots, ids, f)
    ensures forall x :: x in ids ==> x in Pre(f)
    ensures forall x :: x in Pre(f) ==> Live(slots, x)
    decreases f
  {
    if f.Cons? {
      PreHasIds(slots, Kids(slots, f.id), f.kids);
      PreHasIds(slots, ids[1..], f.rest);
    }
  }

  lemma {:induction false} PathInPre(slots: Slots, root: NodeId, ids: seq<NodeId>, f: Forest, p: seq<NodeId>)
    requires Linked(slots, root) && Shape(slots, ids, f)
    requires IsPath(slots, p) && p[0] in ids
    requires forall i :: 0 < i < |p| ==> p[i] != root
    ensures p[|p| - 1] in Pre(f)
    decreases |p|
  {
    if |p| == 1 {
      PreHasIds(slots, ids, f);
    } else {
      var y, c := p[|p| - 2], p[|p| - 1];
      PathInPre(slots, root, ids, f, p[..|p| - 1]);
      assert LinkedUp(slots, root, c) && Parent(slots, c) == Some(y);
      PreClosed(slots, ids, f, y, c);
    }
  }

  lemma {:induction false} PreIsBelow(slots: Slots, root: NodeId, ids: seq<NodeId>, f: Forest, x: NodeId)
    requires Linked(slots, root) && Shape(slots, ids, f) && x in Pre(f)
    ensures exists a :: a in ids && Within(slots, a, x)
    decreases f
  {
    if x == f.id {
      assert ids[0] in ids;
      WithinSelf(slots, x);
    } else if x in Pre(f.kids) {
      PreIsBelow(slots, root, Kids(slots, f.id), f.kids, x);
      var c :| c in Kids(slots, f.id) && Within(slots, c, x);
      assert LinkedDown(slots, f.id);
      WithinStep(slots, f.id, c);
      WithinTransitive(slots, f.id, c, x);
      assert ids[0] in ids;
    } else {
      PreIsBelow(slots, root, ids[1..], f.rest, x);
      var a :| a in ids[1..] && Within(slots, a, x);
      assert a in ids;
    }
  }

  /** A proper descendant lies below one of the children. */
  lemma WithinSomeChild(slots: Slots, root: NodeId, top: NodeId, x: NodeId)
    requires Linked(slots, root) && Within(slots, top, x) && x != top
    ensures exists c :: c in Kids(slots, top) && Within(slots, c, x)
  {
    var p :| PathFromTo(slots, top, x, p);
    assert Parent(slots, p[1]) == Some(p[0]);
    assert LinkedUp(slots, root, p[1]);
    PathTail(slots, p, 1);
  }

  lemma SameLevelAncestor(slots: Slots, root: NodeId, a: NodeId, b: NodeId, x: NodeId)
    requires TreeShaped(slots, root) && Live(slots, a) && Live(slots, b)
    requires Depth(slots, root, a) == Depth(slots, root, b)
    requires Within(slots, a, x) && Within(slots, b, x)
    ensures a == b
  {
    var p :| PathFromTo(slots, a, x, p);
    var q :| PathFromTo(slots, b, x, q);
    DepthAlong(slots, root, a, x, p);
    DepthAlong(slots, root, b, x, q);
    SameLengthPaths(slots, p, q);
  }

  lemma DepthGrows(slots: Slots, root: NodeId, a: NodeId, x: NodeId)
    requires TreeShaped(slots, root) && Live(slots, a) && Within(slots, a, x)
    ensures Live(slots, x) && Depth(slots, root, a) <= Depth(slots, root, x)
    ensures x != a ==> Depth(slots, root, a) < Depth(slots, root, x)
  {
    var p :| PathFromTo(slots, a, x, p);
    DepthAlong(slots, root, a, x, p);
  }

  lemma {:induction false} PreNoDup(slots: Slots, root: NodeId, ids: seq<NodeId>, f: Forest, level: nat)
    requires TreeShaped(slots, root) && AtLevel(slots, root, ids, level) && NoDup(ids)
    requires Shape(slots, ids, f)
    ensures NoDup(Pre(f))
    decreases f
  {
    if f.Cons? {
      var id := f.id;
      assert id in ids;
      KidsAtLevel(slots, root, id);
      PreNoDup(slots, root, Kids(slots, id), f.kids, level + 1);
      PreNoDup(slots, root, ids[1..], f.rest, level);
      forall x | x in Pre(f.kids)
        ensures x != id && Within(slots, id, x)
      {
        PreIsBelow(slots, root, Kids(slots, id), f.kids, x);
        var c :| c in Kids(slots, id) && Within(slots, c, x);
        assert LinkedDown(slots, id);
        WithinStep(slots, id, c);
        WithinTransitive(slots, id, c, x);
        DepthGrows(slots, root, c, x);
      }
      WithinSelf(slots, id);
      forall x | x in Pre(f.rest)
        ensures !Within(slots, id, x)
      {
        PreIsBelow(slots, root, ids[1..], f.rest, x);
        var b :| b in ids[1..] && Within(slots, b, x);
        assert b in ids && b != id;
        if Within(slots, id, x) {
          SameLevelAncestor(slots, root, id, b, x);
          assert false;
        }
      }
      NoDupConcat([id], Pre(f.kids));
      NoDupConcat([id] + Pre(f.kids), Pre(f.rest));
    }
  }

  lemma PreIffWithin(slots: Slots, root: NodeId, id: NodeId, f: Forest, x: NodeId)
    requires Linked(slots, root) && Shape(slots, [id], f)
    ensures x in Pre(f) <==> Within(slots, id, x)
  {
    if x in Pre(f) {
      PreIsBelow(slots, root, [id], f, x);
    }
    if Within(slots, id, x) {
      var p :| PathFromTo(slots, id, x, p);
      forall i | 0 < i < |p|
        ensures p[i] != root
      {
        assert Parent(slots, p[i]) == Some(p[i - 1]);
      }
      PathInPre(slots, root, [id], f, p);
    }
  }

  /** The subtree's preorder lists the node and its descendants, once each. */
  lemma SubtreeTraversal(slots: Slots, root: NodeId, id: NodeId)
    requires TreeShaped(slots, root) && Live(slots, id)
    ensures var f := Subtree(slots, root, id);
            && NoDup(Pre(f)) && NoDup(Post(f))
            && (forall x :: x in Pre(f) <==> Within(slots, id, x))
            && (forall x :: x in Post(f) <==> Within(slots, id, x))
  {
    var f := Subtree(slots, root, id);
    PreNoDup(slots, root, [id], f, Depth(slots, root, id));
    forall x
      ensures x in Pre(f) <==> Within(slots, id, x)
    {
      PreIffWithin(slots, root, id, f, x);
    }
    PrePostPermutation(f);
    NoDupFromMultiset(Pre(f), Post(f));
  }

  /** The document's preorder lists exactly the live nodes, once each. */
  lemma DocumentTraversal(slots: Slots, root: NodeId)
    requires TreeShaped(slots, root)
    ensures var f := Subtree(slots, root, root);
            && NoDup(Pre(f))
            && (forall x :: x in Pre(f) <==> Live(slots, x))
            && multiset(Pre(f)) == multiset(LiveIds(slots))
            && |Pre(f)| == |LiveIds(slots)|
  {
    var f := Subtree(slots, root, root);
    SubtreeTraversal(slots, root, root);
    forall x
      ensures x in Pre(f) <==> Live(slots, x)
    {
      if Within(slots, root, x) {
        var p :| PathFromTo(slots, root, x, p);
      }
    }
    LiveIdsSound(slots);
    SameElementsSameMultiset(Pre(f), LiveIds(slots));
  }

  lemma PreOfOne(id: NodeId, kids: Forest)
    ensures Pre(Cons(id, kids, Nil)) == [id] + Pre(kids)
  {
  }

  lemma {:induction false} PreContains(slots: Slots, ids: seq<NodeId>, f: Forest, x: NodeId)
    returns (before: seq<NodeId>, g: Forest, after: seq<NodeId>)
    requires Shape(slots, ids, f) && x in Pre(f)
    ensures Shape(slots, [x], g) && Pre(f) == before + Pre(g) + after
    decreases f
  {
    var below, beside := Pre(f.kids), Pre(f.rest);
    if x == f.id {
      assert [x][1..] == [];
      before, g, after := [], Cons(x, f.kids, Nil), beside;
      PreOfOne(x, f.kids);
    } else if x in below {
      var b, a;
      b, g, a := PreContains(slots, Kids(slots, f.id), f.kids, x);
      before, after := [f.id] + b, a + beside;
      Regroup([f.id], b, Pre(g), a, beside);
    } else {
      var b, a;
      b, g, a := PreContains(slots, ids[1..], f.rest, x);
      before, after := [f.id] + below + b, a;
      Regroup([f.id] + below, b, Pre(g), a, []);
    }
  }

  lemma Regroup(a: seq<NodeId>, b: seq<NodeId>, c: seq<NodeId>, d: seq<NodeId>, e: seq<NodeId>)
    ensures a + (b + c + d) + e == (a + b) + c + (d + e)
    ensures a + (b + c + d) == (a + b) + c + d
  {
  }

  /** A subtree's preorder is a contiguous part of the document's. */
  lemma SubtreeContiguous(slots: Slots, root: NodeId, id: NodeId) returns (before: seq<NodeId>, after: seq<NodeId>)
    requires TreeShaped(slots, root) && Live(slots, id)
    ensures Pre(Subtree(slots, root, root)) == before + Pre(Subtree(slots, root, id)) + after
  {
    DocumentTraversal(slots, root);
    var g;
    before, g, after := PreContains(slots, [root], Subtree(slots, root, root), id);
    ShapeUnique(slots, [id], g, Subtree(slots, root, id));
  }

  /** Of two ancestors of one node, one is above the other. */
  lemma AncestorsComparable(slots: Slots, a: NodeId, b: NodeId, x: NodeId)
    requires Within(slots, a, x) && Within(slots, b, x)
    ensures Within(slots, a, b) || Within(slots, b, a)
  {
    var p :| PathFromTo(slots, a, x, p);
    var q :| PathFromTo(slots, b, x, q);
    if |p| <= |q| {
      LongerPathPasses(slots, p, q);
    } else {
      LongerPathPasses(slots, q, p);
    }
  }

  lemma LongerPathPasses(slots: Slots, p: seq<NodeId>, q: seq<NodeId>)
    requires IsPath(slots, p) && IsPath(slots, q) && |p| <= |q| && p[|p| - 1] == q[|q| - 1]
    ensures Within(slots, q[0], p[0])
  {
    var k := |q| - |p|;
    var tail, front := q[k..], q[..k + 1];
    forall i | 0 < i < |tail|
      ensures Parent(slots, tail[i]) == Some(tail[i - 1])
    {
      assert tail[i] == q[k + i] && tail[i - 1] == q[k + i - 1];
    }
    SameLengthPaths(slots, p, tail);
    assert PathFromTo(slots, q[0], p[0], front);
  }

  /** Each child occurs strictly before its parent. */
  ghost predicate ChildrenFirst(slots: Slots, order: seq<NodeId>) {
    forall i, c :: 0 <= i < |order| && c in Kids(slots, order[i]) ==> c in order[..i]
  }

  lemma ChildrenFirstConcat(slots: Slots, a: seq<NodeId>, b: seq<NodeId>)
    requires ChildrenFirst(slots, a) && ChildrenFirst(slots, b)
    ensures ChildrenFirst(slots, a + b)
  {
    var order := a + b;
    forall i, c | 0 <= i < |order| && c in Kids(slots, order[i])
      ensures c in order[..i]
    {
      if i < |a| {
        assert order[..i] == a[..i];
      } else {
        assert order[i] == b[i - |a|] && order[..i] == a + b[..i - |a|];
      }
    }
  }

  lemma ParentLast(slots: Slots, a: seq<NodeId>, id: NodeId)
    requires ChildrenFirst(slots, a) && forall c :: c in Kids(slots, id) ==> c in a
    ensures ChildrenFirst(slots, a + [id])
  {
    var order := a + [id];
    forall i, c | 0 <= i < |order| && c in Kids(slots, order[i])
      ensures c in order[..i]
    {
      assert order[..i] == a[..i];
    }
  }

  /** Postorder puts every descendant first. */
  lemma {:induction false} PostChildrenFirst(slots: Slots, ids: seq<NodeId>, f: Forest)
    requires Shape(slots, ids, f)
    ensures ChildrenFirst(slots, Post(f))
    decreases f
  {
    if f.Cons? {
      var kids := Kids(slots, f.id);
      PostChildrenFirst(slots, kids, f.kids);
      PostChildrenFirst(slots, ids[1..], f.rest);
      PreHasIds(slots, kids, f.kids);
      PrePostPermutation(f.kids);
      ParentLast(slots, Post(f.kids), f.id);
      ChildrenFirstConcat(slots, Post(f.kids) + [f.id], Post(f.rest));
    }
  }
}
