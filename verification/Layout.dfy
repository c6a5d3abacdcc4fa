/** What a projection emits (src/core/projection.zig, `writeProjectedNode`):
    containment, separation and order of the regions, and the drawing loops. */
module Layout {
  import opened Basics
  import opened Forests
  import opened DocumentState
  import opened Traversal
  import opened Projection

  predicate ProjectsChildren(kind: NodeKind) {
    kind in [Document, Subdocument, Container, HContainer, VContainer, ScrollRegion]
  }

  predicate Emits(d: DocState, id: NodeId)
    requires Live(d.slots, id)
  {
    var n := Find(d.slots, id).value;
    id in d.elided ||
    match n.kind
    case Container | HContainer | VContainer => false
    case Subdocument | ScrollRegion => !(|n.children| == 1 && n.content == "")
    case _ => true
  }

  function Inset(r: Rect): Rect
    requires r.WellPlaced()
  {
    Rect(r.x + (if r.width > 0 then 1 else 0), r.y + (if r.height > 0 then 1 else 0),
         if r.width > 2 then r.width - 2 else 0, if r.height > 2 then r.height - 2 else 0)
  }

  /** Where the children go. */
  function Inner(d: DocState, id: NodeId, rect: Rect): (r: Rect)
    requires Live(d.slots, id) && rect.WellPlaced()
    ensures r.WellPlaced() && Inside(r, rect)
  {
    if Emits(d, id) then Inset(rect) else rect
  }

  predicate Descends(d: DocState, id: NodeId, rect: Rect)
    requires Live(d.slots, id) && rect.WellPlaced()
  {
    && id !in d.elided && ProjectsChildren(Find(d.slots, id).value.kind) && Kids(d.slots, id) != []
    && Inner(d, id, rect).width != 0 && Inner(d, id, rect).height != 0
  }

  ghost predicate Placed(slots: Slots, ids: seq<NodeId>, f: Forest, rects: seq<Rect>, bound: Rect) {
    Shape(slots, ids, f) && |rects| == |ids| && Partition(rects, bound)
  }

  lemma PlacedParts(d: DocState, ids: seq<NodeId>, f: Forest, rects: seq<Rect>, bound: Rect)
    requires Placed(d.slots, ids, f, rects, bound) && f.Cons?
    ensures Live(d.slots, f.id) && rects[0].WellPlaced() && Inside(rects[0], bound)
    ensures Placed(d.slots, ids[1..], f.rest, rects[1..], bound)
    ensures forall j :: 0 <= j < |rects[1..]| ==> Apart(rects[0], rects[1..][j])
    ensures var inner := Inner(d, f.id, rects[0]);
            Placed(d.slots, Kids(d.slots, f.id), f.kids, ChildRects(d.slots, f.id, inner), inner)
  {
    assert forall j :: 0 <= j < |rects[1..]| ==> rects[1..][j] == rects[j + 1];
    ChildRectsPartition(d.slots, f.id, Inner(d, f.id, rects[0]));
  }

  /** The regions emitted for sibling trees laid out in the given rectangles,
      in the order they are written. */
  ghost function Project(d: DocState, ids: seq<NodeId>, f: Forest, rects: seq<Rect>, bound: Rect): seq<Region>
    requires Placed(d.slots, ids, f, rects, bound)
    decreases f
  {
    match f
    case Nil => []
    case Cons(id, kids, rest) =>
      PlacedParts(d, ids, f, rects, bound);
      var inner := Inner(d, id, rects[0]);
      (if Emits(d, id) then [Region(id, rects[0])] else [])
      + (if Descends(d, id, rects[0])
         then Project(d, Kids(d.slots, id), kids, ChildRects(d.slots, id, inner), inner) else [])
      + Project(d, ids[1..], rest, rects[1..], bound)
  }

  function RegionIds(regions: seq<Region>): (ids: seq<NodeId>)
    ensures |ids| == |regions| && forall i :: 0 <= i < |ids| ==> ids[i] == regions[i].id
  {
    seq(|regions|, i requires 0 <= i < |regions| => regions[i].id)
  }

  /** The first tree's regions. */
  ghost function HeadRegions(d: DocState, ids: seq<NodeId>, f: Forest, rects: seq<Rect>, bound: Rect): seq<Region>
    requires Placed(d.slots, ids, f, rects, bound) && f.Cons?
  {
    PlacedParts(d, ids, f, rects, bound);
    var inner := Inner(d, f.id, rects[0]);
    (if Emits(d, f.id) then [Region(f.id, rects[0])] else [])
    + (if Descends(d, f.id, rects[0])
       then Project(d, Kids(d.slots, f.id), f.kids, ChildRects(d.slots, f.id, inner), inner) else [])
  }

  lemma ProjectIsHeadThenRest(d: DocState, ids: seq<NodeId>, f: Forest, rects: seq<Rect>, bound: Rect)
    requires Placed(d.slots, ids, f, rects, bound) && f.Cons?
    ensures Placed(d.slots, ids[1..], f.rest, rects[1..], bound)
    ensures Project(d, ids, f, rects, bound) ==
            HeadRegions(d, ids, f, rects, bound) + Project(d, ids[1..], f.rest, rects[1..], bound)
  {
    PlacedParts(d, ids, f, rects, bound);
  }

  // Order.

  lemma IdsConcat(a: seq<Region>, b: seq<Region>)
    ensures RegionIds(a + b) == RegionIds(a) + RegionIds(b)
  {
  }

  /** The emitted ids are a subsequence of the preorder. */
  lemma {:induction false} ProjectSubsequence(d: DocState, ids: seq<NodeId>, f: Forest, rects: seq<Rect>, bound: Rect)
    requires Placed(d.slots, ids, f, rects, bound)
    ensures Subsequence(RegionIds(Project(d, ids, f, rects, bound)), Pre(f))
    decreases f
  {
    if f.Cons? {
      ProjectIsHeadThenRest(d, ids, f, rects, bound);
      HeadSubsequence(d, ids, f, rects, bound);
      ProjectSubsequence(d, ids[1..], f.rest, rects[1..], bound);
      var head, after := HeadRegions(d, ids, f, rects, bound), Project(d, ids[1..], f.rest, rects[1..], bound);
      IdsConcat(head, after);
      SubsequenceConcat(RegionIds(head), [f.id] + Pre(f.kids), RegionIds(after), Pre(f.rest));
    }
  }

  lemma HeadSubsequence(d: DocState, ids: seq<NodeId>, f: Forest, rects: seq<Rect>, bound: Rect)
    requires Placed(d.slots, ids, f, rects, bound) && f.Cons?
    ensures Subsequence(RegionIds(HeadRegions(d, ids, f, rects, bound)), [f.id] + Pre(f.kids))
    decreases f, 0
  {
    PlacedParts(d, ids, f, rects, bound);
    var id, inner := f.id, Inner(d, f.id, rects[0]);
    var own: seq<Region> := if Emits(d, id) then [Region(id, rects[0])] else [];
    var below: seq<Region> := [];
    if Descends(d, id, rects[0]) {
      below := Project(d, Kids(d.slots, id), f.kids, ChildRects(d.slots, id, inner), inner);
      ProjectSubsequence(d, Kids(d.slots, id), f.kids, ChildRects(d.slots, id, inner), inner);
    }
    IdsConcat(own, below);
    assert Subsequence(RegionIds(own), [id]) by {
      assert RegionIds(own) == [] || RegionIds(own) == [id];
      SubsequenceRefl([id]);
    }
    SubsequenceConcat(RegionIds(own), [id], RegionIds(below), Pre(f.kids));
  }

  // Geometry.

  /** How an earlier and a later region are related. */
  ghost predicate Related(slots: Slots, a: Region, b: Region)
    requires a.rect.WellPlaced()
  {
    && !Within(slots, b.id, a.id)
    && if Within(slots, a.id, b.id) then Inside(b.rect, Inset(a.rect)) else Apart(a.rect, b.rect)
  }

  ghost predicate LaidOut(slots: Slots, regions: seq<Region>, bound: Rect) {
    && (forall i :: 0 <= i < |regions| ==> regions[i].rect.WellPlaced() && Inside(regions[i].rect, bound))
    && (forall i, j :: 0 <= i < j < |regions| ==> Related(slots, regions[i], regions[j]))
  }

  lemma LaidOutConcat(slots: Slots, a: seq<Region>, b: seq<Region>, bound: Rect)
    requires LaidOut(slots, a, bound) && LaidOut(slots, b, bound)
    requires forall i, j :: 0 <= i < |a| && 0 <= j < |b| ==> Related(slots, a[i], b[j])
    ensures LaidOut(slots, a + b, bound)
  {
    var r := a + b;
    forall i, j | 0 <= i < j < |r|
      ensures Related(slots, r[i], r[j])
    {
      if j < |a| {
        assert r[i] == a[i] && r[j] == a[j];
      } else if i < |a| {
        assert r[i] == a[i] && r[j] == b[j - |a|];
      } else {
        assert r[i] == b[i - |a|] && r[j] == b[j - |a|];
      }
    }
  }

  lemma LaidOutWiden(slots: Slots, a: seq<Region>, inner: Rect, outer: Rect)
    requires LaidOut(slots, a, inner) && Inside(inner, outer)
    ensures LaidOut(slots, a, outer)
  {
  }

  /** Nodes of one tree and of a later sibling tree are unrelated. */
  lemma SeparateTrees(slots: Slots, root: NodeId, ids: seq<NodeId>, f: Forest, level: nat, x: NodeId, y: NodeId)
    requires TreeShaped(slots, root) && AtLevel(slots, root, ids, level) && NoDup(ids)
    requires Shape(slots, ids, f) && f.Cons?
    requires Within(slots, f.id, x) && y in Pre(f.rest)
    ensures !Within(slots, x, y) && !Within(slots, y, x)
  {
    PreIsBelow(slots, root, ids[1..], f.rest, y);
    var b :| b in ids[1..] && Within(slots, b, y);
    assert b in ids && f.id in ids && b != f.id;
    if Within(slots, x, y) {
      WithinTransitive(slots, f.id, x, y);
      SameLevelAncestor(slots, root, f.id, b, y);
      assert false;
    }
    if Within(slots, y, x) {
      WithinTransitive(slots, b, y, x);
      SameLevelAncestor(slots, root, f.id, b, x);
      assert false;
    }
  }

  lemma KidsAreBelow(slots: Slots, root: NodeId, id: NodeId, kids: Forest, x: NodeId)
    requires TreeShaped(slots, root) && Live(slots, id) && Shape(slots, Kids(slots, id), kids) && x in Pre(kids)
    ensures Within(slots, id, x) && !Within(slots, x, id) && x != id
  {
    PreIsBelow(slots, root, Kids(slots, id), kids, x);
    var c :| c in Kids(slots, id) && Within(slots, c, x);
    assert LinkedDown(slots, id);
    WithinStep(slots, id, c);
    WithinTransitive(slots, id, c, x);
    KidsAtLevel(slots, root, id);
    DepthGrows(slots, root, c, x);
    if Within(slots, x, id) {
      DepthGrows(slots, root, x, id);
      assert false;
    }
  }

  lemma EmittedIds(d: DocState, ids: seq<NodeId>, f: Forest, rects: seq<Rect>, bound: Rect)
    requires Placed(d.slots, ids, f, rects, bound)
    ensures forall i :: 0 <= i < |Project(d, ids, f, rects, bound)| ==> Project(d, ids, f, rects, bound)[i].id in Pre(f)
  {
    var regions := Project(d, ids, f, rects, bound);
    ProjectSubsequence(d, ids, f, rects, bound);
    SubsequenceElements(RegionIds(regions), Pre(f));
    assert forall i :: 0 <= i < |regions| ==> RegionIds(regions)[i] in RegionIds(regions);
  }

  /** Later siblings' regions stay outside an earlier sibling's rectangle. */
  lemma {:induction false} RestIsApart(d: DocState, ids: seq<NodeId>, f: Forest, rects: seq<Rect>, bound: Rect, r: Rect)
    requires Placed(d.slots, ids, f, rects, bound)
    requires forall j :: 0 <= j < |rects| ==> Apart(r, rects[j])
    ensures forall i :: 0 <= i < |Project(d, ids, f, rects, bound)| ==> Apart(r, Project(d, ids, f, rects, bound)[i].rect)
    decreases f
  {
    if f.Cons? {
      PlacedParts(d, ids, f, rects, bound);
      assert forall j :: 0 <= j < |rects[1..]| ==> rects[1..][j] == rects[j + 1];
      RestIsApart(d, ids[1..], f.rest, rects[1..], bound, r);
      var id, inner := f.id, Inner(d, f.id, rects[0]);
      if Descends(d, id, rects[0]) {
        var inners := ChildRects(d.slots, id, inner);
        assert Apart(r, rects[0]);
        assert forall j :: 0 <= j < |inners| ==> Inside(inners[j], inner) && Apart(r, inners[j]);
        RestIsApart(d, Kids(d.slots, id), f.kids, inners, inner, r);
      }
    }
  }

  /** The layout theorem for a list of sibling trees. */
  lemma {:induction false} ProjectLaidOut(d: DocState, ids: seq<NodeId>, f: Forest, rects: seq<Rect>, bound: Rect,
                                          level: nat)
    requires TreeShaped(d.slots, d.root) && AtLevel(d.slots, d.root, ids, level) && NoDup(ids)
    requires Placed(d.slots, ids, f, rects, bound)
    ensures LaidOut(d.slots, Project(d, ids, f, rects, bound), bound)
    decreases f
  {
    if f.Cons? {
      PlacedParts(d, ids, f, rects, bound);
      var head := HeadRegions(d, ids, f, rects, bound);
      var after := Project(d, ids[1..], f.rest, rects[1..], bound);
      ProjectLaidOut(d, ids[1..], f.rest, rects[1..], bound, level);
      HeadLaidOut(d, ids, f, rects, bound, level);
      LaidOutWiden(d.slots, head, rects[0], bound);
      EmittedIds(d, ids[1..], f.rest, rects[1..], bound);
      RestIsApart(d, ids[1..], f.rest, rects[1..], bound, rects[0]);
      forall i, j | 0 <= i < |head| && 0 <= j < |after|
        ensures Related(d.slots, head[i], after[j])
      {
        SeparateTrees(d.slots, d.root, ids, f, level, head[i].id, after[j].id);
      }
      LaidOutConcat(d.slots, head, after, bound);
    }
  }

  lemma HeadLaidOut(d: DocState, ids: seq<NodeId>, f: Forest, rects: seq<Rect>, bound: Rect, level: nat)
    requires TreeShaped(d.slots, d.root) && AtLevel(d.slots, d.root, ids, level) && NoDup(ids)
    requires Placed(d.slots, ids, f, rects, bound) && f.Cons?
    ensures rects[0].WellPlaced() && LaidOut(d.slots, HeadRegions(d, ids, f, rects, bound), rects[0])
    ensures var head := HeadRegions(d, ids, f, rects, bound);
            forall i :: 0 <= i < |head| ==> Within(d.slots, f.id, head[i].id)
    decreases f, 0
  {
    PlacedParts(d, ids, f, rects, bound);
    var id, inner := f.id, Inner(d, f.id, rects[0]);
    assert id in ids;
    WithinSelf(d.slots, id);
    var own: seq<Region> := if Emits(d, id) then [Region(id, rects[0])] else [];
    var below: seq<Region> := [];
    if Descends(d, id, rects[0]) {
      var inners := ChildRects(d.slots, id, inner);
      below := Project(d, Kids(d.slots, id), f.kids, inners, inner);
      KidsAtLevel(d.slots, d.root, id);
      ProjectLaidOut(d, Kids(d.slots, id), f.kids, inners, inner, level + 1);
      LaidOutWiden(d.slots, below, inner, rects[0]);
      EmittedIds(d, Kids(d.slots, id), f.kids, inners, inner);
      forall j | 0 <= j < |below|
        ensures Within(d.slots, id, below[j].id) && !Within(d.slots, below[j].id, id)
        ensures Inside(below[j].rect, inner)
      {
        KidsAreBelow(d.slots, d.root, id, f.kids, below[j].id);
      }
    }
    LaidOutConcat(d.slots, own, below, rects[0]);
  }

  // Elision.

  lemma AtLevelRest(slots: Slots, root: NodeId, ids: seq<NodeId>, level: nat)
    requires TreeShaped(slots, root) && AtLevel(slots, root, ids, level) && NoDup(ids) && ids != []
    ensures AtLevel(slots, root, ids[1..], level) && NoDup(ids[1..])
    ensures ids[0] in ids && forall x :: x in ids[1..] ==> x in ids
  {
    assert forall x :: x in ids[1..] ==> x in ids;
  }

  /** Nothing is emitted below an elided node of the projected trees. */
  lemma {:induction false} NothingBelowElided(d: DocState, ids: seq<NodeId>, f: Forest, rects: seq<Rect>, bound: Rect,
                                              level: nat, r: Region, a: NodeId, e: NodeId)
    requires TreeShaped(d.slots, d.root) && AtLevel(d.slots, d.root, ids, level) && NoDup(ids)
    requires Placed(d.slots, ids, f, rects, bound) && r in Project(d, ids, f, rects, bound)
    requires a in ids && Within(d.slots, a, e) && Within(d.slots, e, r.id) && e in d.elided
    ensures e == r.id
    decreases f
  {
    ProjectIsHeadThenRest(d, ids, f, rects, bound);
    AtLevelRest(d.slots, d.root, ids, level);
    WithinTransitive(d.slots, a, e, r.id);
    if r in HeadRegions(d, ids, f, rects, bound) {
      HeadNothingBelowElided(d, ids, f, rects, bound, level, r, a, e);
    } else {
      RestAncestor(d, ids, f, rects, bound, level, r, a);
      NothingBelowElided(d, ids[1..], f.rest, rects[1..], bound, level, r, a, e);
    }
  }

  lemma RegionInPre(d: DocState, ids: seq<NodeId>, f: Forest, rects: seq<Rect>, bound: Rect, r: Region)
    requires Placed(d.slots, ids, f, rects, bound) && r in Project(d, ids, f, rects, bound)
    ensures r.id in Pre(f)
  {
    EmittedIds(d, ids, f, rects, bound);
  }

  /** The ancestor, at this level, of a later tree's region is a later id. */
  lemma RestAncestor(d: DocState, ids: seq<NodeId>, f: Forest, rects: seq<Rect>, bound: Rect,
                     level: nat, r: Region, a: NodeId)
    requires TreeShaped(d.slots, d.root) && AtLevel(d.slots, d.root, ids, level) && NoDup(ids)
    requires f.Cons? && ids != [] && rects != [] && Placed(d.slots, ids[1..], f.rest, rects[1..], bound)
    requires r in Project(d, ids[1..], f.rest, rects[1..], bound)
    requires a in ids && Within(d.slots, a, r.id)
    ensures a in ids[1..]
  {
    RegionInPre(d, ids[1..], f.rest, rects[1..], bound, r);
    PreIsBelow(d.slots, d.root, ids[1..], f.rest, r.id);
    var b :| b in ids[1..] && Within(d.slots, b, r.id);
    assert b in ids;
    SameLevelAncestor(d.slots, d.root, a, b, r.id);
  }

  lemma HeadNothingBelowElided(d: DocState, ids: seq<NodeId>, f: Forest, rects: seq<Rect>, bound: Rect,
                               level: nat, r: Region, a: NodeId, e: NodeId)
    requires TreeShaped(d.slots, d.root) && AtLevel(d.slots, d.root, ids, level) && NoDup(ids)
    requires Placed(d.slots, ids, f, rects, bound) && f.Cons? && r in HeadRegions(d, ids, f, rects, bound)
    requires a in ids && Within(d.slots, a, e) && Within(d.slots, e, r.id) && e in d.elided
    ensures e == r.id
    decreases f, 0
  {
    PlacedParts(d, ids, f, rects, bound);
    var id := f.id;
    assert id in ids;
    DepthGrows(d.slots, d.root, a, e);
    DepthGrows(d.slots, d.root, e, r.id);
    if r.id != id {
      var inner := Inner(d, id, rects[0]);
      var inners := ChildRects(d.slots, id, inner);
      assert Descends(d, id, rects[0]) && r in Project(d, Kids(d.slots, id), f.kids, inners, inner);
      RegionInPre(d, Kids(d.slots, id), f.kids, inners, inner, r);
      var c := ChildBetween(d.slots, d.root, id, f.kids, a, e, r.id);
      KidsAtLevel(d.slots, d.root, id);
      NothingBelowElided(d, Kids(d.slots, id), f.kids, inners, inner, level + 1, r, c, e);
    }
  }

  /** Between a node and a deeper one on the same line there is a child. */
  lemma ChildBetween(slots: Slots, root: NodeId, id: NodeId, kids: Forest, a: NodeId, e: NodeId, x: NodeId)
    returns (c: NodeId)
    requires TreeShaped(slots, root) && Live(slots, id) && Live(slots, a)
    requires Depth(slots, root, a) == Depth(slots, root, id)
    requires Shape(slots, Kids(slots, id), kids) && x in Pre(kids)
    requires Within(slots, a, e) && Within(slots, e, x) && e != id
    ensures c in Kids(slots, id) && Within(slots, c, e)
  {
    KidsAreBelow(slots, root, id, kids, x);
    WithinTransitive(slots, a, e, x);
    SameLevelAncestor(slots, root, a, id, x);
    WithinSomeChild(slots, root, id, e);
    c :| c in Kids(slots, id) && Within(slots, c, e);
  }

  // Which regions are drawn.

  /** The path `p` leads down from a node drawn into `rect` to the region `r`:
      every node on it descends to the next, and the last one emits `r`. */
  ghost predicate Leads(d: DocState, id: NodeId, rect: Rect, p: seq<NodeId>, r: Region)
    decreases |p|, 0
  {
    && p != [] && p[0] == id && Live(d.slots, id) && rect.WellPlaced()
    && if |p| == 1 then Emits(d, id) && r == Region(id, rect)
       else
         && Descends(d, id, rect)
         && LeadsFromOne(d, Kids(d.slots, id), ChildRects(d.slots, id, Inner(d, id, rect)), p[1..], r)
  }

  /** It leads down from one of some siblings. */
  ghost predicate LeadsFromOne(d: DocState, ids: seq<NodeId>, rects: seq<Rect>, p: seq<NodeId>, r: Region)
    decreases |p|, 1
  {
    exists j :: 0 <= j < |ids| && j < |rects| && Leads(d, ids[j], rects[j], p, r)
  }

  ghost predicate Reached(d: DocState, id: NodeId, rect: Rect, r: Region) {
    exists p :: Leads(d, id, rect, p, r)
  }

  ghost predicate ReachedFromOne(d: DocState, ids: seq<NodeId>, rects: seq<Rect>, r: Region) {
    exists p :: LeadsFromOne(d, ids, rects, p, r)
  }

  /** Exactly the regions that some path leads down to are drawn. */
  lemma {:induction false} ProjectReaches(d: DocState, ids: seq<NodeId>, f: Forest, rects: seq<Rect>, bound: Rect,
                                          r: Region)
    requires Placed(d.slots, ids, f, rects, bound)
    ensures r in Project(d, ids, f, rects, bound) <==> ReachedFromOne(d, ids, rects, r)
    decreases f
  {
    if f.Cons? {
      ProjectIsHeadThenRest(d, ids, f, rects, bound);
      HeadReaches(d, ids, f, rects, bound, r);
      ProjectReaches(d, ids[1..], f.rest, rects[1..], bound, r);
      ReachedSplits(d, ids, rects, r);
    }
  }

  lemma ReachedSplits(d: DocState, ids: seq<NodeId>, rects: seq<Rect>, r: Region)
    requires ids != [] && rects != []
    ensures ReachedFromOne(d, ids, rects, r) <==>
            Reached(d, ids[0], rects[0], r) || ReachedFromOne(d, ids[1..], rects[1..], r)
  {
    forall p
      ensures LeadsFromOne(d, ids, rects, p, r) <==>
              Leads(d, ids[0], rects[0], p, r) || LeadsFromOne(d, ids[1..], rects[1..], p, r)
    {
      FirstOrLater(d, ids, rects, p, r);
    }
  }

  lemma FirstOrLater(d: DocState, ids: seq<NodeId>, rects: seq<Rect>, p: seq<NodeId>, r: Region)
    requires ids != [] && rects != []
    ensures LeadsFromOne(d, ids, rects, p, r) <==>
            Leads(d, ids[0], rects[0], p, r) || LeadsFromOne(d, ids[1..], rects[1..], p, r)
  {
    if j :| 0 <= j < |ids| && j < |rects| && Leads(d, ids[j], rects[j], p, r) {
      assert j > 0 ==> ids[1..][j - 1] == ids[j] && rects[1..][j - 1] == rects[j];
    }
    if j :| 0 <= j < |ids[1..]| && j < |rects[1..]| && Leads(d, ids[1..][j], rects[1..][j], p, r) {
      assert ids[j + 1] == ids[1..][j] && rects[j + 1] == rects[1..][j];
    }
  }

  lemma HeadReaches(d: DocState, ids: seq<NodeId>, f: Forest, rects: seq<Rect>, bound: Rect, r: Region)
    requires Placed(d.slots, ids, f, rects, bound) && f.Cons?
    ensures ids != [] && rects != []
    ensures r in HeadRegions(d, ids, f, rects, bound) <==> Reached(d, ids[0], rects[0], r)
    decreases f, 0
  {
    var below := HeadParts(d, ids, f, rects, bound, r);
    var id, rect := f.id, rects[0];
    if Descends(d, id, rect) {
      var inner := Inner(d, id, rect);
      ProjectReaches(d, Kids(d.slots, id), f.kids, ChildRects(d.slots, id, inner), inner, r);
    }
    NodeReaches(d, id, rect, r);
  }

  /** A head's regions: its own, and those of its children. */
  lemma HeadParts(d: DocState, ids: seq<NodeId>, f: Forest, rects: seq<Rect>, bound: Rect, r: Region)
    returns (below: seq<Region>)
    requires Placed(d.slots, ids, f, rects, bound) && f.Cons?
    ensures ids != [] && ids[0] == f.id && rects != [] && Live(d.slots, f.id) && rects[0].WellPlaced()
    ensures if Descends(d, f.id, rects[0]) then
              var inner := Inner(d, f.id, rects[0]);
              var childRects := ChildRects(d.slots, f.id, inner);
              && Placed(d.slots, Kids(d.slots, f.id), f.kids, childRects, inner)
              && below == Project(d, Kids(d.slots, f.id), f.kids, childRects, inner)
            else below == []
    ensures r in HeadRegions(d, ids, f, rects, bound) <==>
            (Emits(d, f.id) && r == Region(f.id, rects[0])) || r in below
  {
    PlacedParts(d, ids, f, rects, bound);
    var id, inner := f.id, Inner(d, f.id, rects[0]);
    below := if Descends(d, id, rects[0])
             then Project(d, Kids(d.slots, id), f.kids, ChildRects(d.slots, id, inner), inner) else [];
  }

  lemma UpOne(d: DocState, id: NodeId, rect: Rect, q: seq<NodeId>, r: Region)
    requires Live(d.slots, id) && rect.WellPlaced() && Descends(d, id, rect)
    requires LeadsFromOne(d, Kids(d.slots, id), ChildRects(d.slots, id, Inner(d, id, rect)), q, r)
    ensures Leads(d, id, rect, [id] + q, r)
  {
    assert ([id] + q)[1..] == q;
  }

  /** From one node: to itself, or down through one of its children. */
  lemma NodeReaches(d: DocState, id: NodeId, rect: Rect, r: Region)
    requires Live(d.slots, id) && rect.WellPlaced()
    ensures Reached(d, id, rect, r) <==>
            || (Emits(d, id) && r == Region(id, rect))
            || (Descends(d, id, rect) &&
                ReachedFromOne(d, Kids(d.slots, id), ChildRects(d.slots, id, Inner(d, id, rect)), r))
  {
    if Emits(d, id) && r == Region(id, rect) {
      assert Leads(d, id, rect, [id], r);
    }
    if Descends(d, id, rect) {
      var kids, rects := Kids(d.slots, id), ChildRects(d.slots, id, Inner(d, id, rect));
      forall q | LeadsFromOne(d, kids, rects, q, r)
        ensures Reached(d, id, rect, r)
      {
        UpOne(d, id, rect, q, r);
      }
    }
    forall p | Leads(d, id, rect, p, r) && |p| > 1
      ensures Descends(d, id, rect)
      ensures ReachedFromOne(d, Kids(d.slots, id), ChildRects(d.slots, id, Inner(d, id, rect)), r)
    {
      assert LeadsFromOne(d, Kids(d.slots, id), ChildRects(d.slots, id, Inner(d, id, rect)), p[1..], r);
    }
  }

  lemma SingleReached(d: DocState, id: NodeId, rect: Rect, r: Region)
    ensures ReachedFromOne(d, [id], [rect], r) <==> Reached(d, id, rect, r)
  {
    ReachedSplits(d, [id], [rect], r);
    assert !ReachedFromOne(d, [], [], r);
    assert [id][1..] == [] && [rect][1..] == [];
  }

  /** A child that emits is reached from its parent. */
  lemma ChildReached(d: DocState, id: NodeId, rect: Rect, i: nat)
    requires Live(d.slots, id) && rect.WellPlaced() && Descends(d, id, rect) && i < |Kids(d.slots, id)|
    requires Live(d.slots, Kids(d.slots, id)[i]) && Emits(d, Kids(d.slots, id)[i])
    ensures Reached(d, id, rect, Region(Kids(d.slots, id)[i], ChildRects(d.slots, id, Inner(d, id, rect))[i]))
  {
    var kids, rects := Kids(d.slots, id), ChildRects(d.slots, id, Inner(d, id, rect));
    ChildRectsPartition(d.slots, id, Inner(d, id, rect));
    assert Leads(d, kids[i], rects[i], [kids[i]], Region(kids[i], rects[i]));
    assert LeadsFromOne(d, kids, rects, [kids[i]], Region(kids[i], rects[i]));
    NodeReaches(d, id, rect, Region(kids[i], rects[i]));
  }

  // The whole projection.

  /** The requested size from the origin, but at least 24 columns by 8 rows. */
  function Viewport(rows: u16, cols: u16): (r: Rect)
    ensures r.WellPlaced() && r.x == 0 && r.y == 0
    ensures r.width >= 24 && r.width >= cols && (cols >= 24 ==> r.width == cols) && (cols < 24 ==> r.width == 24)
    ensures r.height >= 8 && r.height >= rows && (rows >= 8 ==> r.height == rows) && (rows < 8 ==> r.height == 8)
  {
    Rect(0, 0, if cols < 24 then 24 else cols, if rows < 8 then 8 else rows)
  }

  /** The projection of the tree at `top` into the clamped viewport. */
  ghost function Projected(d: DocState, top: NodeId, rows: u16, cols: u16): seq<Region>
    requires TreeShaped(d.slots, d.root) && Live(d.slots, top)
  {
    var view := Viewport(rows, cols);
    Project(d, [top], Subtree(d.slots, d.root, top), [view], view)
  }

  /** A node that is drawn at all comes first in its own projection. */
  lemma TopIsFirst(d: DocState, top: NodeId, rows: u16, cols: u16)
    requires TreeShaped(d.slots, d.root) && Live(d.slots, top) && Emits(d, top)
    ensures Projected(d, top, rows, cols) != [] && Projected(d, top, rows, cols)[0] == Region(top, Viewport(rows, cols))
  {
    var view := Viewport(rows, cols);
    ProjectIsHeadThenRest(d, [top], Subtree(d.slots, d.root, top), [view], view);
  }

  /** A region is drawn exactly when some path leads down to it from the top. */
  lemma DrawnIff(d: DocState, top: NodeId, rows: u16, cols: u16, r: Region)
    requires TreeShaped(d.slots, d.root) && Live(d.slots, top)
    ensures r in Projected(d, top, rows, cols) <==>
            Reached(d, top, Viewport(rows, cols), r)
  {
    var view := Viewport(rows, cols);
    ProjectReaches(d, [top], Subtree(d.slots, d.root, top), [view], view, r);
    SingleReached(d, top, view, r);
  }

  // By kind.

  /** Which nodes have a region of their own: every elided one; no container;
      a subdocument or scroll region unless it only wraps one child; every
      other node. */
  lemma EmitsByKind(d: DocState, id: NodeId)
    requires Live(d.slots, id)
    ensures var n := Find(d.slots, id).value;
            Emits(d, id) <==>
            || id in d.elided
            || n.kind in {Document, TextLeaf, TtyLeaf, MonitoredFileLeaf, StaticFileLeaf, MonitorLeaf, ModelineRegion,
                          MenuRegion}
            || (n.kind in {Subdocument, ScrollRegion} && (n.content != "" || |n.children| != 1))
  {
  }

  /** Which nodes draw their children, and where: inside a border of one cell
      if they have a region, and in all of their rectangle if not. */
  lemma DescendsByKind(d: DocState, id: NodeId, rect: Rect)
    requires Live(d.slots, id) && rect.WellPlaced()
    ensures Descends(d, id, rect) <==>
            && id !in d.elided && Kids(d.slots, id) != []
            && Find(d.slots, id).value.kind in {Document, Subdocument, Container, HContainer, VContainer, ScrollRegion}
            && if Emits(d, id) then rect.width > 2 && rect.height > 2 else rect.width > 0 && rect.height > 0
    ensures Descends(d, id, rect) ==>
              Inner(d, id, rect) ==
              if Emits(d, id) then Rect(rect.x + 1, rect.y + 1, rect.width - 2, rect.height - 2) else rect
  {
  }

  /** Each child that has a region is drawn where the layout of its parent puts
      it, when the parent is projected. */
  lemma ChildDrawn(d: DocState, top: NodeId, rows: u16, cols: u16, i: nat)
    requires TreeShaped(d.slots, d.root) && Live(d.slots, top) && top !in d.elided && i < |Kids(d.slots, top)|
    requires Find(d.slots, top).value.kind in {Document, Subdocument, Container, HContainer, VContainer, ScrollRegion}
    requires Live(d.slots, Kids(d.slots, top)[i]) && Emits(d, Kids(d.slots, top)[i])
    ensures var view := Viewport(rows, cols);
            var inner := if Emits(d, top) then Rect(1, 1, view.width - 2, view.height - 2) else view;
            Region(Kids(d.slots, top)[i], ChildRects(d.slots, top, inner)[i]) in Projected(d, top, rows, cols)
  {
    var view, c := Viewport(rows, cols), Kids(d.slots, top)[i];
    DescendsByKind(d, top, view);
    ChildReached(d, top, view, i);
    DrawnIff(d, top, rows, cols, Region(c, ChildRects(d.slots, top, Inner(d, top, view))[i]));
  }

  /** For every tree and viewport: each region lies in the viewport and in the
      inset of every emitted ancestor; unrelated regions never overlap. */
  lemma ProjectionGeometry(d: DocState, top: NodeId, rows: u16, cols: u16, i: nat, j: nat)
    requires TreeShaped(d.slots, d.root) && Live(d.slots, top)
    requires var regions := Projected(d, top, rows, cols); i < |regions| && j < |regions| && i != j
    ensures var regions := Projected(d, top, rows, cols);
            && regions[i].rect.WellPlaced() && Inside(regions[i].rect, Viewport(rows, cols))
            && (Within(d.slots, regions[i].id, regions[j].id) ==> Inside(regions[j].rect, Inset(regions[i].rect)))
            && (!Within(d.slots, regions[i].id, regions[j].id) && !Within(d.slots, regions[j].id, regions[i].id) ==>
                  Apart(regions[i].rect, regions[j].rect))
  {
    var view := Viewport(rows, cols);
    ProjectLaidOut(d, [top], Subtree(d.slots, d.root, top), [view], view, Depth(d.slots, d.root, top));
    var regions := Projected(d, top, rows, cols);
    assert i < j ==> Related(d.slots, regions[i], regions[j]);
    assert j < i ==> Related(d.slots, regions[j], regions[i]);
  }

  /** Regions come in preorder, of the projected tree and so of the document,
      each node at most once. */
  lemma ProjectionOrder(d: DocState, top: NodeId, rows: u16, cols: u16)
    requires TreeShaped(d.slots, d.root) && Live(d.slots, top)
    ensures var ids := RegionIds(Projected(d, top, rows, cols));
            && Subsequence(ids, Pre(Subtree(d.slots, d.root, top)))
            && Subsequence(ids, Pre(Subtree(d.slots, d.root, d.root))) && NoDup(ids)
            && forall i :: 0 <= i < |ids| ==> Within(d.slots, top, ids[i])
  {
    var view, f := Viewport(rows, cols), Subtree(d.slots, d.root, top);
    var ids := RegionIds(Projected(d, top, rows, cols));
    ProjectSubsequence(d, [top], f, [view], view);
    SubtreeTraversal(d.slots, d.root, top);
    SubsequenceElements(ids, Pre(f));
    var before, after := SubtreeContiguous(d.slots, d.root, top);
    SubsequencePrepend(before, ids, Pre(f));
    SubsequenceConcat(ids, before + Pre(f), [], after);
    assert ids + [] == ids;
    forall i | 0 <= i < |ids|
      ensures Within(d.slots, top, ids[i])
    {
      assert ids[i] in ids;
    }
  }

  /** Only nodes that emit are ever drawn. */
  lemma {:induction false} LeadsToEmitter(d: DocState, id: NodeId, rect: Rect, p: seq<NodeId>, r: Region)
    requires Leads(d, id, rect, p, r)
    ensures Live(d.slots, r.id) && Emits(d, r.id)
    decreases |p|
  {
    if |p| > 1 {
      var kids, rects := Kids(d.slots, id), ChildRects(d.slots, id, Inner(d, id, rect));
      var j :| 0 <= j < |kids| && j < |rects| && Leads(d, kids[j], rects[j], p[1..], r);
      LeadsToEmitter(d, kids[j], rects[j], p[1..], r);
    }
  }

  /** The projected node is drawn exactly when it has a region of its own, and
      then over the whole viewport. */
  lemma TopDrawnIff(d: DocState, top: NodeId, rows: u16, cols: u16, rect: Rect)
    requires TreeShaped(d.slots, d.root) && Live(d.slots, top)
    ensures Region(top, rect) in Projected(d, top, rows, cols) <==> Emits(d, top) && rect == Viewport(rows, cols)
  {
    var view, r, regions := Viewport(rows, cols), Region(top, rect), Projected(d, top, rows, cols);
    DrawnIff(d, top, rows, cols, r);
    forall p | Leads(d, top, view, p, r)
      ensures Emits(d, top)
    {
      LeadsToEmitter(d, top, view, p, r);
    }
    if Emits(d, top) {
      TopIsFirst(d, top, rows, cols);
      ProjectionOrder(d, top, rows, cols);
      NoDupIff(RegionIds(regions));
      if r in regions {
        var i :| 0 <= i < |regions| && regions[i] == r;
        assert i > 0 ==> RegionIds(regions)[i] != RegionIds(regions)[0];
      }
    }
  }

  /** Below an elided node of the projected tree nothing is emitted. */
  lemma ProjectionStopsAtElided(d: DocState, top: NodeId, rows: u16, cols: u16, e: NodeId, i: nat)
    requires TreeShaped(d.slots, d.root) && Live(d.slots, top)
    requires var ids := RegionIds(Projected(d, top, rows, cols)); i < |ids| && Within(d.slots, e, ids[i])
    requires Within(d.slots, top, e) && e in d.elided
    ensures RegionIds(Projected(d, top, rows, cols))[i] == e
  {
    var view, f := Viewport(rows, cols), Subtree(d.slots, d.root, top);
    var r := Projected(d, top, rows, cols)[i];
    WithinSelf(d.slots, top);
    NothingBelowElided(d, [top], f, [view], view, Depth(d.slots, d.root, top), r, top, e);
  }

  /** No emitted node has an elided node above it. */
  ghost predicate NothingBelowAnyElided(d: DocState, ids: seq<NodeId>) {
    forall e, i :: e in d.elided && 0 <= i < |ids| && Within(d.slots, e, ids[i]) ==> ids[i] == e
  }

  /** Something is drawn: some way leads down to a node that emits. */
  ghost predicate DrawsSomething(d: DocState, top: NodeId, rows: u16, cols: u16) {
    exists r :: Reached(d, top, Viewport(rows, cols), r)
  }

  lemma DrawsSomethingIff(d: DocState, top: NodeId, rows: u16, cols: u16)
    requires TreeShaped(d.slots, d.root) && Live(d.slots, top)
    ensures Projected(d, top, rows, cols) != [] <==> DrawsSomething(d, top, rows, cols)
  {
    var regions := Projected(d, top, rows, cols);
    if regions != [] {
      assert regions[0] in regions;
      DrawnIff(d, top, rows, cols, regions[0]);
    }
    forall r | Reached(d, top, Viewport(rows, cols), r)
      ensures regions != []
    {
      DrawnIff(d, top, rows, cols, r);
    }
  }

  /** In particular when the top or one of its children emits a region. */
  lemma EmittersAreDrawn(d: DocState, top: NodeId, rows: u16, cols: u16)
    requires TreeShaped(d.slots, d.root) && Live(d.slots, top)
    requires Emits(d, top) || exists c :: c in Kids(d.slots, top) && Live(d.slots, c) && Emits(d, c)
    ensures DrawsSomething(d, top, rows, cols)
  {
    if Emits(d, top) {
      TopDrawnIff(d, top, rows, cols, Viewport(rows, cols));
    } else {
      var i :| 0 <= i < |Kids(d.slots, top)| && Live(d.slots, Kids(d.slots, top)[i]) && Emits(d, Kids(d.slots, top)[i]);
      EmitsByKind(d, top);
      ChildDrawn(d, top, rows, cols, i);
    }
    DrawsSomethingIff(d, top, rows, cols);
  }

  /** Elision is honoured exactly when nothing is drawn or no elided node lies
      above the projected one; the code looks at a node's own elision only,
      never at ancestors of the view root. */
  lemma ElisionHonouredIff(d: DocState, top: NodeId, rows: u16, cols: u16)
    requires TreeShaped(d.slots, d.root) && Live(d.slots, top)
    ensures NothingBelowAnyElided(d, RegionIds(Projected(d, top, rows, cols))) <==>
            !DrawsSomething(d, top, rows, cols) ||
            forall e :: e in d.elided && Within(d.slots, e, top) ==> e == top
  {
    DrawsSomethingIff(d, top, rows, cols);
    if DrawsSomething(d, top, rows, cols) && NothingBelowAnyElided(d, RegionIds(Projected(d, top, rows, cols))) {
      HonouredThenNoneAbove(d, top, rows, cols);
    }
    if forall e :: e in d.elided && Within(d.slots, e, top) ==> e == top {
      NoneAboveThenHonoured(d, top, rows, cols);
    }
  }

  lemma HonouredThenNoneAbove(d: DocState, top: NodeId, rows: u16, cols: u16)
    requires TreeShaped(d.slots, d.root) && Live(d.slots, top)
    requires var ids := RegionIds(Projected(d, top, rows, cols)); ids != [] && NothingBelowAnyElided(d, ids)
    ensures forall e :: e in d.elided && Within(d.slots, e, top) ==> e == top
  {
    var ids := RegionIds(Projected(d, top, rows, cols));
    ProjectionOrder(d, top, rows, cols);
    forall e | e in d.elided && Within(d.slots, e, top)
      ensures e == top
    {
      WithinTransitive(d.slots, e, top, ids[0]);
      DepthGrows(d.slots, d.root, top, e);
      DepthGrows(d.slots, d.root, e, top);
    }
  }

  lemma NoneAboveThenHonoured(d: DocState, top: NodeId, rows: u16, cols: u16)
    requires TreeShaped(d.slots, d.root) && Live(d.slots, top)
    requires forall e :: e in d.elided && Within(d.slots, e, top) ==> e == top
    ensures NothingBelowAnyElided(d, RegionIds(Projected(d, top, rows, cols)))
  {
    var ids := RegionIds(Projected(d, top, rows, cols));
    ProjectionOrder(d, top, rows, cols);
    WithinSelf(d.slots, top);
    forall e, i | e in d.elided && 0 <= i < |ids| && Within(d.slots, e, ids[i])
      ensures ids[i] == e
    {
      AncestorsComparable(d.slots, e, top, ids[i]);
      ProjectionStopsAtElided(d, top, rows, cols, e, i);
    }
  }
}
