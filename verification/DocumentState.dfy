/** The live document as a value (src/core/document.zig): the slot table, the
    accounting and the shared view state, and what it means to be consistent. */
module DocumentState {
  import opened Basics
  import opened Forests

  datatype NodeKind =
    | Document | Subdocument | Container | HContainer | VContainer | ScrollRegion
    | TextLeaf | TtyLeaf | MonitoredFileLeaf | StaticFileLeaf | MonitorLeaf
    | ModelineRegion | MenuRegion

  datatype NodeState = NodeState(
    id: NodeId,
    kind: NodeKind,
    title: string,
    name: Option<string>,
    content: string,
    parent: Option<NodeId>,
    children: seq<NodeId>,
    followTail: bool)

  /** Slot `i` holds the node with id `i + 1`, or nothing. */
  type Slots = seq<Option<NodeState>>

  datatype DocState = DocState(
    slots: Slots,
    root: NodeId,
    viewRoot: Option<NodeId>,
    liveCount: nat,
    elided: seq<NodeId>,
    contentBytes: usize,
    maxContentBytes: usize,
    nextId: NodeId)

  datatype DocError =
    | UnknownNode | UnknownParent | UnknownChild | NodeHasChildren | DocumentTooLarge
    | ContentAccountingDrift | DuplicateNodeName | InvalidNodeName
    | MissingRootNode | DuplicateNodeId | RootNodeHasParent | RootNodeKindMismatch
    | NonRootNodeMissingParent | ParentMissingChildLink | DuplicateChildLink
    | ChildParentMismatch | UnreachableNode | UnknownViewRootNode | UnknownElidedNode
    | InvalidResourceSelector | ResourceSelectorEscapesRoot
    | UnknownResourceSelectorSegment | AmbiguousResourceSelector

  function Find(slots: Slots, id: NodeId): Option<NodeState> {
    if 0 < id <= |slots| then slots[id - 1] else None
  }

  predicate Live(slots: Slots, id: NodeId) { Find(slots, id).Some? }

  function Kids(slots: Slots, id: NodeId): seq<NodeId> {
    if Live(slots, id) then Find(slots, id).value.children else []
  }

  function Parent(slots: Slots, id: NodeId): Option<NodeId> {
    if Live(slots, id) then Find(slots, id).value.parent else None
  }

  function Content(slots: Slots, id: NodeId): string {
    if Live(slots, id) then Find(slots, id).value.content else ""
  }

  /** Total content length of the listed nodes. */
  function BytesOf(slots: Slots, ids: seq<NodeId>): nat {
    if ids == [] then 0 else |Content(slots, ids[0])| + BytesOf(slots, ids[1..])
  }

  /** The live ids in increasing order. */
  function LiveIds(slots: Slots): seq<NodeId> {
    if slots == [] then []
    else LiveIds(slots[..|slots| - 1]) + (if slots[|slots| - 1].Some? then [|slots|] else [])
  }

  // Paths along parent links.

  ghost predicate IsPath(slots: Slots, p: seq<NodeId>) {
    && p != []
    && (forall i :: 0 <= i < |p| ==> Live(slots, p[i]))
    && (forall i :: 0 < i < |p| ==> Parent(slots, p[i]) == Some(p[i - 1]))
  }

  ghost predicate PathFromTo(slots: Slots, top: NodeId, x: NodeId, p: seq<NodeId>) {
    IsPath(slots, p) && p[0] == top && p[|p| - 1] == x
  }

  /** `x` is `top` or one of its descendants. */
  ghost predicate Within(slots: Slots, top: NodeId, x: NodeId) {
    exists p :: PathFromTo(slots, top, x, p)
  }

  // Well-formed trees.

  ghost predicate IdsMatch(slots: Slots) {
    forall i :: 0 <= i < |slots| && slots[i].Some? ==> slots[i].value.id == i + 1
  }

  ghost predicate GoodRoot(slots: Slots, root: NodeId) {
    Live(slots, root) && Parent(slots, root) == None && Find(slots, root).value.kind == Document
  }

  ghost predicate LinkedUp(slots: Slots, root: NodeId, id: NodeId) {
    id == root ||
    (Parent(slots, id).Some? && Live(slots, Parent(slots, id).value) &&
     id in Kids(slots, Parent(slots, id).value))
  }

  ghost predicate LinkedDown(slots: Slots, id: NodeId) {
    && NoDup(Kids(slots, id))
    && forall c :: c in Kids(slots, id) ==> Live(slots, c) && Parent(slots, c) == Some(id)
  }

  ghost predicate Linked(slots: Slots, root: NodeId) {
    && IdsMatch(slots)
    && GoodRoot(slots, root)
    && (forall id {:trigger LinkedUp(slots, root, id)} :: Live(slots, id) ==> LinkedUp(slots, root, id))
    && (forall id {:trigger LinkedDown(slots, id)} :: Live(slots, id) ==> LinkedDown(slots, id))
  }

  /** Mutual links, and every live node reachable from the root. */
  ghost predicate TreeShaped(slots: Slots, root: NodeId) {
    && Linked(slots, root)
    && (forall id {:trigger Within(slots, root, id)} :: Live(slots, id) ==> Within(slots, root, id))
  }

  /** What `validate` is meant to establish. */
  ghost predicate Consistent(d: DocState) {
    && TreeShaped(d.slots, d.root)
    && d.liveCount == |LiveIds(d.slots)|
    && d.contentBytes == BytesOf(d.slots, LiveIds(d.slots))
    && (d.viewRoot.Some? ==> Live(d.slots, d.viewRoot.value))
    && (forall i :: 0 <= i < |d.elided| ==> Live(d.slots, d.elided[i]))
  }

  /** The invariant of every run: consistent, no id listed twice as elided,
      and every slot's id already reserved. */
  ghost predicate Invariant(d: DocState) {
    Consistent(d) && NoDup(d.elided) && |d.slots| < d.nextId
  }

  // Live ids.

  lemma {:induction false} LiveIdsSound(slots: Slots)
    ensures NoDup(LiveIds(slots))
    ensures forall x :: x in LiveIds(slots) <==> Live(slots, x)
  {
    if slots != [] {
      var front := slots[..|slots| - 1];
      LiveIdsSound(front);
      forall x: NodeId
        ensures Live(slots, x) <==> Live(front, x) || (x == |slots| && slots[x - 1].Some?)
      {
        if 0 < x <= |front| { assert slots[x - 1] == front[x - 1]; }
      }
      var tail: seq<NodeId> := if slots[|slots| - 1].Some? then [|slots|] else [];
      assert tail != [] ==> tail[1..] == [];
      NoDupConcat(LiveIds(front), tail);
    }
  }

  lemma {:induction false} LiveIdsFrame(s: Slots, t: Slots)
    requires |s| == |t| && forall i :: 0 <= i < |s| ==> s[i].Some? == t[i].Some?
    ensures LiveIds(s) == LiveIds(t)
  {
    if s != [] { LiveIdsFrame(s[..|s| - 1], t[..|t| - 1]); }
  }

  /** Emptying one live slot takes one live id away. */
  lemma {:induction false} LiveIdsWithout(slots: Slots, id: NodeId)
    requires Live(slots, id)
    ensures |LiveIds(slots)| == |LiveIds(slots[id - 1 := None])| + 1
  {
    var last := |slots| - 1;
    var t := slots[id - 1 := None];
    if id - 1 == last {
      assert t[..last] == slots[..last];
    } else {
      assert t[..last] == slots[..last][id - 1 := None];
      LiveIdsWithout(slots[..last], id);
    }
  }

  lemma {:induction false} BytesConcat(slots: Slots, a: seq<NodeId>, b: seq<NodeId>)
    ensures BytesOf(slots, a + b) == BytesOf(slots, a) + BytesOf(slots, b)
  {
    if a == [] {
      assert a + b == b;
    } else {
      assert (a + b)[1..] == a[1..] + b;
      BytesConcat(slots, a[1..], b);
    }
  }

  lemma {:induction false} BytesWithout(slots: Slots, ids: seq<NodeId>, j: nat)
    requires j < |ids|
    ensures BytesOf(slots, ids) == |Content(slots, ids[j])| + BytesOf(slots, ids[..j] + ids[j + 1..])
  {
    if j == 0 {
      assert ids[..0] + ids[1..] == ids[1..];
    } else {
      var rest := ids[1..];
      BytesWithout(slots, rest, j - 1);
      assert (ids[..j] + ids[j + 1..])[1..] == rest[..j - 1] + rest[j..];
    }
  }

  lemma {:induction false} BytesPermutation(slots: Slots, a: seq<NodeId>, b: seq<NodeId>)
    requires multiset(a) == multiset(b)
    ensures BytesOf(slots, a) == BytesOf(slots, b)
  {
    if a != [] {
      assert a[0] in multiset(b);
      var j :| 0 <= j < |b| && b[j] == a[0];
      var rest := b[..j] + b[j + 1..];
      PermutationWithout(a, b, j);
      BytesPermutation(slots, a[1..], rest);
      BytesWithout(slots, b, j);
    } else {
      assert |multiset(a)| == 0;
      assert |multiset(b)| == |b|;
    }
  }

  lemma PermutationWithout(a: seq<NodeId>, b: seq<NodeId>, j: nat)
    requires multiset(a) == multiset(b) && a != [] && j < |b| && b[j] == a[0]
    ensures multiset(a[1..]) == multiset(b[..j] + b[j + 1..])
  {
    assert a == [a[0]] + a[1..];
    assert b == b[..j] + [b[j]] + b[j + 1..];
    assert multiset(a[1..]) == multiset(a) - multiset{a[0]};
    assert multiset(b[..j] + b[j + 1..]) == multiset(b) - multiset{b[j]};
  }

  lemma {:induction false} BytesFrame(s: Slots, t: Slots, ids: seq<NodeId>)
    requires forall x :: x in ids ==> Content(s, x) == Content(t, x)
    ensures BytesOf(s, ids) == BytesOf(t, ids)
  {
    if ids != [] {
      assert ids[0] in ids;
      assert forall x :: x in ids[1..] ==> x in ids;
      BytesFrame(s, t, ids[1..]);
    }
  }

  // Paths.

  /** Paths of one length with one end are the same path. */
  lemma {:induction false} SameLengthPaths(slots: Slots, p: seq<NodeId>, q: seq<NodeId>)
    requires IsPath(slots, p) && IsPath(slots, q)
    requires |p| == |q| && p[|p| - 1] == q[|q| - 1]
    ensures p == q
  {
    var n := |p|;
    if n > 1 {
      assert Parent(slots, p[n - 1]) == Some(p[n - 2]) && Parent(slots, q[n - 1]) == Some(q[n - 2]);
      SameLengthPaths(slots, p[..n - 1], q[..n - 1]);
      assert p == p[..n - 1] + [p[n - 1]] && q == q[..n - 1] + [q[n - 1]];
    }
  }

  /** There is at most one path from a parentless node to `x`. */
  lemma {:induction false} RootPathUnique(slots: Slots, root: NodeId, x: NodeId, p: seq<NodeId>, q: seq<NodeId>)
    requires Parent(slots, root) == None
    requires PathFromTo(slots, root, x, p) && PathFromTo(slots, root, x, q)
    ensures p == q
    decreases |p|
  {
    assert |q| > 1 ==> Parent(slots, q[|q| - 1]) == Some(q[|q| - 2]);
    if |p| > 1 {
      assert Parent(slots, p[|p| - 1]) == Some(p[|p| - 2]);
      assert Parent(slots, q[|q| - 1]) == Some(q[|q| - 2]);
      RootPathUnique(slots, root, p[|p| - 2], p[..|p| - 1], q[..|q| - 1]);
      assert p == p[..|p| - 1] + [x] && q == q[..|q| - 1] + [x];
    }
  }

  ghost function RootPath(slots: Slots, root: NodeId, x: NodeId): (p: seq<NodeId>)
    requires Within(slots, root, x)
    ensures PathFromTo(slots, root, x, p)
  {
    var p :| PathFromTo(slots, root, x, p);
    p
  }

  ghost function Depth(slots: Slots, root: NodeId, x: NodeId): nat
    requires Within(slots, root, x)
  {
    |RootPath(slots, root, x)| - 1
  }

  lemma PathJoin(slots: Slots, a: NodeId, b: NodeId, c: NodeId, p: seq<NodeId>, q: seq<NodeId>)
    requires PathFromTo(slots, a, b, p) && PathFromTo(slots, b, c, q)
    ensures PathFromTo(slots, a, c, p + q[1..])
  {
    var r := p + q[1..];
    assert r[|p| - 1] == b;
    forall i | 0 < i < |r|
      ensures Parent(slots, r[i]) == Some(r[i - 1])
    {
      if i >= |p| { assert r[i] == q[i - |p| + 1] && r[i - 1] == q[i - |p|]; }
    }
  }

  lemma WithinTransitive(slots: Slots, a: NodeId, b: NodeId, c: NodeId)
    requires Within(slots, a, b) && Within(slots, b, c)
    ensures Within(slots, a, c)
  {
    var p :| PathFromTo(slots, a, b, p);
    var q :| PathFromTo(slots, b, c, q);
    PathJoin(slots, a, b, c, p, q);
  }

  lemma WithinStep(slots: Slots, p: NodeId, c: NodeId)
    requires Live(slots, p) && Live(slots, c) && Parent(slots, c) == Some(p)
    ensures Within(slots, p, c)
  {
    assert PathFromTo(slots, p, c, [p, c]);
  }

  lemma WithinSelf(slots: Slots, x: NodeId)
    requires Live(slots, x)
    ensures Within(slots, x, x)
  {
    assert PathFromTo(slots, x, x, [x]);
  }

  lemma PathTail(slots: Slots, p: seq<NodeId>, i: nat)
    requires IsPath(slots, p) && i < |p|
    ensures Within(slots, p[i], p[|p| - 1])
  {
    var q := p[i..];
    forall j | 0 < j < |q|
      ensures Parent(slots, q[j]) == Some(q[j - 1])
    {
      assert q[j] == p[i + j] && q[j - 1] == p[i + j - 1];
    }
    assert PathFromTo(slots, p[i], p[|p| - 1], q);
  }

  /** A proper descendant has a parent that is also within. */
  lemma WithinParent(slots: Slots, top: NodeId, x: NodeId)
    requires Within(slots, top, x)
    ensures x == top || (Parent(slots, x).Some? && Within(slots, top, Parent(slots, x).value))
  {
    var p :| PathFromTo(slots, top, x, p);
    if |p| > 1 {
      assert Parent(slots, p[|p| - 1]) == Some(p[|p| - 2]);
      assert PathFromTo(slots, top, p[|p| - 2], p[..|p| - 1]);
    }
  }

  /** A child is one deeper than its parent. */
  lemma DepthStep(slots: Slots, root: NodeId, p: NodeId, c: NodeId)
    requires Within(slots, root, p) && Parent(slots, root) == None
    requires Live(slots, c) && Parent(slots, c) == Some(p)
    ensures Within(slots, root, c) && Depth(slots, root, c) == Depth(slots, root, p) + 1
  {
    var q := RootPath(slots, root, p);
    assert PathFromTo(slots, root, c, q + [c]);
    RootPathUnique(slots, root, c, q + [c], RootPath(slots, root, c));
  }

  /** Depth adds up along a path. */
  lemma DepthAlong(slots: Slots, root: NodeId, a: NodeId, x: NodeId, p: seq<NodeId>)
    requires Within(slots, root, a) && Parent(slots, root) == None
    requires PathFromTo(slots, a, x, p)
    ensures Within(slots, root, x) && Depth(slots, root, x) == Depth(slots, root, a) + |p| - 1
  {
    var q := RootPath(slots, root, a);
    PathJoin(slots, root, a, x, q, p);
    RootPathUnique(slots, root, x, q + p[1..], RootPath(slots, root, x));
  }

  /** A bound on all depths among the first `n` ids. */
  ghost function MaxDepth(slots: Slots, root: NodeId, n: nat): (m: nat)
    requires forall id {:trigger Within(slots, root, id)} :: Live(slots, id) ==> Within(slots, root, id)
    ensures forall id: NodeId :: Live(slots, id) && id <= n ==> Depth(slots, root, id) <= m
  {
    if n == 0 then 0
    else
      var m := MaxDepth(slots, root, n - 1);
      if Live(slots, n) && Depth(slots, root, n) > m then Depth(slots, root, n) else m
  }
}
