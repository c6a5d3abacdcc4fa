/** The document's mutations (src/core/document.zig) as functions on its
    value. The class `Document` is proved against these. */
module DocumentOps {
  import opened Basics
  import opened Decimal
  import opened Names
  import opened Forests
  import opened DocumentState
  import opened Traversal

  type Answer<T> = (DocState, Result<T, DocError>)

  // Child names.

  /** The names carried by the listed nodes, in order. */
  function NamesOf(slots: Slots, ids: seq<NodeId>): seq<string> {
    if ids == [] then []
    else
      (if Live(slots, ids[0]) && Find(slots, ids[0]).value.name.Some?
       then [Find(slots, ids[0]).value.name.value] else [])
      + NamesOf(slots, ids[1..])
  }

  /** Whether a child of `parent` other than `exempt` carries `name`. */
  predicate NameInUse(slots: Slots, parent: Option<NodeId>, exempt: Option<NodeId>, name: string) {
    parent.Some? &&
    exists i :: 0 <= i < |Kids(slots, parent.value)| &&
      var c := Kids(slots, parent.value)[i];
      Some(c) != exempt && Live(slots, c) && Find(slots, c).value.name == Some(name)
  }

  function Candidate(base: string, k: nat): string {
    base + "-" + ToDecimal(k)
  }

  /** Every candidate from 2 up to, not including, `k` is in use. */
  ghost predicate Taken(used: seq<string>, base: string, k: nat) {
    2 <= k && forall j: nat :: 2 <= j < k ==> Candidate(base, j) in used
  }

  lemma CandidateInjective(base: string, j: nat, k: nat)
    requires Candidate(base, j) == Candidate(base, k)
    ensures j == k
  {
    var n := |base| + 1;
    assert ToDecimal(j) == Candidate(base, j)[n..] && ToDecimal(k) == Candidate(base, k)[n..];
    ToDecimalInjective(j, k);
  }

  /** Pigeonhole: the taken candidates are distinct used names. */
  lemma TakenBounded(used: seq<string>, base: string, k: nat)
    requires Taken(used, base, k)
    ensures k <= |used| + 2
  {
    var all := seq(k - 2, i requires 0 <= i < k - 2 => Candidate(base, i + 2));
    forall i, j | 0 <= i < j < |all|
      ensures all[i] != all[j]
    {
      if all[i] == all[j] { CandidateInjective(base, i + 2, j + 2); }
    }
    NoDupIff(all);
    Pigeonhole(all, used);
  }

  /** The first free suffix from `k` on: the unbounded search terminates. */
  function FreeSuffix(used: seq<string>, base: string, k: nat): (r: nat)
    requires Taken(used, base, k)
    ensures k <= r <= |used| + 2
    ensures Taken(used, base, r) && Candidate(base, r) !in used
    decreases |used| + 2 - k
  {
    TakenBounded(used, base, k);
    if Candidate(base, k) !in used then k
    else
      assert Taken(used, base, k + 1);
      TakenBounded(used, base, k + 1);
      FreeSuffix(used, base, k + 1)
  }

  function DefaultChildName(slots: Slots, parent: NodeId, title: string): Option<string> {
    var used := NamesOf(slots, Kids(slots, parent));
    match DefaultName(title)
    case None => None
    case Some(base) =>
      if base !in used then Some(base) else Some(Candidate(base, FreeSuffix(used, base, 2)))
  }

  // Slots.

  function Blank(n: nat): Slots { seq(n, i => None) }

  /** `setNodeSlot`: grow the table with empty slots, then store. */
  function SetSlot(slots: Slots, id: NodeId, node: NodeState): (r: Slots)
    requires id > 0
    ensures |r| == if id <= |slots| then |slots| else id
    ensures forall i :: 0 <= i < |r| ==>
              r[i] == if i == id - 1 then Some(node) else if i < |slots| then slots[i] else None
    ensures forall x :: Find(r, x) == if x == id then Some(node) else Find(slots, x)
  {
    if id <= |slots| then slots[id - 1 := Some(node)]
    else slots + Blank(id - 1 - |slots|) + [Some(node)]
  }

  function Replace(slots: Slots, id: NodeId, node: NodeState): (r: Slots)
    requires Live(slots, id)
  {
    slots[id - 1 := Some(node)]
  }

  // Adding nodes.

  function Reserve(d: DocState): (DocState, NodeId) {
    (d.(nextId := d.nextId + 1), d.nextId)
  }

  function Prepare(d: DocState, id: NodeId, parent: NodeId, kind: NodeKind, title: string)
    : Result<NodeState, DocError>
  {
    if !Live(d.slots, parent) then Err(UnknownParent)
    else Ok(NodeState(id, kind, title, DefaultChildName(d.slots, parent, title), "", Some(parent), [],
                      kind != StaticFileLeaf))
  }

  function Commit(d: DocState, parent: NodeId, node: NodeState): Answer<()>
    requires node.id > 0
  {
    if !Live(d.slots, parent) then (d, Err(UnknownParent))
    else
      var p := Find(d.slots, parent).value;
      (d.(slots := SetSlot(Replace(d.slots, parent, p.(children := p.children + [node.id])), node.id, node),
          liveCount := d.liveCount + 1),
       Ok(()))
  }

  function AppendNode(d: DocState, parent: NodeId, kind: NodeKind, title: string): Answer<NodeId>
    requires d.nextId > 0
  {
    var (d1, id) := Reserve(d);
    match Prepare(d1, id, parent, kind, title)
    case Err(e) => (d1, Err(e))
    case Ok(node) =>
      var (d2, r) := Commit(d1, parent, node);
      if r.Ok? then (d2, Ok(id)) else (d2, Err(r.error))
  }

  /** `Document.init`. */
  function Init(title: string): DocState {
    DocState([Some(NodeState(1, Document, title, DefaultName(title), "", None, [], false))],
             1, None, 1, [], 0, 1024 * 1024 * 1024, 2)
  }

  // Changing nodes.

  function AppendText(d: DocState, id: NodeId, chunk: string): Answer<()>
  {
    if !Live(d.slots, id) then (d, Err(UnknownNode))
    else if d.contentBytes > d.maxContentBytes || |chunk| > d.maxContentBytes - d.contentBytes
    then (d, Err(DocumentTooLarge))
    else
      var n := Find(d.slots, id).value;
      (d.(slots := Replace(d.slots, id, n.(content := n.content + chunk)),
          contentBytes := d.contentBytes + |chunk|),
       Ok(()))
  }

  function SetContent(d: DocState, id: NodeId, content: string): Answer<()>
  {
    if !Live(d.slots, id) then (d, Err(UnknownNode))
    else
      var n := Find(d.slots, id).value;
      if |n.content| > d.contentBytes then (d, Err(DocumentTooLarge))
      else
        var retained := d.contentBytes - |n.content|;
        if retained > d.maxContentBytes || |content| > d.maxContentBytes - retained
        then (d, Err(DocumentTooLarge))
        else (d.(slots := Replace(d.slots, id, n.(content := content)), contentBytes := retained + |content|),
              Ok(()))
  }

  function SetTitle(d: DocState, id: NodeId, title: string): Answer<()>
  {
    if !Live(d.slots, id) then (d, Err(UnknownNode))
    else
      var n := Find(d.slots, id).value;
      (d.(slots := Replace(d.slots, id, n.(title := title))), Ok(()))
  }

  function SetFollowTail(d: DocState, id: NodeId, enabled: bool): Answer<()>
  {
    if !Live(d.slots, id) then (d, Err(UnknownNode))
    else
      var n := Find(d.slots, id).value;
      (d.(slots := Replace(d.slots, id, n.(followTail := enabled))), Ok(()))
  }

  /** Duplicates are refused before malformed names are. */
  function SetName(d: DocState, id: NodeId, name: Option<string>): Answer<()>
  {
    if !Live(d.slots, id) then (d, Err(UnknownNode))
    else
      var n := Find(d.slots, id).value;
      if name.Some? && NameInUse(d.slots, n.parent, Some(id), name.value) then (d, Err(DuplicateNodeName))
      else if name.Some? && !IsValidName(name.value) then (d, Err(InvalidNodeName))
      else (d.(slots := Replace(d.slots, id, n.(name := name))), Ok(()))
  }

  // Shared view state.

  /** `swapRemove`: the last entry takes the removed entry's place. */
  function SwapRemove<T>(s: seq<T>, i: nat): (r: seq<T>)
    requires i < |s|
  {
    s[i := s[|s| - 1]][..|s| - 1]
  }

  function First<T(==)>(s: seq<T>, x: T): (i: nat)
    requires x in s
    ensures i < |s| && s[i] == x && x !in s[..i]
  {
    if s[0] == x then 0
    else
      var i := First(s[1..], x);
      assert s[..i + 1] + [x] == [s[0]] + s[1..][..i] + [x];
      assert s[..i + 1] == [s[0]] + s[1..][..i];
      i + 1
  }

  /** Drop the first occurrence of `x`, if there is one. */
  function Drop<T(==)>(s: seq<T>, x: T): seq<T> {
    if x in s then SwapRemove(s, First(s, x)) else s
  }

  /** Dropping an entry moves the last one into its place and leaves all others
      where they are. */
  lemma DropMovesLast<T>(s: seq<T>, x: T, k: nat)
    requires x in s && k < |s| - 1
    ensures |Drop(s, x)| == |s| - 1
    ensures x !in s[..k] && s[k] == x ==> Drop(s, x)[k] == s[|s| - 1]
    ensures x in s[..k] || s[k] != x ==> Drop(s, x)[k] == s[k]
  {
    var i := First(s, x);
    assert k < i ==> s[..i][k] == s[k];
    assert i < k ==> s[..k][i] == x;
  }

  function SetViewRoot(d: DocState, id: NodeId): Answer<()> {
    if !Live(d.slots, id) then (d, Err(UnknownNode)) else (d.(viewRoot := Some(id)), Ok(()))
  }

  function ClearViewRoot(d: DocState): DocState { d.(viewRoot := None) }

  function ResetView(d: DocState): DocState { d.(viewRoot := None, elided := []) }

  function SetElided(d: DocState, id: NodeId, enabled: bool): Answer<()> {
    if !Live(d.slots, id) then (d, Err(UnknownNode))
    else if id in d.elided then (if enabled then d else d.(elided := Drop(d.elided, id)), Ok(()))
    else (if enabled then d.(elided := d.elided + [id]) else d, Ok(()))
  }

  function ToggleElided(d: DocState, id: NodeId): Answer<()> {
    SetElided(d, id, id !in d.elided)
  }

  // Removing nodes.

  function Detach(d: DocState, parent: NodeId, child: NodeId): Answer<()>
  {
    if !Live(d.slots, parent) then (d, Err(UnknownParent))
    else
      var p := Find(d.slots, parent).value;
      (d.(slots := Replace(d.slots, parent, p.(children := Drop(p.children, child)))), Ok(()))
  }

  lemma DetachKeepsLive(d: DocState, parent: NodeId, child: NodeId)
    ensures var e := Detach(d, parent, child).0;
            && e.liveCount == d.liveCount
            && (forall x :: Live(e.slots, x) == Live(d.slots, x))
            && LiveIds(e.slots) == LiveIds(d.slots)
  {
    var e := Detach(d, parent, child).0;
    assert forall i :: 0 <= i < |d.slots| ==> d.slots[i].Some? == e.slots[i].Some?;
    LiveIdsFrame(d.slots, e.slots);
  }

  /** `removeNodeRegistryOnly` on a live node. */
  function Unregister(d: DocState, id: NodeId): DocState
    requires Live(d.slots, id) && d.liveCount > 0
  {
    d.(slots := d.slots[id - 1 := None],
       liveCount := d.liveCount - 1,
       viewRoot := if d.viewRoot == Some(id) then None else d.viewRoot,
       elided := Drop(d.elided, id))
  }

  lemma RestStaysLive(d: DocState, ids: seq<NodeId>)
    requires NoDup(ids) && 0 < |ids| <= d.liveCount
    requires forall x :: x in ids ==> Live(d.slots, x)
    ensures Live(d.slots, ids[0])
    ensures forall x :: x in ids[1..] ==> Live(Unregister(d, ids[0]).slots, x)
  {
    assert ids[0] in ids;
    assert forall x :: x in ids[1..] ==> x in ids && x != ids[0];
    var t := Unregister(d, ids[0]).slots;
    assert forall x :: x != ids[0] ==> Find(t, x) == Find(d.slots, x);
  }

  function UnregisterAll(d: DocState, ids: seq<NodeId>): DocState
    requires NoDup(ids) && |ids| <= d.liveCount
    requires forall x :: x in ids ==> Live(d.slots, x)
    decreases |ids|
  {
    if ids == [] then d
    else
      RestStaysLive(d, ids);
      UnregisterAll(Unregister(d, ids[0]), ids[1..])
  }

  /** The live count is exact; every public operation keeps it so. */
  ghost predicate CountExact(d: DocState) {
    d.liveCount == |LiveIds(d.slots)|
  }

  lemma UnregisterCounts(d: DocState, id: NodeId)
    requires CountExact(d) && Live(d.slots, id)
    ensures d.liveCount > 0 && CountExact(Unregister(d, id))
  {
    LiveIdsWithout(d.slots, id);
  }

  /** The removal loop on any list: it stops at the first id that is not live,
      and a repeated id is not live the second time. */
  ghost function UnregisterEach(d: DocState, ids: seq<NodeId>): (a: Answer<()>)
    requires CountExact(d)
    ensures a.0.contentBytes == d.contentBytes && CountExact(a.0)
    decreases |ids|
  {
    if ids == [] then (d, Ok(()))
    else if !Live(d.slots, ids[0]) then (d, Err(UnknownNode))
    else
      UnregisterCounts(d, ids[0]);
      UnregisterEach(Unregister(d, ids[0]), ids[1..])
  }

  /** The loop completes exactly on distinct live ids, and then unregisters all. */
  lemma {:induction false} UnregisterEachIff(d: DocState, ids: seq<NodeId>)
    requires CountExact(d)
    ensures UnregisterEach(d, ids).1.Ok? <==> NoDup(ids) && forall x :: x in ids ==> Live(d.slots, x)
    ensures UnregisterEach(d, ids).1.Ok? ==> |ids| <= d.liveCount && UnregisterEach(d, ids) == (UnregisterAll(d, ids), Ok(()))
    decreases |ids|
  {
    if ids != [] && Live(d.slots, ids[0]) {
      UnregisterCounts(d, ids[0]);
      var d1 := Unregister(d, ids[0]);
      UnregisterEachIff(d1, ids[1..]);
      assert forall x :: Live(d1.slots, x) <==> Live(d.slots, x) && x != ids[0];
      assert ids == [ids[0]] + ids[1..];
    } else if ids != [] {
      assert ids[0] in ids;
    }
  }

  /** `removeDetachedPostorder`: after an error midway the nodes before it are gone. */
  ghost function RemoveDetached(d: DocState, order: seq<NodeId>, total: nat): Answer<()>
    requires CountExact(d)
  {
    if total > d.contentBytes then (d, Err(ContentAccountingDrift))
    else
      var (e, r) := UnregisterEach(d, order);
      if r.Err? then (e, r) else (e.(contentBytes := d.contentBytes - total), Ok(()))
  }

  /** The content lengths of the listed nodes, added up from the left. */
  function ContentTotal(slots: Slots, ids: seq<NodeId>, total: usize): Result<usize, DocError>
    decreases |ids|
  {
    if ids == [] then Ok(total)
    else if !Live(slots, ids[0]) then Err(UnknownNode)
    else
      var sum := total + |Content(slots, ids[0])|;
      if sum > U64_MAX then Err(ContentAccountingDrift) else ContentTotal(slots, ids[1..], sum)
  }

  lemma {:induction false} ContentTotalIsBytes(slots: Slots, ids: seq<NodeId>, total: usize)
    requires forall x :: x in ids ==> Live(slots, x)
    ensures ContentTotal(slots, ids, total) ==
            if total + BytesOf(slots, ids) > U64_MAX then Err(ContentAccountingDrift) else Ok(total + BytesOf(slots, ids))
    decreases |ids|
  {
    if ids != [] {
      assert ids[0] in ids && forall x :: x in ids[1..] ==> x in ids;
      var sum := total + |Content(slots, ids[0])|;
      if sum <= U64_MAX { ContentTotalIsBytes(slots, ids[1..], sum); }
    }
  }

  lemma {:induction false} UnregisterKeepsBytes(d: DocState, ids: seq<NodeId>)
    requires NoDup(ids) && |ids| <= d.liveCount
    requires forall x :: x in ids ==> Live(d.slots, x)
    ensures var e := UnregisterAll(d, ids);
            e.contentBytes == d.contentBytes && e.root == d.root && e.nextId == d.nextId &&
            e.maxContentBytes == d.maxContentBytes && e.liveCount == d.liveCount - |ids|
    decreases |ids|
  {
    if ids != [] {
      RestStaysLive(d, ids);
      UnregisterKeepsBytes(Unregister(d, ids[0]), ids[1..]);
    }
  }

  /** A document whose tree and node count are right; its bytes may drift. */
  ghost predicate Counted(d: DocState) {
    TreeShaped(d.slots, d.root) && CountExact(d)
  }

  /** Detaching, then unregistering: the last part of the removal. */
  ghost function DetachAndRemove(d: DocState, parent: NodeId, id: NodeId, order: seq<NodeId>, total: nat): Answer<()>
    requires CountExact(d)
  {
    DetachKeepsLive(d, parent, id);
    var (d1, r) := Detach(d, parent, id);
    if r.Err? then (d1, r) else RemoveDetached(d1, order, total)
  }

  /** `removeNode` refuses a node with children, but not a childless root. */
  ghost function RemoveNode(d: DocState, id: NodeId): Answer<()>
    requires Counted(d)
  {
    if !Live(d.slots, id) then (d, Err(UnknownNode))
    else if Kids(d.slots, id) != [] then (d, Err(NodeHasChildren))
    else if |Content(d.slots, id)| > U64_MAX then (d, Err(ContentAccountingDrift))
    else
      match Parent(d.slots, id)
      case None => RemoveDetached(d, [id], |Content(d.slots, id)|)
      case Some(p) => DetachAndRemove(d, p, id, [id], |Content(d.slots, id)|)
  }

  lemma LiveCountPositive(d: DocState, ids: seq<NodeId>)
    requires Counted(d) && NoDup(ids) && forall x :: x in ids ==> Live(d.slots, x)
    ensures |ids| <= d.liveCount
  {
    LiveIdsSound(d.slots);
    Pigeonhole(ids, LiveIds(d.slots));
  }

  /** The collected order, which the stack loop is proved to produce. */
  ghost function PostorderOf(d: DocState, id: NodeId): (order: seq<NodeId>)
    requires Counted(d) && Live(d.slots, id)
    ensures NoDup(order) && |order| <= d.liveCount
    ensures forall x :: x in order <==> Within(d.slots, id, x)
    ensures forall x :: x in order ==> Live(d.slots, x)
  {
    var order := Post(Subtree(d.slots, d.root, id));
    SubtreeTraversal(d.slots, d.root, id);
    assert forall x :: Within(d.slots, id, x) ==> Live(d.slots, x);
    LiveCountPositive(d, order);
    order
  }

  ghost function RemoveSubtree(d: DocState, id: NodeId): Answer<()>
    requires Counted(d)
  {
    if id == d.root then (d, Err(NodeHasChildren))
    else if !Live(d.slots, id) then (d, Err(UnknownNode))
    else
      var order := PostorderOf(d, id);
      var total := BytesOf(d.slots, order);
      if total > U64_MAX then (d, Err(ContentAccountingDrift))
      else if Parent(d.slots, id).None? then (d, Err(UnknownParent))
      else DetachAndRemove(d, Parent(d.slots, id).value, id, order, total)
  }

  /** The removal in terms of what its loops compute. */
  lemma SubtreeSteps(d: DocState, id: NodeId)
    requires Counted(d) && Live(d.slots, id) && id != d.root
    ensures var order := Post(Subtree(d.slots, d.root, id));
            var total := ContentTotal(d.slots, order, 0);
            RemoveSubtree(d, id) ==
            if total.Err? then (d, Err(total.error))
            else if Parent(d.slots, id).None? then (d, Err(UnknownParent))
            else DetachAndRemove(d, Parent(d.slots, id).value, id, order, total.value)
  {
    ContentTotalIsBytes(d.slots, PostorderOf(d, id), 0);
  }
}
