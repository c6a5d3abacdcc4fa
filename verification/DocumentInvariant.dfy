/** What every mutation keeps, and what removal removes. */
module DocumentInvariant {
  import opened Basics
  import opened Forests
  import opened DocumentState
  import opened Traversal
  import opened DocumentOps

  // Changes that leave the tree alone.

  /** Equal up to titles, names, contents and follow-tail flags. */
  ghost predicate SameTree(s: Slots, t: Slots) {
    && |s| == |t|
    && forall x :: Live(s, x) == Live(t, x) && Kids(s, x) == Kids(t, x) && Parent(s, x) == Parent(t, x)
         && (Live(s, x) ==> (Find(s, x).value.id == Find(t, x).value.id &&
                             Find(s, x).value.kind == Find(t, x).value.kind))
  }

  lemma SameTreePath(s: Slots, t: Slots, top: NodeId, x: NodeId)
    requires SameTree(s, t) && Within(s, top, x)
    ensures Within(t, top, x)
  {
    var p :| PathFromTo(s, top, x, p);
    assert PathFromTo(t, top, x, p);
  }

  lemma SameTreeKeeps(s: Slots, t: Slots, root: NodeId)
    requires SameTree(s, t) && TreeShaped(s, root)
    ensures TreeShaped(t, root) && LiveIds(s) == LiveIds(t)
  {
    forall i | 0 <= i < |s|
      ensures s[i].Some? == t[i].Some?
      ensures t[i].Some? ==> t[i].value.id == i + 1
    {
      assert Live(s, i + 1) == Live(t, i + 1);
      assert Find(s, i + 1) == s[i] && Find(t, i + 1) == t[i];
    }
    LiveIdsFrame(s, t);
    SameTreeLinked(s, t, root);
    forall x | Live(t, x)
      ensures Within(t, root, x)
    {
      SameTreePath(s, t, root, x);
    }
  }

  lemma SameTreeLinked(s: Slots, t: Slots, root: NodeId)
    requires SameTree(s, t) && Linked(s, root) && IdsMatch(t)
    ensures Linked(t, root)
  {
    forall x | Live(t, x)
      ensures LinkedUp(t, root, x) && LinkedDown(t, x)
    {
      assert LinkedUp(s, root, x) && LinkedDown(s, x);
    }
  }

  /** Replacing one node's content moves the total by the difference. */
  lemma {:induction false} BytesReplace(s: Slots, t: Slots, id: NodeId, ids: seq<NodeId>)
    requires forall x :: x != id ==> Content(s, x) == Content(t, x)
    requires NoDup(ids)
    ensures BytesOf(t, ids) ==
            BytesOf(s, ids) + if id in ids then |Content(t, id)| - |Content(s, id)| else 0
  {
    if ids != [] {
      assert ids == [ids[0]] + ids[1..];
      BytesReplace(s, t, id, ids[1..]);
    }
  }

  /** A replacement that keeps id, kind and links keeps the invariant when it
      moves the byte count by the content's difference. */
  lemma ReplaceKeeps(d: DocState, e: DocState, n: NodeState)
    requires Invariant(d) && Live(d.slots, n.id)
    requires var o := Find(d.slots, n.id).value;
             n == o.(title := n.title, name := n.name, content := n.content, followTail := n.followTail)
    requires e == d.(slots := Replace(d.slots, n.id, n), contentBytes := e.contentBytes)
    requires e.contentBytes == d.contentBytes + |n.content| - |Content(d.slots, n.id)|
    ensures Invariant(e)
  {
    var s, t := d.slots, e.slots;
    assert forall x :: x != n.id ==> Find(t, x) == Find(s, x);
    assert Find(t, n.id) == Some(n);
    assert SameTree(s, t);
    SameTreeKeeps(s, t, d.root);
    LiveIdsSound(s);
    BytesReplace(s, t, n.id, LiveIds(s));
    assert forall i :: 0 <= i < |d.elided| ==> Live(t, d.elided[i]);
  }

  lemma AppendTextKeeps(d: DocState, id: NodeId, chunk: string)
    requires Invariant(d)
    ensures Invariant(AppendText(d, id, chunk).0)
  {
    if AppendText(d, id, chunk).1.Ok? {
      var n := Find(d.slots, id).value;
      assert d.slots[id - 1] == Some(n);
      ReplaceKeeps(d, AppendText(d, id, chunk).0, n.(content := n.content + chunk));
    }
  }

  lemma SetContentKeeps(d: DocState, id: NodeId, content: string)
    requires Invariant(d)
    ensures Invariant(SetContent(d, id, content).0)
  {
    if SetContent(d, id, content).1.Ok? {
      var n := Find(d.slots, id).value;
      assert d.slots[id - 1] == Some(n);
      ReplaceKeeps(d, SetContent(d, id, content).0, n.(content := content));
    }
  }

  lemma LabelsKeep(d: DocState, id: NodeId, title: string, flag: bool)
    requires Invariant(d)
    ensures Invariant(SetTitle(d, id, title).0) && Invariant(SetFollowTail(d, id, flag).0)
  {
    if Live(d.slots, id) {
      var n := Find(d.slots, id).value;
      assert d.slots[id - 1] == Some(n);
      ReplaceKeeps(d, SetTitle(d, id, title).0, n.(title := title));
      ReplaceKeeps(d, SetFollowTail(d, id, flag).0, n.(followTail := flag));
    }
  }

  lemma SetNameKeeps(d: DocState, id: NodeId, name: Option<string>)
    requires Invariant(d)
    ensures Invariant(SetName(d, id, name).0)
  {
    if SetName(d, id, name).1.Ok? {
      var n := Find(d.slots, id).value;
      assert d.slots[id - 1] == Some(n);
      ReplaceKeeps(d, SetName(d, id, name).0, n.(name := name));
    }
  }

  // Swap-removal.

  lemma {:induction false} SwapRemoveFacts<T>(s: seq<T>, i: nat)
    requires i < |s| && NoDup(s)
    ensures NoDup(SwapRemove(s, i))
    ensures forall x :: x in SwapRemove(s, i) <==> x in s && x != s[i]
  {
    var r := SwapRemove(s, i);
    var n := |s| - 1;
    NoDupIff(s);
    NoDupIff(r);
    forall x | x in s && x != s[i]
      ensures x in r
    {
      var j :| 0 <= j < |s| && s[j] == x;
      if j == n { assert r[i] == x; } else { assert r[j] == x; }
    }
  }

  lemma DropFacts<T>(s: seq<T>, x: T)
    requires NoDup(s)
    ensures NoDup(Drop(s, x))
    ensures forall y :: y in Drop(s, x) <==> y in s && y != x
  {
    if x in s { SwapRemoveFacts(s, First(s, x)); }
  }

  /** A view change keeps the invariant when it lists live nodes, once each. */
  lemma ViewKeeps(d: DocState, viewRoot: Option<NodeId>, elided: seq<NodeId>)
    requires Invariant(d) && NoDup(elided)
    requires viewRoot.Some? ==> Live(d.slots, viewRoot.value)
    requires forall x :: x in elided ==> Live(d.slots, x)
    ensures Invariant(d.(viewRoot := viewRoot, elided := elided))
  {
    assert forall i :: 0 <= i < |elided| ==> elided[i] in elided;
  }

  lemma SetElidedKeeps(d: DocState, id: NodeId, enabled: bool)
    requires Invariant(d)
    ensures Invariant(SetElided(d, id, enabled).0)
  {
    DropFacts(d.elided, id);
    assert NoDup([id]) by { assert [id][1..] == []; }
    NoDupConcat(d.elided, [id]);
    assert forall x :: x in d.elided ==> Live(d.slots, x);
    if Live(d.slots, id) {
      ViewKeeps(d, d.viewRoot, SetElided(d, id, enabled).0.elided);
    }
  }

  // Adding a node.

  /** Storing a fresh leaf and listing it under a live parent. */
  lemma CommitKeepsTree(s: Slots, root: NodeId, parent: NodeId, n: NodeState, t: Slots)
    requires TreeShaped(s, root) && Live(s, parent) && !Live(s, n.id) && n.id > 0
    requires n.children == [] && n.parent == Some(parent)
    requires forall x :: Find(t, x) ==
               if x == n.id then Some(n)
               else if x == parent then Some(Find(s, parent).value.(children := Kids(s, parent) + [n.id]))
               else Find(s, x)
    ensures TreeShaped(t, root)
  {
    forall i | 0 <= i < |t| && t[i].Some?
      ensures t[i].value.id == i + 1
    {
      assert Find(t, i + 1) == t[i];
      assert Live(s, i + 1) ==> Find(s, i + 1) == s[i];
    }
    CommitKeepsLinks(s, root, parent, n, t);
    forall x | Live(t, x)
      ensures Within(t, root, x)
    {
      var y := if x == n.id then parent else x;
      assert Within(s, root, y);
      CommitKeepsPath(s, root, parent, n, t, y);
      if x == n.id {
        WithinStep(t, parent, x);
        WithinTransitive(t, root, parent, x);
      }
    }
  }

  lemma CommitKeepsPath(s: Slots, root: NodeId, parent: NodeId, n: NodeState, t: Slots, x: NodeId)
    requires Within(s, root, x) && Live(s, parent) && !Live(s, n.id)
    requires forall y :: Live(s, y) ==> Live(t, y) && Parent(t, y) == Parent(s, y)
    ensures Within(t, root, x)
  {
    var p :| PathFromTo(s, root, x, p);
    assert PathFromTo(t, root, x, p);
  }

  lemma CommitKeepsLinks(s: Slots, root: NodeId, parent: NodeId, n: NodeState, t: Slots)
    requires TreeShaped(s, root) && Live(s, parent) && !Live(s, n.id) && n.id > 0
    requires n.children == [] && n.parent == Some(parent)
    requires forall x :: Find(t, x) ==
               if x == n.id then Some(n)
               else if x == parent then Some(Find(s, parent).value.(children := Kids(s, parent) + [n.id]))
               else Find(s, x)
    ensures GoodRoot(t, root)
    ensures forall x :: Live(t, x) ==> LinkedUp(t, root, x) && LinkedDown(t, x)
  {
    forall x | Live(t, x)
      ensures LinkedUp(t, root, x) && LinkedDown(t, x)
    {
      if x != n.id {
        assert LinkedUp(s, root, x) && LinkedDown(s, x);
      }
      if x == parent {
        assert [n.id][1..] == [];
        NoDupConcat(Kids(s, parent), [n.id]);
      }
    }
  }

  /** Committing a prepared leaf, at once or later, keeps the invariant: the
      id must be reserved and its slot empty. */
  lemma CommitKeeps(d: DocState, parent: NodeId, n: NodeState)
    requires Invariant(d) && 0 < n.id < d.nextId && !Live(d.slots, n.id)
    requires n.children == [] && n.parent == Some(parent) && n.content == ""
    ensures Invariant(Commit(d, parent, n).0)
  {
    if Live(d.slots, parent) {
      var e := Commit(d, parent, n).0;
      var p := Find(d.slots, parent).value;
      assert d.slots[parent - 1] == Some(p);
      assert forall x :: Find(Replace(d.slots, parent, p.(children := p.children + [n.id])), x) ==
                         if x == parent then Some(p.(children := p.children + [n.id])) else Find(d.slots, x);
      CommitKeepsTree(d.slots, d.root, parent, n, e.slots);
      CommitCounts(d, e, n.id);
      assert forall i :: 0 <= i < |e.elided| ==> Live(e.slots, e.elided[i]);
    }
  }

  lemma CommitCounts(d: DocState, e: DocState, id: NodeId)
    requires !Live(d.slots, id)
    requires forall x :: Live(e.slots, x) == (x == id || Live(d.slots, x))
    requires forall x :: Content(e.slots, x) == Content(d.slots, x)
    ensures |LiveIds(e.slots)| == |LiveIds(d.slots)| + 1
    ensures BytesOf(e.slots, LiveIds(e.slots)) == BytesOf(d.slots, LiveIds(d.slots))
  {
    var a, b := LiveIds(d.slots), LiveIds(e.slots);
    LiveIdsSound(d.slots);
    LiveIdsSound(e.slots);
    NoDupCons(id, a);
    SameElementsSameMultiset(b, [id] + a);
    BytesPermutation(e.slots, b, [id] + a);
    assert ([id] + a)[1..] == a;
    BytesFrame(e.slots, d.slots, a);
  }

  lemma AppendKeeps(d: DocState, parent: NodeId, kind: NodeKind, title: string)
    requires Invariant(d)
    ensures Invariant(AppendNode(d, parent, kind, title).0)
  {
    var d1, id := Reserve(d).0, d.nextId;
    assert Invariant(d1);
    match Prepare(d1, id, parent, kind, title)
    case Err(_) =>
    case Ok(n) => CommitKeeps(d1, parent, n);
  }

  // Removing a subtree.

  lemma {:induction false} UnregisterAllFacts(d: DocState, ids: seq<NodeId>)
    requires NoDup(ids) && |ids| <= d.liveCount && NoDup(d.elided)
    requires forall x :: x in ids ==> Live(d.slots, x)
    ensures var e := UnregisterAll(d, ids);
            && |e.slots| == |d.slots|
            && (forall x :: Find(e.slots, x) == if x in ids then None else Find(d.slots, x))
            && e.viewRoot == (if d.viewRoot.Some? && d.viewRoot.value in ids then None else d.viewRoot)
            && NoDup(e.elided) && (forall x :: x in e.elided <==> x in d.elided && x !in ids)
    decreases |ids|
  {
    if ids != [] {
      RestStaysLive(d, ids);
      var d1 := Unregister(d, ids[0]);
      DropFacts(d.elided, ids[0]);
      UnregisterAllFacts(d1, ids[1..]);
      assert ids == [ids[0]] + ids[1..];
      assert forall x :: x != ids[0] ==> Find(d1.slots, x) == Find(d.slots, x);
      assert Find(d1.slots, ids[0]) == None;
    }
  }

  /** `t` is `s` without the subtree at `id`; the parent's list is swap-removed. */
  ghost predicate SubtreeGone(s: Slots, id: NodeId, t: Slots) {
    && Parent(s, id).Some?
    && |t| == |s|
    && forall x: NodeId :: Find(t, x) ==
         if Within(s, id, x) then None
         else if Some(x) == Parent(s, id) && Live(s, x)
         then Some(Find(s, x).value.(children := Drop(Kids(s, x), id)))
         else Find(s, x)
  }

  lemma SurvivorPath(s: Slots, root: NodeId, id: NodeId, t: Slots, x: NodeId)
    requires TreeShaped(s, root) && SubtreeGone(s, id, t) && Live(t, x)
    ensures Within(t, root, x)
  {
    assert Live(s, x) && Within(s, root, x);
    var p :| PathFromTo(s, root, x, p);
    forall i | 0 <= i < |p|
      ensures Live(t, p[i]) && Parent(t, p[i]) == Parent(s, p[i])
    {
      PathTail(s, p, i);
      if Within(s, id, p[i]) {
        WithinTransitive(s, id, p[i], x);
        assert false;
      }
    }
    assert PathFromTo(t, root, x, p);
  }

  lemma SurvivorLinks(s: Slots, root: NodeId, id: NodeId, t: Slots, x: NodeId)
    requires TreeShaped(s, root) && Live(s, id) && SubtreeGone(s, id, t) && Live(t, x)
    ensures LinkedUp(t, root, x) && LinkedDown(t, x)
  {
    assert LinkedUp(s, root, x) && LinkedDown(s, x);
    WithinSelf(s, id);
    forall c | c in Kids(s, x) && c != id
      ensures Live(t, c) && Parent(t, c) == Some(x)
    {
      if Within(s, id, c) {
        WithinParent(s, id, c);
        assert false;
      }
    }
    DropFacts(Kids(s, x), id);
    assert id in Kids(s, x) ==> Parent(s, id) == Some(x);
    if x != root {
      var p := Parent(s, x).value;
      assert LinkedDown(s, p);
      if Within(s, id, p) {
        WithinStep(s, p, x);
        WithinTransitive(s, id, p, x);
        assert false;
      }
      DropFacts(Kids(s, p), id);
    }
  }

  lemma RemovalKeepsTree(s: Slots, root: NodeId, id: NodeId, t: Slots)
    requires TreeShaped(s, root) && Live(s, id) && id != root && SubtreeGone(s, id, t)
    ensures TreeShaped(t, root)
  {
    forall i | 0 <= i < |t| && t[i].Some?
      ensures t[i].value.id == i + 1
    {
      assert Find(t, i + 1) == t[i] && Find(s, i + 1) == s[i];
    }
    if Within(s, id, root) {
      WithinParent(s, id, root);
      assert false;
    }
    assert GoodRoot(t, root);
    forall x | Live(t, x)
      ensures LinkedUp(t, root, x) && LinkedDown(t, x) && Within(t, root, x)
    {
      SurvivorPath(s, root, id, t, x);
      SurvivorLinks(s, root, id, t, x);
    }
  }

  lemma RemovalCounts(s: Slots, t: Slots, order: seq<NodeId>)
    requires NoDup(order) && forall x :: x in order ==> Live(s, x)
    requires forall x :: Live(t, x) <==> Live(s, x) && x !in order
    requires forall x :: Live(t, x) ==> Content(t, x) == Content(s, x)
    ensures |LiveIds(s)| == |order| + |LiveIds(t)|
    ensures BytesOf(s, LiveIds(s)) == BytesOf(s, order) + BytesOf(t, LiveIds(t))
  {
    LiveIdsSound(s);
    LiveIdsSound(t);
    NoDupConcat(order, LiveIds(t));
    SameElementsSameMultiset(LiveIds(s), order + LiveIds(t));
    BytesPermutation(s, LiveIds(s), order + LiveIds(t));
    BytesConcat(s, order, LiveIds(t));
    BytesFrame(s, t, LiveIds(t));
  }

  /** The table with the listed slots emptied. */
  function Without(s: Slots, ids: seq<NodeId>): (t: Slots)
    ensures |t| == |s| && forall x :: Find(t, x) == if x in ids then None else Find(s, x)
  {
    seq(|s|, i requires 0 <= i < |s| => if i + 1 in ids then None else s[i])
  }

  /** The bytes below a node are part of the document's. */
  lemma ListedBytes(s: Slots, order: seq<NodeId>)
    requires NoDup(order) && forall x :: x in order ==> Live(s, x)
    ensures BytesOf(s, order) <= BytesOf(s, LiveIds(s))
  {
    RemovalCounts(s, Without(s, order), order);
  }

  lemma SubtreeBytes(d: DocState, id: NodeId)
    requires Counted(d) && Live(d.slots, id)
    ensures BytesOf(d.slots, PostorderOf(d, id)) <= BytesOf(d.slots, LiveIds(d.slots))
  {
    ListedBytes(d.slots, PostorderOf(d, id));
  }

  /** The value `removeSubtree` leaves: exactly the subtree is gone. */
  ghost predicate Removed(d: DocState, id: NodeId, e: DocState)
    requires Counted(d) && Live(d.slots, id)
  {
    && SubtreeGone(d.slots, id, e.slots)
    && e.contentBytes == d.contentBytes - BytesOf(d.slots, PostorderOf(d, id))
    && e.liveCount == d.liveCount - |PostorderOf(d, id)|
    && e.viewRoot == (if d.viewRoot.Some? && Within(d.slots, id, d.viewRoot.value) then None else d.viewRoot)
    && NoDup(e.elided) && (forall x :: x in e.elided <==> x in d.elided && !Within(d.slots, id, x))
    && e.root == d.root && e.maxContentBytes == d.maxContentBytes && e.nextId == d.nextId
  }

  lemma DetachIsDrop(d: DocState, id: NodeId)
    requires Counted(d) && Live(d.slots, id) && id != d.root && Parent(d.slots, id).Some?
    ensures var p := Parent(d.slots, id).value; var (e, r) := Detach(d, p, id);
            && r == Ok(()) && Live(d.slots, p) && !Within(d.slots, id, p)
            && e == d.(slots := e.slots) && |e.slots| == |d.slots|
            && (forall x :: Find(e.slots, x) ==
                  if x == p then Some(Find(d.slots, p).value.(children := Drop(Kids(d.slots, p), id)))
                  else Find(d.slots, x))
  {
    var p := Parent(d.slots, id).value;
    assert LinkedUp(d.slots, d.root, id);
    assert d.slots[p - 1] == Find(d.slots, p);
    if Within(d.slots, id, p) {
      DepthStep(d.slots, d.root, p, id);
      DepthGrows(d.slots, d.root, id, p);
      assert false;
    }
  }

  lemma DetachedRemoval(d: DocState, d1: DocState, id: NodeId, order: seq<NodeId>)
    requires Counted(d) && Live(d.slots, id) && id != d.root && NoDup(d.elided)
    requires Parent(d.slots, id).Some?
    requires order == PostorderOf(d, id) && BytesOf(d.slots, order) <= d.contentBytes
    requires d1 == Detach(d, Parent(d.slots, id).value, id).0
    requires forall x :: x in order ==> Live(d1.slots, x)
    requires |order| <= d1.liveCount && CountExact(d1)
    ensures var (e, r) := RemoveDetached(d1, order, BytesOf(d.slots, order));
            r == Ok(()) && Removed(d, id, e)
  {
    RemoveDetachedIff(d1, order, BytesOf(d.slots, order));
    UnregisteredIsRemoved(d, d1, id, order);
  }

  /** On distinct live ids the loop fails only for want of bytes, and then at once. */
  lemma RemoveDetachedIff(d: DocState, order: seq<NodeId>, total: nat)
    requires CountExact(d) && NoDup(order) && forall x :: x in order ==> Live(d.slots, x)
    ensures |order| <= d.liveCount
    ensures RemoveDetached(d, order, total) ==
            if total > d.contentBytes then (d, Err(ContentAccountingDrift))
            else (UnregisterAll(d, order).(contentBytes := d.contentBytes - total), Ok(()))
  {
    UnregisterEachIff(d, order);
  }

  lemma UnregisteredIsRemoved(d: DocState, d1: DocState, id: NodeId, order: seq<NodeId>)
    requires Counted(d) && Live(d.slots, id) && id != d.root && NoDup(d.elided)
    requires Parent(d.slots, id).Some?
    requires order == PostorderOf(d, id) && BytesOf(d.slots, order) <= d.contentBytes
    requires d1 == Detach(d, Parent(d.slots, id).value, id).0
    requires forall x :: x in order ==> Live(d1.slots, x)
    requires |order| <= d1.liveCount
    ensures Removed(d, id, UnregisterAll(d1, order).(contentBytes := d.contentBytes - BytesOf(d.slots, order)))
  {
    DetachIsDrop(d, id);
    UnregisterAllFacts(d1, order);
    UnregisterKeepsBytes(d1, order);
  }

  /** From a counted document whose bytes suffice, `removeSubtree` succeeds and
      removes exactly the node and its descendants. */
  lemma RemoveSubtreeExact(d: DocState, id: NodeId)
    requires Counted(d) && NoDup(d.elided) && Live(d.slots, id) && id != d.root
    requires BytesOf(d.slots, PostorderOf(d, id)) <= d.contentBytes
    ensures RemoveSubtree(d, id).1 == Ok(()) && Removed(d, id, RemoveSubtree(d, id).0)
  {
    assert LinkedUp(d.slots, d.root, id);
    DetachIsDrop(d, id);
    var d1 := Detach(d, Parent(d.slots, id).value, id).0;
    DetachKeepsLive(d, Parent(d.slots, id).value, id);
    DetachedRemoval(d, d1, id, PostorderOf(d, id));
  }

  /** The node has left its parent's list and nothing else has changed: it is
      live, names its parent, and is listed by nobody. */
  ghost predicate Orphaned(d: DocState, id: NodeId, e: DocState) {
    && e == d.(slots := e.slots) && |e.slots| == |d.slots|
    && Parent(d.slots, id).Some? && Live(d.slots, Parent(d.slots, id).value)
    && (forall p :: id !in Kids(e.slots, p))
    && forall x :: Find(e.slots, x) ==
         if x == Parent(d.slots, id).value
         then Some(Find(d.slots, x).value.(children := Drop(Kids(d.slots, x), id)))
         else Find(d.slots, x)
  }

  lemma DetachOrphans(d: DocState, id: NodeId)
    requires Counted(d) && Live(d.slots, id) && id != d.root
    ensures Parent(d.slots, id).Some? && Orphaned(d, id, Detach(d, Parent(d.slots, id).value, id).0)
  {
    assert LinkedUp(d.slots, d.root, id);
    DetachIsDrop(d, id);
    var p, e := Parent(d.slots, id).value, Detach(d, Parent(d.slots, id).value, id).0;
    assert LinkedDown(d.slots, p);
    DropFacts(Kids(d.slots, p), id);
    forall q
      ensures id !in Kids(e.slots, q)
    {
      assert Live(d.slots, q) ==> LinkedDown(d.slots, q);
    }
  }

  /** On any counted document `removeSubtree` succeeds exactly when the stored
      total covers the subtree's bytes. It reports drift otherwise, and unless
      the bytes do not even add up in 64 bits the node is detached by then. */
  lemma RemoveSubtreeSucceedsIff(d: DocState, id: NodeId)
    requires Counted(d) && Live(d.slots, id) && id != d.root
    ensures var (e, r) := RemoveSubtree(d, id);
            var bytes := BytesOf(d.slots, PostorderOf(d, id));
            && (r == Ok(()) <==> bytes <= d.contentBytes)
            && (bytes > d.contentBytes ==>
                  r == Err(ContentAccountingDrift) && if bytes > U64_MAX then e == d else Orphaned(d, id, e))
  {
    DetachOrphans(d, id);
    var p, order := Parent(d.slots, id).value, PostorderOf(d, id);
    DetachIsDrop(d, id);
    DetachKeepsLive(d, p, id);
    RemoveDetachedIff(Detach(d, p, id).0, order, BytesOf(d.slots, order));
  }

  /** `removeSubtree` on an invariant document: total, exact, and restoring. */
  lemma RemoveSubtreeKeeps(d: DocState, id: NodeId)
    requires Invariant(d)
    ensures var (e, r) := RemoveSubtree(d, id);
            && Invariant(e)
            && (r.Ok? <==> Live(d.slots, id) && id != d.root)
            && (r.Ok? ==> Removed(d, id, e))
            && (r.Err? ==> e == d && r.error != ContentAccountingDrift)
  {
    if Live(d.slots, id) && id != d.root {
      SubtreeBytes(d, id);
      RemoveSubtreeExact(d, id);
      RemovedIsInvariant(d, id, RemoveSubtree(d, id).0);
    }
  }

  lemma RemovedIsInvariant(d: DocState, id: NodeId, e: DocState)
    requires Invariant(d) && Live(d.slots, id) && id != d.root && Removed(d, id, e)
    ensures Invariant(e)
  {
    RemovalKeepsTree(d.slots, d.root, id, e.slots);
    RemovalCounts(d.slots, e.slots, PostorderOf(d, id));
    assert forall i :: 0 <= i < |e.elided| ==> e.elided[i] in e.elided && e.elided[i] in d.elided;
    assert forall x :: x in d.elided ==> Live(d.slots, x);
  }
}
