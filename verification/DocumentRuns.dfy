/** Runs of document operations: the invariant, the self-check and the names. */
module DocumentRuns {
  import opened Basics
  import opened Names
  import opened Forests
  import opened DocumentState
  import opened Traversal
  import opened DocumentOps
  import opened DocumentInvariant
  import opened Validation

  datatype Op =
    | Append(parent: NodeId, kind: NodeKind, title: string)
    | ReserveId
    | CommitPrepared(node: NodeState)
    | AppendContent(id: NodeId, chunk: string)
    | ReplaceContent(id: NodeId, content: string)
    | LimitContent(max: usize)
    | Retitle(id: NodeId, title: string)
    | Rename(id: NodeId, name: Option<string>)
    | FollowTail(id: NodeId, enabled: bool)
    | ViewRoot(id: NodeId)
    | UnviewRoot
    | ResetViews
    | Elide(id: NodeId, enabled: bool)
    | ToggleElide(id: NodeId)
    | Remove(id: NodeId)
    | RemoveTree(id: NodeId)

  /** What the callers see to: a prepared leaf is committed under a reserved,
      unoccupied id, and `removeNode` is not pointed at the root. */
  predicate Legal(d: DocState, op: Op) {
    match op
    case CommitPrepared(n) =>
      0 < n.id < d.nextId && !Live(d.slots, n.id) && n.children == [] && n.content == "" && n.parent.Some?
    case Remove(id) => id != d.root
    case _ => true
  }

  ghost function Step(d: DocState, op: Op): (e: DocState)
    requires Invariant(d) && Legal(d, op)
  {
    match op
    case Append(parent, kind, title) => AppendNode(d, parent, kind, title).0
    case ReserveId => Reserve(d).0
    case CommitPrepared(n) => Commit(d, n.parent.value, n).0
    case AppendContent(id, chunk) => AppendText(d, id, chunk).0
    case ReplaceContent(id, content) => SetContent(d, id, content).0
    case LimitContent(max) => d.(maxContentBytes := max)
    case Retitle(id, title) => SetTitle(d, id, title).0
    case Rename(id, name) => SetName(d, id, name).0
    case FollowTail(id, enabled) => SetFollowTail(d, id, enabled).0
    case ViewRoot(id) => SetViewRoot(d, id).0
    case UnviewRoot => ClearViewRoot(d)
    case ResetViews => ResetView(d)
    case Elide(id, enabled) => SetElided(d, id, enabled).0
    case ToggleElide(id) => ToggleElided(d, id).0
    case Remove(id) => RemoveNode(d, id).0
    case RemoveTree(id) => RemoveSubtree(d, id).0
  }

  // Removing single nodes.

  /** On a childless node that is not the root the two removals agree. */
  lemma RemoveNodeIsRemoveSubtree(d: DocState, id: NodeId)
    requires Counted(d) && Live(d.slots, id) && Kids(d.slots, id) == [] && id != d.root
    ensures RemoveNode(d, id) == RemoveSubtree(d, id)
  {
    var f := Subtree(d.slots, d.root, id);
    assert [id][1..] == [];
    assert Shape(d.slots, [id], Cons(id, Nil, Nil));
    ShapeUnique(d.slots, [id], f, Cons(id, Nil, Nil));
    assert Post(Nil) == [] && [] + [id] + [] == [id];
    assert Post(f) == [id];
    assert PostorderOf(d, id) == Post(f);
    assert BytesOf(d.slots, [id]) == |Content(d.slots, id)|;
    assert LinkedUp(d.slots, d.root, id);
  }

  lemma RemoveNodeKeeps(d: DocState, id: NodeId)
    requires Invariant(d) && id != d.root
    ensures Invariant(RemoveNode(d, id).0)
    ensures RemoveNode(d, id).1.Ok? <==> Live(d.slots, id) && Kids(d.slots, id) == []
  {
    if Live(d.slots, id) && Kids(d.slots, id) == [] {
      RemoveNodeIsRemoveSubtree(d, id);
      RemoveSubtreeKeeps(d, id);
    } else if Live(d.slots, id) {
      LiveIdsSound(d.slots);
    }
  }

  /** A childless root is not refused: that removal, alone, leaves a document
      the self-check rejects. */
  lemma RemoveLeafValidIff(d: DocState, id: NodeId)
    requires Invariant(d) && Live(d.slots, id) && Kids(d.slots, id) == []
    ensures RemoveNode(d, id).1 == Ok(())
    ensures Validate(RemoveNode(d, id).0).Ok? <==> id != d.root
  {
    if id != d.root {
      RemoveNodeKeeps(d, id);
      ValidateIffConsistent(RemoveNode(d, id).0);
    } else {
      assert [id][1..] == [];
      LiveIdsSound(d.slots);
      BytesAtLeast(d.slots, LiveIds(d.slots), id);
      UnregisterEachIff(d, [id]);
      UnregisterAllFacts(d, [id]);
      UnregisterKeepsBytes(d, [id]);
    }
  }

  lemma {:induction false} BytesAtLeast(slots: Slots, ids: seq<NodeId>, id: NodeId)
    requires id in ids
    ensures |Content(slots, id)| <= BytesOf(slots, ids)
  {
    if ids[0] != id { BytesAtLeast(slots, ids[1..], id); }
  }

  // Every run.

  lemma StepKeeps(d: DocState, op: Op)
    requires Invariant(d) && Legal(d, op)
    ensures Invariant(Step(d, op))
  {
    match op
    case Append(parent, kind, title) => AppendKeeps(d, parent, kind, title);
    case ReserveId =>
    case CommitPrepared(n) => CommitKeeps(d, n.parent.value, n);
    case AppendContent(id, chunk) => AppendTextKeeps(d, id, chunk);
    case ReplaceContent(id, content) => SetContentKeeps(d, id, content);
    case LimitContent(_) =>
    case Retitle(id, title) => LabelsKeep(d, id, title, false);
    case Rename(id, name) => SetNameKeeps(d, id, name);
    case FollowTail(id, enabled) => LabelsKeep(d, id, "", enabled);
    case ViewRoot(id) => if Live(d.slots, id) { ViewKeeps(d, Some(id), d.elided); }
    case UnviewRoot => ViewKeeps(d, None, d.elided);
    case ResetViews => ViewKeeps(d, None, []);
    case Elide(id, enabled) => SetElidedKeeps(d, id, enabled);
    case ToggleElide(id) => SetElidedKeeps(d, id, id !in d.elided);
    case Remove(id) => RemoveNodeKeeps(d, id);
    case RemoveTree(id) => RemoveSubtreeKeeps(d, id);
  }

  ghost predicate LegalRun(d: DocState, ops: seq<Op>)
    requires Invariant(d)
    decreases |ops|
  {
    ops == [] ||
    (Legal(d, ops[0]) && (StepKeeps(d, ops[0]); LegalRun(Step(d, ops[0]), ops[1..])))
  }

  ghost function Run(d: DocState, ops: seq<Op>): DocState
    requires Invariant(d) && LegalRun(d, ops)
    decreases |ops|
  {
    if ops == [] then d
    else
      StepKeeps(d, ops[0]);
      Run(Step(d, ops[0]), ops[1..])
  }

  lemma InitInvariant(title: string)
    ensures Invariant(Init(title))
  {
    var d := Init(title);
    assert d.slots[..0] == [];
    assert LiveIds(d.slots) == [1];
    assert BytesOf(d.slots, [1]) == 0 by { assert [1][1..] == []; }
    WithinSelf(d.slots, 1);
  }

  lemma {:induction false} RunKeeps(d: DocState, ops: seq<Op>)
    requires Invariant(d) && LegalRun(d, ops)
    ensures Invariant(Run(d, ops))
    decreases |ops|
  {
    if ops != [] {
      StepKeeps(d, ops[0]);
      RunKeeps(Step(d, ops[0]), ops[1..]);
    }
  }

  /** Runs from a new document. */
  ghost predicate LegalFromNew(title: string, ops: seq<Op>) {
    InitInvariant(title);
    LegalRun(Init(title), ops)
  }

  ghost function RunFromNew(title: string, ops: seq<Op>): DocState
    requires LegalFromNew(title, ops)
  {
    InitInvariant(title);
    Run(Init(title), ops)
  }

  /** Every legal run from a new document ends in a consistent document, with
      exact counts, that the self-check accepts. */
  lemma EveryRunValidates(title: string, ops: seq<Op>)
    requires LegalFromNew(title, ops)
    ensures var d := RunFromNew(title, ops);
            && Invariant(d)
            && Validate(d) == Ok((d.liveCount, d.contentBytes))
            && d.liveCount == |LiveIds(d.slots)|
            && d.contentBytes == BytesOf(d.slots, LiveIds(d.slots))
  {
    InitInvariant(title);
    RunKeeps(Init(title), ops);
    ConsistentIsAccepted(Run(Init(title), ops));
  }

  // Sibling names.

  function NameOf(slots: Slots, id: NodeId): Option<string> {
    if Live(slots, id) then Find(slots, id).value.name else None
  }

  ghost predicate SiblingNamesDistinct(slots: Slots) {
    forall p, a, b {:trigger a in Kids(slots, p), b in Kids(slots, p)} ::
      a in Kids(slots, p) && b in Kids(slots, p) && a != b && NameOf(slots, a).Some? ==>
        NameOf(slots, a) != NameOf(slots, b)
  }

  lemma {:induction false} NamesOfIff(slots: Slots, ids: seq<NodeId>, name: string)
    ensures name in NamesOf(slots, ids) <==> exists c :: c in ids && NameOf(slots, c) == Some(name)
  {
    if ids != [] {
      NamesOfIff(slots, ids[1..], name);
      assert forall c :: c in ids <==> c == ids[0] || c in ids[1..];
      assert name in NamesOf(slots, ids) <==>
             NameOf(slots, ids[0]) == Some(name) || name in NamesOf(slots, ids[1..]);
    }
  }

  lemma DefaultChildNameFresh(slots: Slots, parent: NodeId, title: string, c: NodeId)
    requires c in Kids(slots, parent) && DefaultChildName(slots, parent, title).Some?
    ensures NameOf(slots, c) != DefaultChildName(slots, parent, title)
  {
    NamesOfIff(slots, Kids(slots, parent), DefaultChildName(slots, parent, title).value);
  }

  /** The chosen name: free; the plain one if that is free; otherwise the one
      with the least free suffix, which is at most the sibling count plus one. */
  lemma DefaultChildNameLeast(slots: Slots, parent: NodeId, title: string)
    requires DefaultName(title).Some?
    ensures var base, kids := DefaultName(title).value, Kids(slots, parent);
            var name := DefaultChildName(slots, parent, title);
            var used := NamesOf(slots, kids);
            && name.Some? && name.value !in used
            && (base !in used ==> name == Some(base))
            && (base in used ==> exists k: nat ::
                  2 <= k <= |kids| + 1 && name == Some(Candidate(base, k)) &&
                  forall j: nat :: 2 <= j < k ==> Candidate(base, j) in used)
  {
    var base, kids := DefaultName(title).value, Kids(slots, parent);
    var used := NamesOf(slots, kids);
    NamesOfShort(slots, kids);
    if base in used {
      var k := FreeSuffix(used, base, 2);
      PlainAndTaken(used, base, k);
    }
  }

  lemma {:induction false} NamesOfShort(slots: Slots, ids: seq<NodeId>)
    ensures |NamesOf(slots, ids)| <= |ids|
  {
    if ids != [] { NamesOfShort(slots, ids[1..]); }
  }

  /** The plain name takes one used entry of its own. */
  lemma PlainAndTaken(used: seq<string>, base: string, k: nat)
    requires base in used && Taken(used, base, k)
    ensures k <= |used| + 1
  {
    var all := [base] + seq(k - 2, i requires 0 <= i < k - 2 => Candidate(base, i + 2));
    forall i, j | 0 <= i < j < |all|
      ensures all[i] != all[j]
    {
      if i > 0 && all[i] == all[j] { CandidateInjective(base, i + 1, j + 1); }
    }
    NoDupIff(all);
    Pigeonhole(all, used);
  }

  /** No child of the parent carries the leaf's name at this moment. */
  ghost predicate NameFree(slots: Slots, n: NodeState) {
    n.name.None? || n.parent.None? || forall c :: c in Kids(slots, n.parent.value) ==> NameOf(slots, c) != n.name
  }

  /** What a commit does to names and child lists. */
  lemma CommitNames(d: DocState, parent: NodeId, n: NodeState)
    requires Invariant(d) && Live(d.slots, parent)
    requires n.id > 0 && !Live(d.slots, n.id) && n.children == [] && n.parent == Some(parent)
    ensures var s, t := d.slots, Commit(d, parent, n).0.slots;
            && (forall x :: NameOf(t, x) == if x == n.id then n.name else NameOf(s, x))
            && (forall x :: Kids(t, x) ==
                  if x == n.id then [] else if x == parent then Kids(s, x) + [n.id] else Kids(s, x))
            && forall p, c :: c in Kids(s, p) ==> c != n.id
  {
    var s := d.slots;
    assert s[parent - 1] == Find(s, parent);
    forall p, c | c in Kids(s, p)
      ensures c != n.id
    {
      assert LinkedDown(s, p);
    }
  }

  /** A commit keeps sibling names distinct exactly when the leaf's name, chosen
      when it was prepared, is still free. */
  lemma NamesKeptByCommitIff(d: DocState, parent: NodeId, n: NodeState)
    requires Invariant(d) && SiblingNamesDistinct(d.slots)
    requires n.id > 0 && !Live(d.slots, n.id) && n.children == [] && n.parent == Some(parent)
    ensures SiblingNamesDistinct(Commit(d, parent, n).0.slots) <==> NameFree(d.slots, n)
  {
    if Live(d.slots, parent) {
      var s, t := d.slots, Commit(d, parent, n).0.slots;
      CommitNames(d, parent, n);
      if NameFree(s, n) {
        OneMoreName(s, t, parent, n);
      } else {
        var c :| c in Kids(s, parent) && NameOf(s, c) == n.name;
        assert c in Kids(t, parent) && n.id in Kids(t, parent);
      }
    }
  }

  lemma OneMoreName(s: Slots, t: Slots, parent: NodeId, n: NodeState)
    requires SiblingNamesDistinct(s) && forall p, c :: c in Kids(s, p) ==> c != n.id
    requires forall c :: c in Kids(s, parent) && n.name.Some? ==> NameOf(s, c) != n.name
    requires forall x :: NameOf(t, x) == if x == n.id then n.name else NameOf(s, x)
    requires forall x :: Kids(t, x) == if x == n.id then [] else if x == parent then Kids(s, x) + [n.id] else Kids(s, x)
    ensures SiblingNamesDistinct(t)
  {
  }

  lemma NamesKeptByRename(d: DocState, id: NodeId, name: Option<string>)
    requires Invariant(d) && SiblingNamesDistinct(d.slots)
    ensures SiblingNamesDistinct(SetName(d, id, name).0.slots)
  {
    if SetName(d, id, name).1.Ok? {
      var s, t := d.slots, SetName(d, id, name).0.slots;
      assert s[id - 1] == Find(s, id);
      forall p, c | id in Kids(s, p) && c in Kids(s, p) && c != id && name.Some?
        ensures NameOf(s, c) != name
      {
        assert LinkedDown(s, p);
        var i :| 0 <= i < |Kids(s, p)| && Kids(s, p)[i] == c;
      }
      OneNameChanged(s, t, id, name);
    }
  }

  lemma OneNameChanged(s: Slots, t: Slots, id: NodeId, name: Option<string>)
    requires SiblingNamesDistinct(s)
    requires forall x :: NameOf(t, x) == if x == id then name else NameOf(s, x)
    requires forall x :: Kids(t, x) == Kids(s, x)
    requires forall p, c :: id in Kids(s, p) && c in Kids(s, p) && c != id && name.Some? ==> NameOf(s, c) != name
    ensures SiblingNamesDistinct(t)
  {
  }

  lemma NamesKeptByRemoval(d: DocState, id: NodeId, e: DocState)
    requires Invariant(d) && SiblingNamesDistinct(d.slots) && Live(d.slots, id) && Removed(d, id, e)
    ensures SiblingNamesDistinct(e.slots)
  {
    var s, t := d.slots, e.slots;
    forall p, c | c in Kids(t, p)
      ensures c in Kids(s, p)
    {
      assert LinkedDown(s, p);
      DropFacts(Kids(s, p), id);
    }
    assert forall x :: NameOf(t, x) == NameOf(s, x) || NameOf(t, x) == None;
    RemovedNames(s, t);
  }

  lemma RemovedNames(s: Slots, t: Slots)
    requires SiblingNamesDistinct(s)
    requires forall p, c :: c in Kids(t, p) ==> c in Kids(s, p)
    requires forall x :: NameOf(t, x) == NameOf(s, x) || NameOf(t, x) == None
    ensures SiblingNamesDistinct(t)
  {
  }

  ghost predicate SameNames(s: Slots, t: Slots) {
    forall x :: NameOf(t, x) == NameOf(s, x) && Kids(t, x) == Kids(s, x)
  }

  lemma ReplaceKeepsNames(s: Slots, n: NodeState)
    requires IdsMatch(s) && Live(s, n.id)
    requires n.name == Find(s, n.id).value.name && n.children == Find(s, n.id).value.children
    ensures SameNames(s, Replace(s, n.id, n))
  {
    assert s[n.id - 1] == Find(s, n.id);
    assert forall x :: x != n.id ==> Find(Replace(s, n.id, n), x) == Find(s, x);
  }

  lemma EditsKeepNames(d: DocState, id: NodeId, text: string, flag: bool)
    requires IdsMatch(d.slots)
    ensures SameNames(d.slots, AppendText(d, id, text).0.slots)
    ensures SameNames(d.slots, SetContent(d, id, text).0.slots)
    ensures SameNames(d.slots, SetTitle(d, id, text).0.slots)
    ensures SameNames(d.slots, SetFollowTail(d, id, flag).0.slots)
  {
    if Live(d.slots, id) {
      var n := Find(d.slots, id).value;
      assert d.slots[id - 1] == Some(n);
      ReplaceKeepsNames(d.slots, n.(content := n.content + text));
      ReplaceKeepsNames(d.slots, n.(content := text));
      ReplaceKeepsNames(d.slots, n.(title := text));
      ReplaceKeepsNames(d.slots, n.(followTail := flag));
    }
  }

  lemma AppendKeepsNames(d: DocState, parent: NodeId, kind: NodeKind, title: string)
    requires Invariant(d) && SiblingNamesDistinct(d.slots)
    ensures SiblingNamesDistinct(AppendNode(d, parent, kind, title).0.slots)
  {
    var d1, id := Reserve(d).0, d.nextId;
    match Prepare(d1, id, parent, kind, title)
    case Err(_) =>
    case Ok(n) =>
      forall c | c in Kids(d1.slots, parent) && n.name.Some?
        ensures NameOf(d1.slots, c) != n.name
      {
        DefaultChildNameFresh(d1.slots, parent, title, c);
      }
      NamesKeptByCommitIff(d1, parent, n);
  }

  lemma RemovalKeepsNames(d: DocState, id: NodeId)
    requires Invariant(d) && SiblingNamesDistinct(d.slots)
    ensures SiblingNamesDistinct(RemoveSubtree(d, id).0.slots)
    ensures id != d.root ==> SiblingNamesDistinct(RemoveNode(d, id).0.slots)
  {
    RemoveSubtreeKeeps(d, id);
    if RemoveSubtree(d, id).1.Ok? { NamesKeptByRemoval(d, id, RemoveSubtree(d, id).0); }
    if id != d.root {
      RemoveNodeKeeps(d, id);
      if RemoveNode(d, id).1.Ok? { RemoveNodeIsRemoveSubtree(d, id); }
    }
  }

  /** Every commit along the run finds its name free. */
  ghost predicate CommitsFindNamesFree(d: DocState, ops: seq<Op>)
    requires Invariant(d) && LegalRun(d, ops)
    decreases |ops|
  {
    ops == [] ||
    (StepKeeps(d, ops[0]);
     (ops[0].CommitPrepared? ==> NameFree(d.slots, ops[0].node)) && CommitsFindNamesFree(Step(d, ops[0]), ops[1..]))
  }

  /** Sibling names are distinct in every state of the run. */
  ghost predicate DistinctThroughout(d: DocState, ops: seq<Op>)
    requires Invariant(d) && LegalRun(d, ops)
    decreases |ops|
  {
    SiblingNamesDistinct(d.slots) &&
    (ops == [] || (StepKeeps(d, ops[0]); DistinctThroughout(Step(d, ops[0]), ops[1..])))
  }

  lemma StepKeepsNamesIff(d: DocState, op: Op)
    requires Invariant(d) && Legal(d, op)
    requires SiblingNamesDistinct(d.slots)
    ensures SiblingNamesDistinct(Step(d, op).slots) <==> op.CommitPrepared? ==> NameFree(d.slots, op.node)
  {
    match op
    case CommitPrepared(n) => NamesKeptByCommitIff(d, n.parent.value, n);
    case Append(parent, kind, title) => AppendKeepsNames(d, parent, kind, title);
    case Rename(id, name) => NamesKeptByRename(d, id, name);
    case Remove(id) => RemovalKeepsNames(d, id);
    case RemoveTree(id) => RemovalKeepsNames(d, id);
    case AppendContent(id, chunk) => EditsKeepNames(d, id, chunk, false);
    case ReplaceContent(id, content) => EditsKeepNames(d, id, content, false);
    case Retitle(id, title) => EditsKeepNames(d, id, title, false);
    case FollowTail(id, enabled) => EditsKeepNames(d, id, "", enabled);
    case _ =>
  }

  /** Over every run from distinct names: they stay pairwise distinct throughout
      exactly when each commit finds its name free at that moment. */
  lemma {:induction false} RunKeepsNamesIff(d: DocState, ops: seq<Op>)
    requires Invariant(d) && LegalRun(d, ops) && SiblingNamesDistinct(d.slots)
    ensures DistinctThroughout(d, ops) <==> CommitsFindNamesFree(d, ops)
    ensures DistinctThroughout(d, ops) ==> SiblingNamesDistinct(Run(d, ops).slots)
    decreases |ops|
  {
    if ops != [] {
      StepKeeps(d, ops[0]);
      StepKeepsNamesIff(d, ops[0]);
      var e := Step(d, ops[0]);
      if SiblingNamesDistinct(e.slots) {
        RunKeepsNamesIff(e, ops[1..]);
      } else {
        assert !DistinctThroughout(e, ops[1..]);
      }
    }
  }

  /** From a new document, names start distinct, so the same holds. */
  lemma NewDocumentNamesIff(title: string, ops: seq<Op>)
    requires LegalFromNew(title, ops)
    ensures Invariant(Init(title))
    ensures DistinctThroughout(Init(title), ops) <==> CommitsFindNamesFree(Init(title), ops)
    ensures CommitsFindNamesFree(Init(title), ops) ==> SiblingNamesDistinct(RunFromNew(title, ops).slots)
  {
    InitInvariant(title);
    assert forall p :: Kids(Init(title).slots, p) == [];
    RunKeepsNamesIff(Init(title), ops);
  }

  lemma RunCons(d: DocState, op: Op, ops: seq<Op>)
    requires Invariant(d) && Legal(d, op) && Invariant(Step(d, op)) && LegalRun(Step(d, op), ops)
    ensures LegalRun(d, [op] + ops) && Run(d, [op] + ops) == Run(Step(d, op), ops)
  {
    assert ([op] + ops)[1..] == ops;
  }

  /** The leaf titled `title` prepared under the root as long as it has no child. */
  function Leaf(id: NodeId, title: string): NodeState {
    NodeState(id, TextLeaf, title, DefaultName(title), "", Some(1), [], true)
  }

  lemma BothPrepared(title: string)
    ensures var d := Reserve(Reserve(Init("")).0).0;
            && Invariant(d) && Live(d.slots, 1) && Kids(d.slots, 1) == [] && d.nextId == 4
            && Prepare(d, 2, 1, TextLeaf, title) == Ok(Leaf(2, title))
            && Prepare(d, 3, 1, TextLeaf, title) == Ok(Leaf(3, title))
  {
    InitInvariant("");
    StepKeeps(Init(""), ReserveId);
    StepKeeps(Step(Init(""), ReserveId), ReserveId);
    assert NamesOf(Init("").slots, []) == [];
  }

  /** Committed one after the other, the second finds its name taken. */
  lemma SecondClashes(d: DocState, title: string)
    requires Invariant(d) && Live(d.slots, 1) && Kids(d.slots, 1) == [] && d.nextId == 4 && |d.slots| == 1
    requires SiblingNamesDistinct(d.slots) && DefaultName(title).Some?
    ensures LegalRun(d, [CommitPrepared(Leaf(2, title))] + ([CommitPrepared(Leaf(3, title))] + []))
    ensures !SiblingNamesDistinct(
              Run(d, [CommitPrepared(Leaf(2, title))] + ([CommitPrepared(Leaf(3, title))] + [])).slots)
  {
    var a, b := Leaf(2, title), Leaf(3, title);
    var e := Step(d, CommitPrepared(a));
    StepKeeps(d, CommitPrepared(a));
    CommitNames(d, 1, a);
    NamesKeptByCommitIff(d, 1, a);
    assert Kids(e.slots, 1) == [] + [2];
    assert 2 in Kids(e.slots, 1) && NameOf(e.slots, 2) == b.name;
    assert !NameFree(e.slots, b);
    NamesKeptByCommitIff(e, 1, b);
    StepKeeps(e, CommitPrepared(b));
    RunCons(e, CommitPrepared(b), []);
    RunCons(d, CommitPrepared(a), [CommitPrepared(b)] + []);
  }

  lemma TwoReservesFirst(d: DocState, a: Op, b: Op)
    requires Invariant(d) && Invariant(Reserve(Reserve(d).0).0)
    requires LegalRun(Reserve(Reserve(d).0).0, [a] + ([b] + []))
    ensures LegalRun(d, [ReserveId, ReserveId, a, b])
    ensures Run(d, [ReserveId, ReserveId, a, b]) == Run(Reserve(Reserve(d).0).0, [a] + ([b] + []))
  {
    StepKeeps(d, ReserveId);
    RunCons(Step(d, ReserveId), ReserveId, [a] + ([b] + []));
    RunCons(d, ReserveId, [ReserveId] + ([a] + ([b] + [])));
    assert [ReserveId] + ([ReserveId] + ([a] + ([b] + []))) == [ReserveId, ReserveId, a, b];
  }

  /** Two leaves prepared under the root before either is committed get the same
      name, and committing both makes siblings share it. */
  lemma PreparedNamesMayClash(title: string)
    requires DefaultName(title).Some?
    ensures var d := Reserve(Reserve(Init("")).0).0;
            var ops := [ReserveId, ReserveId, CommitPrepared(Leaf(2, title)), CommitPrepared(Leaf(3, title))];
            && Prepare(d, 2, 1, TextLeaf, title) == Ok(Leaf(2, title))
            && Prepare(d, 3, 1, TextLeaf, title) == Ok(Leaf(3, title))
            && LegalFromNew("", ops) && !SiblingNamesDistinct(RunFromNew("", ops).slots)
  {
    BothPrepared(title);
    InitInvariant("");
    var d := Reserve(Reserve(Init("")).0).0;
    assert forall p :: Kids(d.slots, p) == [];
    SecondClashes(d, title);
    TwoReservesFirst(Init(""), CommitPrepared(Leaf(2, title)), CommitPrepared(Leaf(3, title)));
  }
}
