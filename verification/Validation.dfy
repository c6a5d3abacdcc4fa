/** The document's self-check (src/core/document.zig, `validate`), and the
    proof that it accepts exactly the consistent documents. */
module Validation {
  import opened Basics
  import opened Forests
  import opened DocumentState
  import opened Traversal

  /** The loop over one node's child list, from index `k` on. */
  function CheckChildren(slots: Slots, id: NodeId, kids: seq<NodeId>, k: nat): Option<DocError>
    requires k <= |kids|
    decreases |kids| - k
  {
    if k == |kids| then None
    else if kids[k] in kids[..k] then Some(DuplicateChildLink)
    else if !Live(slots, kids[k]) then Some(UnknownChild)
    else if Parent(slots, kids[k]) != Some(id) then Some(ChildParentMismatch)
    else CheckChildren(slots, id, kids, k + 1)
  }

  /** What the visitor does with an unseen node: the new byte total, or the
      error found. */
  function Visit(d: DocState, total: usize, node: NodeState): Result<usize, DocError> {
    if total + |node.content| > U64_MAX then Err(ContentAccountingDrift)
    else if node.id == d.root && node.parent.Some? then Err(RootNodeHasParent)
    else if node.id == d.root && node.kind != Document then Err(RootNodeKindMismatch)
    else if node.id != d.root && node.parent.None? then Err(NonRootNodeMissingParent)
    else if node.id != d.root && !Live(d.slots, node.parent.value) then Err(UnknownParent)
    else if node.id != d.root && node.id !in Kids(d.slots, node.parent.value) then Err(ParentMissingChildLink)
    else match CheckChildren(d.slots, node.id, node.children, 0)
      case Some(e) => Err(e)
      case None => Ok(total + |node.content|)
  }

  type Visitor = (usize, NodeState) -> Result<usize, DocError>

  function VisitorOf(d: DocState): Visitor {
    (total: usize, node: NodeState) => Visit(d, total, node)
  }

  function NodeIds(slots: Slots): set<NodeId> {
    set i | 0 <= i < |slots| && slots[i].Some? :: slots[i].value.id
  }

  /** The stack loop around a visitor that refuses a node it has seen;
      `pending` is the stack with its top first. It terminates on every
      table, cyclic ones included: a node is visited at most once. */
  function Walk(slots: Slots, visit: Visitor, pending: seq<NodeId>, seen: set<NodeId>, total: usize)
    : Result<(set<NodeId>, usize), DocError>
    decreases NodeIds(slots) - seen, |pending|
  {
    if pending == [] then Ok((seen, total))
    else match Find(slots, pending[0])
      case None => Err(UnknownNode)
      case Some(node) =>
        if node.id in seen then Err(DuplicateNodeId)
        else match visit(total, node)
          case Err(e) => Err(e)
          case Ok(t) =>
            assert node.id in NodeIds(slots) - seen by { assert slots[pending[0] - 1] == Some(node); }
            Walk(slots, visit, node.children + pending[1..], seen + {node.id}, t)
  }

  predicate AllSeen(slots: Slots, seen: set<NodeId>) {
    forall i :: 0 <= i < |slots| && slots[i].Some? ==> slots[i].value.id in seen
  }

  /** `validate`: the node count and byte total, or the first error. */
  function Validate(d: DocState): Result<(nat, usize), DocError> {
    if !Live(d.slots, d.root) then Err(MissingRootNode)
    else match Walk(d.slots, VisitorOf(d), [d.root], {}, 0)
      case Err(e) => Err(e)
      case Ok((seen, total)) =>
        if |seen| != d.liveCount then Err(UnreachableNode)
        else if !AllSeen(d.slots, seen) then Err(UnreachableNode)
        else if total != d.contentBytes then Err(ContentAccountingDrift)
        else if d.viewRoot.Some? && !Live(d.slots, d.viewRoot.value) then Err(UnknownViewRootNode)
        else if exists i :: 0 <= i < |d.elided| && !Live(d.slots, d.elided[i]) then Err(UnknownElidedNode)
        else Ok((d.liveCount, total))
  }

  ghost predicate LocallyGood(d: DocState, x: NodeId) {
    && Live(d.slots, x)
    && (x == d.root ==> GoodRoot(d.slots, d.root))
    && LinkedUp(d.slots, d.root, x)
    && LinkedDown(d.slots, x)
  }

  lemma {:induction false} CheckChildrenIff(slots: Slots, id: NodeId, kids: seq<NodeId>, k: nat)
    requires k <= |kids|
    ensures CheckChildren(slots, id, kids, k).None? <==>
            forall j :: k <= j < |kids| ==>
              kids[j] !in kids[..j] && Live(slots, kids[j]) && Parent(slots, kids[j]) == Some(id)
    decreases |kids| - k
  {
    if k < |kids| { CheckChildrenIff(slots, id, kids, k + 1); }
  }

  lemma NoDupByPrefixes<T>(s: seq<T>)
    ensures NoDup(s) <==> forall j :: 0 <= j < |s| ==> s[j] !in s[..j]
  {
    NoDupIff(s);
    if forall j :: 0 <= j < |s| ==> s[j] !in s[..j] {
      forall i, j | 0 <= i < j < |s|
        ensures s[i] != s[j]
      {
        assert s[..j][i] == s[i];
      }
    }
  }

  /** Off the accounting, the visitor accepts exactly the locally good nodes. */
  lemma VisitIff(d: DocState, total: usize, x: NodeId)
    requires IdsMatch(d.slots) && Live(d.slots, x)
    ensures Visit(d, total, Find(d.slots, x).value).Ok? <==>
            total + |Content(d.slots, x)| <= U64_MAX && LocallyGood(d, x)
    ensures var r := Visit(d, total, Find(d.slots, x).value);
            r.Ok? ==> r.value == total + |Content(d.slots, x)|
  {
    var kids := Kids(d.slots, x);
    CheckChildrenIff(d.slots, x, kids, 0);
    NoDupByPrefixes(kids);
    assert LinkedDown(d.slots, x) <==>
           forall j :: 0 <= j < |kids| ==>
             kids[j] !in kids[..j] && Live(d.slots, kids[j]) && Parent(d.slots, kids[j]) == Some(x);
  }

  /** `good` holds exactly the live nodes the visitor accepts when their
      bytes fit. */
  ghost predicate Accepts(slots: Slots, visit: Visitor, good: set<NodeId>) {
    forall x, total: usize :: Live(slots, x) ==>
      var r := visit(total, Find(slots, x).value);
      && (r.Ok? <==> total + |Content(slots, x)| <= U64_MAX && x in good)
      && (r.Ok? ==> r.value == total + |Content(slots, x)|)
  }

  ghost function GoodNodes(d: DocState): (good: set<NodeId>)
    requires IdsMatch(d.slots)
    ensures forall x :: x in good <==> LocallyGood(d, x)
    ensures Accepts(d.slots, VisitorOf(d), good)
  {
    LiveIdsSound(d.slots);
    var good := set x | x in LiveIds(d.slots) && LocallyGood(d, x);
    assert Accepts(d.slots, VisitorOf(d), good) by {
      forall x, total: usize | Live(d.slots, x)
        ensures var r := Visit(d, total, Find(d.slots, x).value);
                && (r.Ok? <==> total + |Content(d.slots, x)| <= U64_MAX && x in good)
                && (r.Ok? ==> r.value == total + |Content(d.slots, x)|)
      {
        VisitIff(d, total, x);
      }
    }
    good
  }

  function Elements<T>(s: seq<T>): set<T> {
    set x | x in s
  }

  lemma ConsFacts(slots: Slots, seen: set<NodeId>, id: NodeId, s: seq<NodeId>)
    ensures seen + Elements([id] + s) == seen + {id} + Elements(s)
    ensures BytesOf(slots, [id] + s) == |Content(slots, id)| + BytesOf(slots, s)
    ensures forall x :: x in [id] + s <==> x == id || x in s
  {
    assert ([id] + s)[1..] == s;
  }

  /** One visit unfolds one node of the forest. */
  lemma UnfoldNode(slots: Slots, pending: seq<NodeId>, h: Forest) returns (f: Forest)
    requires pending != [] && Live(slots, pending[0]) && Shape(slots, Kids(slots, pending[0]) + pending[1..], h)
    ensures Shape(slots, pending, f) && Pre(f) == [pending[0]] + Pre(h)
  {
    var kids, tail := ShapeSplit(slots, Kids(slots, pending[0]), pending[1..], h);
    PreAppend(kids, tail);
    f := Cons(pending[0], kids, tail);
  }

  lemma FoldNode(slots: Slots, pending: seq<NodeId>, f: Forest) returns (id: NodeId, h: Forest)
    requires Shape(slots, pending, f) && f.Cons? && NoDup(Pre(f))
    ensures pending != [] && pending[0] == id && Live(slots, id)
    ensures Shape(slots, Kids(slots, id) + pending[1..], h) && Pre(f) == [id] + Pre(h)
    ensures NoDup(Pre(h)) && id !in Pre(h)
  {
    id, h := f.id, Append(f.kids, f.rest);
    PreAppend(f.kids, f.rest);
    assert Pre(f) == [id] + Pre(h);
    NoDupCons(id, Pre(h));
    ShapeAppend(slots, Kids(slots, id), f.kids, pending[1..], f.rest);
  }

  /** What a successful walk of `order` leaves behind. */
  ghost predicate Walked(slots: Slots, good: set<NodeId>, seen: set<NodeId>, total: usize, order: seq<NodeId>,
                         r: Result<(set<NodeId>, usize), DocError>) {
    && NoDup(order)
    && (forall x :: x in order ==> x !in seen && x in good)
    && total + BytesOf(slots, order) <= U64_MAX
    && r == Ok((seen + Elements(order), total + BytesOf(slots, order)))
  }

  lemma WalkedCons(slots: Slots, good: set<NodeId>, seen: set<NodeId>, total: usize, id: NodeId, order: seq<NodeId>,
                   r: Result<(set<NodeId>, usize), DocError>)
    requires id in good && id !in seen && total + |Content(slots, id)| <= U64_MAX
    requires Walked(slots, good, seen + {id}, total + |Content(slots, id)|, order, r)
    ensures Walked(slots, good, seen, total, [id] + order, r)
  {
    ConsFacts(slots, seen, id, order);
    NoDupCons(id, order);
  }

  lemma WalkHead(slots: Slots, visit: Visitor, good: set<NodeId>, pending: seq<NodeId>,
                 seen: set<NodeId>, total: usize)
    requires IdsMatch(slots) && Accepts(slots, visit, good)
    requires pending != [] && Walk(slots, visit, pending, seen, total).Ok?
    ensures Live(slots, pending[0]) && pending[0] in good && pending[0] !in seen
    ensures total + |Content(slots, pending[0])| <= U64_MAX
    ensures NodeIds(slots) - (seen + {pending[0]}) < NodeIds(slots) - seen
  {
    var node := Find(slots, pending[0]).value;
    assert slots[pending[0] - 1] == Some(node);
    assert visit(total, node).Ok?;
    assert pending[0] in NodeIds(slots) - seen;
  }

  lemma WalkStep(slots: Slots, visit: Visitor, good: set<NodeId>, pending: seq<NodeId>,
                 seen: set<NodeId>, total: usize)
    requires IdsMatch(slots) && Accepts(slots, visit, good)
    requires pending != [] && Live(slots, pending[0]) && pending[0] in good && pending[0] !in seen
    requires total + |Content(slots, pending[0])| <= U64_MAX
    ensures Walk(slots, visit, pending, seen, total) ==
            Walk(slots, visit, Kids(slots, pending[0]) + pending[1..], seen + {pending[0]},
                 total + |Content(slots, pending[0])|)
  {
    var node := Find(slots, pending[0]).value;
    assert slots[pending[0] - 1] == Some(node);
    assert visit(total, node) == Ok(total + |node.content|);
  }

  lemma WalkedNothing(slots: Slots, good: set<NodeId>, seen: set<NodeId>, total: usize)
    ensures Walked(slots, good, seen, total, [], Ok((seen, total)))
  {
    assert seen + Elements([]) == seen;
  }

  /** One step back from what the rest of the walk unfolded. */
  lemma WalkUnfoldsStep(slots: Slots, visit: Visitor, good: set<NodeId>, pending: seq<NodeId>,
                        seen: set<NodeId>, total: usize, h: Forest) returns (f: Forest)
    requires IdsMatch(slots) && Accepts(slots, visit, good)
    requires pending != [] && Live(slots, pending[0]) && pending[0] in good && pending[0] !in seen
    requires total + |Content(slots, pending[0])| <= U64_MAX
    requires var id := pending[0];
             var next, t := Kids(slots, id) + pending[1..], total + |Content(slots, id)|;
             && Shape(slots, next, h)
             && Walked(slots, good, seen + {id}, t, Pre(h), Walk(slots, visit, next, seen + {id}, t))
    ensures Shape(slots, pending, f)
    ensures Walked(slots, good, seen, total, Pre(f), Walk(slots, visit, pending, seen, total))
  {
    f := UnfoldNode(slots, pending, h);
    WalkStep(slots, visit, good, pending, seen, total);
    WalkedCons(slots, good, seen, total, pending[0], Pre(h), Walk(slots, visit, pending, seen, total));
  }

  /** A successful walk has unfolded a forest of distinct, good, unseen nodes. */
  lemma {:induction false} WalkUnfolds(slots: Slots, visit: Visitor, good: set<NodeId>, pending: seq<NodeId>,
                                       seen: set<NodeId>, total: usize)
    returns (f: Forest)
    requires IdsMatch(slots) && Accepts(slots, visit, good) && Walk(slots, visit, pending, seen, total).Ok?
    ensures Shape(slots, pending, f)
    ensures Walked(slots, good, seen, total, Pre(f), Walk(slots, visit, pending, seen, total))
    decreases NodeIds(slots) - seen, |pending|
  {
    if pending == [] {
      f := Nil;
      WalkedNothing(slots, good, seen, total);
    } else {
      WalkHead(slots, visit, good, pending, seen, total);
      WalkStep(slots, visit, good, pending, seen, total);
      var h := WalkUnfolds(slots, visit, good, Kids(slots, pending[0]) + pending[1..], seen + {pending[0]},
                           total + |Content(slots, pending[0])|);
      f := WalkUnfoldsStep(slots, visit, good, pending, seen, total, h);
    }
  }

  /** Conversely, the walk succeeds on such a forest. */
  lemma {:induction false} WalkSucceeds(slots: Slots, visit: Visitor, good: set<NodeId>, pending: seq<NodeId>, f: Forest,
                                        seen: set<NodeId>, total: usize)
    requires IdsMatch(slots) && Accepts(slots, visit, good) && Shape(slots, pending, f) && NoDup(Pre(f))
    requires forall x :: x in Pre(f) ==> x !in seen && x in good
    requires total + BytesOf(slots, Pre(f)) <= U64_MAX
    ensures Walked(slots, good, seen, total, Pre(f), Walk(slots, visit, pending, seen, total))
    decreases |Pre(f)|
  {
    if f.Nil? {
      assert seen + Elements([]) == seen;
    } else {
      var id, h := FoldNode(slots, pending, f);
      ConsFacts(slots, seen, id, Pre(h));
      var t := total + |Content(slots, id)|;
      WalkSucceeds(slots, visit, good, Kids(slots, id) + pending[1..], h, seen + {id}, t);
      WalkStep(slots, visit, good, pending, seen, total);
      WalkedCons(slots, good, seen, total, id, Pre(h), Walk(slots, visit, pending, seen, total));
    }
  }

  lemma {:induction false} ElementCount<T>(s: seq<T>)
    requires NoDup(s)
    ensures |Elements(s)| == |s|
  {
    if s != [] {
      var t := s[1..];
      assert s == [s[0]] + t;
      ElementCount(t);
      assert Elements(s) == {s[0]} + Elements(t);
    }
  }

  /** Acceptance means consistency: in particular every live node is reached
      from the root exactly once, over mutual links. */
  lemma AcceptedIsConsistent(d: DocState)
    requires IdsMatch(d.slots) && Validate(d).Ok?
    ensures Consistent(d)
  {
    var good := GoodNodes(d);
    var f := WalkUnfolds(d.slots, VisitorOf(d), good, [d.root], {}, 0);
    var order := Pre(f);
    assert {} + Elements(order) == Elements(order);
    AllSeenIsTree(d, f);
    ElementCount(order);
  }

  lemma AllSeenIsTree(d: DocState, f: Forest)
    requires IdsMatch(d.slots) && Shape(d.slots, [d.root], f) && NoDup(Pre(f))
    requires forall x :: x in Pre(f) ==> LocallyGood(d, x)
    requires AllSeen(d.slots, Elements(Pre(f)))
    ensures TreeShaped(d.slots, d.root)
    ensures |Pre(f)| == |LiveIds(d.slots)|
    ensures BytesOf(d.slots, Pre(f)) == BytesOf(d.slots, LiveIds(d.slots))
  {
    forall x | Live(d.slots, x)
      ensures x in Pre(f)
    {
      assert d.slots[x - 1].Some?;
    }
    AllGoodIsLinked(d, f);
    forall x | Live(d.slots, x)
      ensures Within(d.slots, d.root, x)
    {
      PreIffWithin(d.slots, d.root, d.root, f, x);
    }
    CoveringOrder(d.slots, [d.root], f);
  }

  lemma AllGoodIsLinked(d: DocState, f: Forest)
    requires IdsMatch(d.slots) && Shape(d.slots, [d.root], f)
    requires forall x :: x in Pre(f) ==> LocallyGood(d, x)
    requires forall x :: Live(d.slots, x) ==> x in Pre(f)
    ensures Linked(d.slots, d.root)
  {
    PreHasIds(d.slots, [d.root], f);
    assert d.root in [d.root];
  }

  lemma CoveringOrder(slots: Slots, ids: seq<NodeId>, f: Forest)
    requires Shape(slots, ids, f) && NoDup(Pre(f))
    requires forall x :: Live(slots, x) ==> x in Pre(f)
    ensures |Pre(f)| == |LiveIds(slots)| && BytesOf(slots, Pre(f)) == BytesOf(slots, LiveIds(slots))
  {
    PreHasIds(slots, ids, f);
    LiveIdsSound(slots);
    SameElementsSameMultiset(Pre(f), LiveIds(slots));
    BytesPermutation(slots, Pre(f), LiveIds(slots));
  }

  lemma TreeWalk(d: DocState)
    requires TreeShaped(d.slots, d.root) && BytesOf(d.slots, LiveIds(d.slots)) <= U64_MAX
    ensures Walk(d.slots, VisitorOf(d), [d.root], {}, 0) ==
            Ok((Elements(LiveIds(d.slots)), BytesOf(d.slots, LiveIds(d.slots))))
  {
    DocumentTraversal(d.slots, d.root);
    var f := Subtree(d.slots, d.root, d.root);
    var order, ids := Pre(f), LiveIds(d.slots);
    BytesPermutation(d.slots, order, ids);
    LiveIdsSound(d.slots);
    var good := GoodNodes(d);
    assert forall x :: x in order ==> x in good;
    WalkSucceeds(d.slots, VisitorOf(d), good, [d.root], f, {}, 0);
    assert {} + Elements(order) == Elements(ids);
  }

  lemma LiveIdsAllSeen(slots: Slots)
    requires IdsMatch(slots)
    ensures AllSeen(slots, Elements(LiveIds(slots))) && |Elements(LiveIds(slots))| == |LiveIds(slots)|
  {
    var ids := LiveIds(slots);
    LiveIdsSound(slots);
    ElementCount(ids);
    assert forall i :: 0 <= i < |slots| && slots[i].Some? ==> Live(slots, i + 1);
  }

  lemma ConsistentIsAccepted(d: DocState)
    requires Consistent(d)
    ensures Validate(d) == Ok((d.liveCount, d.contentBytes))
  {
    TreeWalk(d);
    LiveIdsAllSeen(d.slots);
  }

  /** On a well-formed tree whose bytes add up in 64 bits the check says which
      number or view id is wrong, the first of them in this order. */
  lemma ValidateNamesTheFault(d: DocState)
    requires TreeShaped(d.slots, d.root) && BytesOf(d.slots, LiveIds(d.slots)) <= U64_MAX
    ensures var bytes := BytesOf(d.slots, LiveIds(d.slots));
            Validate(d) ==
            if d.liveCount != |LiveIds(d.slots)| then Err(UnreachableNode)
            else if d.contentBytes != bytes then Err(ContentAccountingDrift)
            else if exists v :: d.viewRoot == Some(v) && !Live(d.slots, v) then Err(UnknownViewRootNode)
            else if exists e :: e in d.elided && !Live(d.slots, e) then Err(UnknownElidedNode)
            else Ok((|LiveIds(d.slots)|, bytes))
  {
    TreeWalk(d);
    LiveIdsAllSeen(d.slots);
    if e :| e in d.elided && !Live(d.slots, e) {
      var i :| 0 <= i < |d.elided| && d.elided[i] == e;
    }
    assert forall i :: 0 <= i < |d.elided| ==> d.elided[i] in d.elided;
  }

  /** `validate` accepts exactly the consistent documents, on every table whose
      nodes sit in the slots of their ids. */
  lemma ValidateIffConsistent(d: DocState)
    requires IdsMatch(d.slots)
    ensures Validate(d).Ok? <==> Consistent(d)
    ensures Validate(d).Ok? ==> Validate(d).value == (d.liveCount, d.contentBytes)
  {
    if Validate(d).Ok? { AcceptedIsConsistent(d); }
    if Consistent(d) { ConsistentIsAccepted(d); }
  }

  /** Off that discipline the check can be fooled: a stray slot holding a node
      with the root's own id is accepted although the root never reaches it. */
  lemma MisplacedNodeIsAccepted()
    ensures exists d :: Validate(d).Ok? && Live(d.slots, 2) && !Within(d.slots, d.root, 2)
  {
    var node := NodeState(1, Document, "demo", None, "", None, [], false);
    var d := DocState([Some(node), Some(node)], 1, None, 1, [], 0, 0, 3);
    assert CheckChildren(d.slots, 1, [], 0) == None;
    assert VisitorOf(d)(0, node) == Ok(0);
    assert [] + [d.root][1..] == [];
    assert {} + {1} == {1};
    assert Walk(d.slots, VisitorOf(d), [], {1}, 0) == Ok(({1}, 0));
    assert Walk(d.slots, VisitorOf(d), [d.root], {}, 0) == Ok(({1}, 0));
    assert Validate(d).Ok?;
    if Within(d.slots, 1, 2) {
      WithinParent(d.slots, 1, 2);
      assert false;
    }
  }
}
