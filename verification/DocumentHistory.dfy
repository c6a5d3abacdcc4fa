/** What a run leaves behind: every node holds what was last written to it, and
    the view state what was last asked for (src/core/document.zig). */
module DocumentHistory {
  import opened Basics
  import opened Names
  import opened Forests
  import opened DocumentState
  import opened Traversal
  import opened DocumentOps
  import opened DocumentInvariant
  import opened DocumentRuns

  /** Why an operation is refused, if it is. */
  ghost function Refusal(d: DocState, op: Op): Option<DocError> {
    match op
    case Append(parent, _, _) => Unless(Live(d.slots, parent), UnknownParent)
    case CommitPrepared(n) => Unless(n.parent.Some? && Live(d.slots, n.parent.value), UnknownParent)
    case AppendContent(id, chunk) =>
      if !Live(d.slots, id) then Some(UnknownNode)
      else Unless(d.contentBytes + |chunk| <= d.maxContentBytes, DocumentTooLarge)
    case ReplaceContent(id, content) =>
      if !Live(d.slots, id) then Some(UnknownNode)
      else
        Unless(d.contentBytes - |Content(d.slots, id)| + |content| <= d.maxContentBytes, DocumentTooLarge)
    case Rename(id, name) =>
      if !Live(d.slots, id) then Some(UnknownNode)
      else if name.None? then None
      else if exists c :: Sibling(d.slots, id, c) && NameOf(d.slots, c) == name then Some(DuplicateNodeName)
      else Unless(IsValidName(name.value), InvalidNodeName)
    case Retitle(id, _) => Unless(Live(d.slots, id), UnknownNode)
    case FollowTail(id, _) => Unless(Live(d.slots, id), UnknownNode)
    case ViewRoot(id) => Unless(Live(d.slots, id), UnknownNode)
    case Elide(id, _) => Unless(Live(d.slots, id), UnknownNode)
    case ToggleElide(id) => Unless(Live(d.slots, id), UnknownNode)
    case Remove(id) =>
      if !Live(d.slots, id) then Some(UnknownNode) else Unless(Kids(d.slots, id) == [], NodeHasChildren)
    case RemoveTree(id) => if id == d.root then Some(NodeHasChildren) else Unless(Live(d.slots, id), UnknownNode)
    case ReserveId | LimitContent(_) | UnviewRoot | ResetViews => None
  }

  function Unless(fine: bool, error: DocError): Option<DocError> {
    if fine then None else Some(error)
  }

  predicate Sibling(slots: Slots, id: NodeId, c: NodeId) {
    c != id && Parent(slots, id).Some? && c in Kids(slots, Parent(slots, id).value)
  }

  ghost predicate Accepted(d: DocState, op: Op) { Refusal(d, op) == None }

  function ErrorOf<T>(r: Result<T, DocError>): Option<DocError> {
    match r
    case Ok(_) => None
    case Err(e) => Some(e)
  }

  /** The error an operation answers with, if it does. */
  ghost function Answered(d: DocState, op: Op): Option<DocError>
    requires Invariant(d) && Legal(d, op)
  {
    match op
    case Append(parent, kind, title) => ErrorOf(AppendNode(d, parent, kind, title).1)
    case CommitPrepared(n) => ErrorOf(Commit(d, n.parent.value, n).1)
    case AppendContent(id, chunk) => ErrorOf(AppendText(d, id, chunk).1)
    case ReplaceContent(id, content) => ErrorOf(SetContent(d, id, content).1)
    case Rename(id, name) => ErrorOf(SetName(d, id, name).1)
    case Retitle(id, title) => ErrorOf(SetTitle(d, id, title).1)
    case FollowTail(id, enabled) => ErrorOf(SetFollowTail(d, id, enabled).1)
    case ViewRoot(id) => ErrorOf(SetViewRoot(d, id).1)
    case Elide(id, enabled) => ErrorOf(SetElided(d, id, enabled).1)
    case ToggleElide(id) => ErrorOf(ToggleElided(d, id).1)
    case Remove(id) => ErrorOf(RemoveNode(d, id).1)
    case RemoveTree(id) => ErrorOf(RemoveSubtree(d, id).1)
    case ReserveId | LimitContent(_) | UnviewRoot | ResetViews => None
  }

  lemma RenameAnswer(d: DocState, id: NodeId, name: Option<string>)
    requires Invariant(d)
    ensures ErrorOf(SetName(d, id, name).1) == Refusal(d, Rename(id, name))
  {
    if Live(d.slots, id) && name.Some? && Parent(d.slots, id).Some? {
      var p := Parent(d.slots, id).value;
      assert LinkedUp(d.slots, d.root, id);
      assert LinkedDown(d.slots, p);
      forall c | Sibling(d.slots, id, c) && NameOf(d.slots, c) == name
        ensures NameInUse(d.slots, Some(p), Some(id), name.value)
      {
        var i :| 0 <= i < |Kids(d.slots, p)| && Kids(d.slots, p)[i] == c;
      }
      if NameInUse(d.slots, Some(p), Some(id), name.value) {
        var i :| 0 <= i < |Kids(d.slots, p)| && Kids(d.slots, p)[i] != id &&
                 NameOf(d.slots, Kids(d.slots, p)[i]) == name;
        assert Sibling(d.slots, id, Kids(d.slots, p)[i]);
      }
    }
  }

  lemma ContentAnswer(d: DocState, id: NodeId, text: string)
    requires Invariant(d)
    ensures ErrorOf(AppendText(d, id, text).1) == Refusal(d, AppendContent(id, text))
    ensures ErrorOf(SetContent(d, id, text).1) == Refusal(d, ReplaceContent(id, text))
  {
    if Live(d.slots, id) {
      LiveIdsSound(d.slots);
      BytesAtLeast(d.slots, LiveIds(d.slots), id);
    }
  }

  lemma TreeRemovalAnswer(d: DocState, id: NodeId)
    requires Invariant(d)
    ensures ErrorOf(RemoveSubtree(d, id).1) == Refusal(d, RemoveTree(id))
    ensures Refusal(d, RemoveTree(id)).Some? ==> RemoveSubtree(d, id).0 == d
  {
    if Live(d.slots, id) && id != d.root { RemoveSubtreeKeeps(d, id); } else { TreeRemovalRefused(d, id); }
  }

  lemma TreeRemovalRefused(d: DocState, id: NodeId)
    requires Counted(d) && (!Live(d.slots, id) || id == d.root)
    ensures RemoveSubtree(d, id) == (d, Err(if id == d.root then NodeHasChildren else UnknownNode))
  {
  }

  lemma LeafRemovalAnswer(d: DocState, id: NodeId)
    requires Invariant(d) && id != d.root
    ensures ErrorOf(RemoveNode(d, id).1) == Refusal(d, Remove(id))
    ensures Refusal(d, Remove(id)).Some? ==> RemoveNode(d, id).0 == d
  {
    if Live(d.slots, id) && Kids(d.slots, id) == [] {
      RemoveNodeIsRemoveSubtree(d, id);
      TreeRemovalAnswer(d, id);
    }
  }

  /** Each operation is refused exactly when, and as, it should be, and a refused
      one changes nothing, except that a refused append has used up an id. */
  lemma RefusedIff(d: DocState, op: Op)
    requires Invariant(d) && Legal(d, op)
    ensures Answered(d, op) == Refusal(d, op)
    ensures !Accepted(d, op) ==> Step(d, op) == if op.Append? then d.(nextId := d.nextId + 1) else d
  {
    match op
    case Rename(id, name) => RenameAnswer(d, id, name);
    case AppendContent(id, chunk) => ContentAnswer(d, id, chunk);
    case ReplaceContent(id, content) => ContentAnswer(d, id, content);
    case Remove(id) => LeafRemovalAnswer(d, id);
    case RemoveTree(id) => TreeRemovalAnswer(d, id);
    case _ =>
  }

  // One node.

  /** What has been written to a node: the texts since its content was last
      replaced, and the last title, name and flag. */
  datatype Written = Written(kind: NodeKind, parent: Option<NodeId>, texts: seq<string>, title: string,
                             name: Option<string>, followTail: bool)

  function Joined(texts: seq<string>): string {
    if texts == [] then "" else Joined(texts[..|texts| - 1]) + texts[|texts| - 1]
  }

  /** What an operation writes to node `x`. */
  ghost function Write(d: DocState, op: Op, x: NodeId, w: Option<Written>): Option<Written> {
    if !Accepted(d, op) then w
    else
      match op
      case Append(parent, kind, title) =>
        if x == d.nextId
        then Some(Written(kind, Some(parent), [], title, DefaultChildName(d.slots, parent, title), kind != StaticFileLeaf))
        else w
      case CommitPrepared(n) =>
        if x == n.id then Some(Written(n.kind, n.parent, [], n.title, n.name, n.followTail)) else w
      case Remove(id) => if x == id then None else w
      case RemoveTree(id) => if Within(d.slots, id, x) then None else w
      case AppendContent(id, chunk) => if x == id && w.Some? then Some(w.value.(texts := w.value.texts + [chunk])) else w
      case ReplaceContent(id, content) => if x == id && w.Some? then Some(w.value.(texts := [content])) else w
      case Retitle(id, title) => if x == id && w.Some? then Some(w.value.(title := title)) else w
      case Rename(id, name) => if x == id && w.Some? then Some(w.value.(name := name)) else w
      case FollowTail(id, enabled) => if x == id && w.Some? then Some(w.value.(followTail := enabled)) else w
      case _ => w
  }

  ghost predicate Holds(slots: Slots, x: NodeId, w: Option<Written>) {
    if w.None? then !Live(slots, x)
    else
      && Live(slots, x)
      && var n := Find(slots, x).value;
         n == NodeState(x, w.value.kind, w.value.title, w.value.name, Joined(w.value.texts), w.value.parent, n.children,
                        w.value.followTail)
  }

  lemma JoinedSnoc(texts: seq<string>, text: string)
    ensures Joined(texts + [text]) == Joined(texts) + text && Joined([text]) == text
  {
    assert (texts + [text])[..|texts|] == texts;
    assert [text][..0] == [] && "" + text == text;
  }

  lemma EditWrites(d: DocState, op: Op, x: NodeId, w: Option<Written>)
    requires Invariant(d) && Legal(d, op) && Accepted(d, op) && Holds(d.slots, x, w)
    requires op.AppendContent? || op.ReplaceContent? || op.Retitle? || op.Rename? || op.FollowTail?
    ensures Holds(Step(d, op).slots, x, Write(d, op, x, w))
  {
    RefusedIff(d, op);
    var n := Find(d.slots, op.id).value;
    assert d.slots[op.id - 1] == Some(n);
    if x == op.id {
      match op
      case AppendContent(_, chunk) => JoinedSnoc(w.value.texts, chunk);
      case ReplaceContent(_, content) => JoinedSnoc([], content);
      case _ =>
    }
  }

  lemma CommitWrites(d: DocState, n: NodeState, x: NodeId, w: Option<Written>)
    requires Invariant(d) && n.parent.Some? && Live(d.slots, n.parent.value) && Holds(d.slots, x, w)
    requires n.id > 0 && !Live(d.slots, n.id) && n.children == [] && n.content == ""
    ensures Holds(Commit(d, n.parent.value, n).0.slots, x,
                  if x == n.id then Some(Written(n.kind, n.parent, [], n.title, n.name, n.followTail)) else w)
  {
    assert d.slots[n.parent.value - 1] == Find(d.slots, n.parent.value);
  }

  lemma RemovalWrites(d: DocState, id: NodeId, x: NodeId, w: Option<Written>)
    requires Invariant(d) && Live(d.slots, id) && id != d.root && Holds(d.slots, x, w)
    ensures Holds(RemoveSubtree(d, id).0.slots, x, if Within(d.slots, id, x) then None else w)
  {
    RemoveSubtreeKeeps(d, id);
  }

  lemma LeafIsAlone(d: DocState, id: NodeId, x: NodeId)
    requires Invariant(d) && Live(d.slots, id) && Kids(d.slots, id) == []
    ensures Within(d.slots, id, x) <==> x == id
  {
    WithinSelf(d.slots, id);
    if Within(d.slots, id, x) && x != id {
      WithinSomeChild(d.slots, d.root, id, x);
    }
  }

  lemma LeafRemovalWrites(d: DocState, id: NodeId, x: NodeId, w: Option<Written>)
    requires Invariant(d) && Accepted(d, Remove(id)) && id != d.root && Holds(d.slots, x, w)
    ensures Holds(RemoveNode(d, id).0.slots, x, if x == id then None else w)
  {
    LeafIsAlone(d, id, x);
    RemoveNodeIsRemoveSubtree(d, id);
    RemovalWrites(d, id, x, w);
  }

  lemma AppendWrites(d: DocState, parent: NodeId, kind: NodeKind, title: string, x: NodeId, w: Option<Written>)
    requires Invariant(d) && Live(d.slots, parent) && Holds(d.slots, x, w)
    ensures Holds(AppendNode(d, parent, kind, title).0.slots, x, Write(d, Append(parent, kind, title), x, w))
  {
    var d1 := Reserve(d).0;
    CommitWrites(d1, Prepare(d1, d.nextId, parent, kind, title).value, x, w);
  }

  /** A successful append answers with the next id, and lists the new leaf last
      under its parent; no other list changes. */
  lemma AppendedLast(d: DocState, parent: NodeId, kind: NodeKind, title: string)
    requires Invariant(d) && Live(d.slots, parent)
    ensures var (e, r) := AppendNode(d, parent, kind, title);
            && r == Ok(d.nextId) && e.nextId == d.nextId + 1 && !Live(d.slots, d.nextId)
            && forall x :: Kids(e.slots, x) ==
                 if x == d.nextId then []
                 else if x == parent then Kids(d.slots, x) + [d.nextId]
                 else Kids(d.slots, x)
  {
    var d1 := Reserve(d).0;
    CommitNames(d1, parent, Prepare(d1, d.nextId, parent, kind, title).value);
  }

  lemma StepWrites(d: DocState, op: Op, x: NodeId, w: Option<Written>)
    requires Invariant(d) && Legal(d, op) && Holds(d.slots, x, w)
    ensures Holds(Step(d, op).slots, x, Write(d, op, x, w))
  {
    RefusedIff(d, op);
    if Accepted(d, op) {
      match op
      case Append(parent, kind, title) => AppendWrites(d, parent, kind, title, x, w);
      case CommitPrepared(n) => CommitWrites(d, n, x, w);
      case Remove(id) => LeafRemovalWrites(d, id, x, w);
      case RemoveTree(id) => RemovalWrites(d, id, x, w);
      case AppendContent(_, _) | ReplaceContent(_, _) | Retitle(_, _) | Rename(_, _) | FollowTail(_, _) =>
        EditWrites(d, op, x, w);
      case _ =>
    }
  }

  /** What a run has written to a node in the end. */
  ghost function WrittenBy(d: DocState, ops: seq<Op>, x: NodeId, w: Option<Written>): Option<Written>
    requires Invariant(d) && LegalRun(d, ops)
    decreases |ops|
  {
    if ops == [] then w
    else
      StepKeeps(d, ops[0]);
      WrittenBy(Step(d, ops[0]), ops[1..], x, Write(d, ops[0], x, w))
  }

  lemma {:induction false} RunWrites(d: DocState, ops: seq<Op>, x: NodeId, w: Option<Written>)
    requires Invariant(d) && LegalRun(d, ops) && Holds(d.slots, x, w)
    ensures Holds(Run(d, ops).slots, x, WrittenBy(d, ops, x, w))
    decreases |ops|
  {
    if ops != [] {
      StepKeeps(d, ops[0]);
      StepWrites(d, ops[0], x, w);
      RunWrites(Step(d, ops[0]), ops[1..], x, Write(d, ops[0], x, w));
    }
  }

  /** Over every run from a new document: each node exists exactly when it was
      created and not removed since, and holds its last replacement followed by
      the texts appended since, in order, and its last title, name and flag. */
  lemma NodesHoldWhatWasWritten(title: string, ops: seq<Op>, x: NodeId)
    requires LegalFromNew(title, ops)
    ensures Invariant(Init(title))
    ensures var w := if x == 1 then Some(Written(Document, None, [], title, DefaultName(title), false)) else None;
            Holds(RunFromNew(title, ops).slots, x, WrittenBy(Init(title), ops, x, w))
  {
    InitInvariant(title);
    var w := if x == 1 then Some(Written(Document, None, [], title, DefaultName(title), false)) else None;
    RunWrites(Init(title), ops, x, w);
  }

  // The view.

  /** Whether node `x` is hidden after an operation. */
  ghost function Hide(d: DocState, op: Op, x: NodeId, hidden: bool): bool {
    if !Accepted(d, op) then hidden
    else
      match op
      case Elide(id, enabled) => if x == id then enabled else hidden
      case ToggleElide(id) => if x == id then !hidden else hidden
      case ResetViews => false
      case Remove(id) => hidden && x != id
      case RemoveTree(id) => hidden && !Within(d.slots, id, x)
      case _ => hidden
  }

  /** The view root after an operation. */
  ghost function Look(d: DocState, op: Op, root: Option<NodeId>): Option<NodeId> {
    if !Accepted(d, op) then root
    else
      match op
      case ViewRoot(id) => Some(id)
      case UnviewRoot | ResetViews => None
      case Remove(id) => if root == Some(id) then None else root
      case RemoveTree(id) => if root.Some? && Within(d.slots, id, root.value) then None else root
      case _ => root
  }

  lemma ElideHides(d: DocState, id: NodeId, enabled: bool, x: NodeId)
    requires Invariant(d) && Live(d.slots, id)
    ensures x in SetElided(d, id, enabled).0.elided <==> if x == id then enabled else x in d.elided
  {
    DropFacts(d.elided, id);
  }

  lemma StepViews(d: DocState, op: Op, x: NodeId)
    requires Invariant(d) && Legal(d, op)
    ensures x in Step(d, op).elided <==> Hide(d, op, x, x in d.elided)
    ensures Step(d, op).viewRoot == Look(d, op, d.viewRoot)
  {
    RefusedIff(d, op);
    if Accepted(d, op) {
      match op
      case Elide(id, enabled) => ElideHides(d, id, enabled, x);
      case ToggleElide(id) => ElideHides(d, id, id !in d.elided, x);
      case Remove(id) =>
        LeafIsAlone(d, id, x);
        if d.viewRoot.Some? { LeafIsAlone(d, id, d.viewRoot.value); }
        RemoveNodeIsRemoveSubtree(d, id);
        RemoveSubtreeKeeps(d, id);
      case RemoveTree(id) => RemoveSubtreeKeeps(d, id);
      case _ =>
    }
  }

  ghost function HiddenBy(d: DocState, ops: seq<Op>, x: NodeId, hidden: bool): bool
    requires Invariant(d) && LegalRun(d, ops)
    decreases |ops|
  {
    if ops == [] then hidden
    else
      StepKeeps(d, ops[0]);
      HiddenBy(Step(d, ops[0]), ops[1..], x, Hide(d, ops[0], x, hidden))
  }

  ghost function LookedAtBy(d: DocState, ops: seq<Op>, root: Option<NodeId>): Option<NodeId>
    requires Invariant(d) && LegalRun(d, ops)
    decreases |ops|
  {
    if ops == [] then root
    else
      StepKeeps(d, ops[0]);
      LookedAtBy(Step(d, ops[0]), ops[1..], Look(d, ops[0], root))
  }

  lemma {:induction false} RunViews(d: DocState, ops: seq<Op>, x: NodeId)
    requires Invariant(d) && LegalRun(d, ops)
    ensures x in Run(d, ops).elided <==> HiddenBy(d, ops, x, x in d.elided)
    ensures Run(d, ops).viewRoot == LookedAtBy(d, ops, d.viewRoot)
    decreases |ops|
  {
    if ops != [] {
      StepKeeps(d, ops[0]);
      StepViews(d, ops[0], x);
      RunViews(Step(d, ops[0]), ops[1..], x);
    }
  }

  /** Over every run from a new document: a node is elided, and the view root is
      what it is, by the last word on it; removal forgets both. */
  lemma ViewsFollowTheLastWord(title: string, ops: seq<Op>, x: NodeId)
    requires LegalFromNew(title, ops)
    ensures Invariant(Init(title))
    ensures x in RunFromNew(title, ops).elided <==> HiddenBy(Init(title), ops, x, false)
    ensures RunFromNew(title, ops).viewRoot == LookedAtBy(Init(title), ops, None)
  {
    InitInvariant(title);
    RunViews(Init(title), ops, x);
  }
}
