/** The live document as the daemon holds it (src/core/document.zig): node
    objects in a slot table, updated in place by loops over explicit stacks.
    Every method is proved against the functions on the document's value. */
module LiveDocument {
  import opened Basics
  import Decimal
  import opened Names
  import opened Forests
  import opened DocumentState
  import opened Traversal
  import opened DocumentOps
  import Validation
  import Domains
  import Selectors

  class Node {
    const id: NodeId
    const kind: NodeKind
    var title: string
    var name: Option<string>
    var content: string
    var parent: Option<NodeId>
    var children: seq<NodeId>
    var followTail: bool

    constructor (id: NodeId, kind: NodeKind, title: string, parent: Option<NodeId>)
      ensures Value() == NodeState(id, kind, title, None, "", parent, [], true)
    {
      this.id, this.kind, this.title, this.parent := id, kind, title, parent;
      name, content, children, followTail := None, "", [], true;
    }

    ghost function Value(): NodeState
      reads this
    {
      NodeState(id, kind, title, name, content, parent, children, followTail)
    }
  }

  class Document {
    var slots: seq<Node?>
    const root: NodeId := 1
    var viewRoot: Option<NodeId>
    var liveCount: nat
    var elided: seq<NodeId>
    var contentBytes: usize
    var maxContentBytes: usize
    var nextId: NodeId

    /** The values of the nodes in the table. */
    ghost var table: Slots

    ghost function Nodes(): set<Node>
      reads this
    {
      set n: Node | n in slots
    }

    /** `table` mirrors the node objects, each of which sits in the slot of its
        own id (`setNodeSlot` sees to that). */
    ghost predicate Valid()
      reads this, Nodes()
    {
      && |table| == |slots|
      && forall i :: 0 <= i < |slots| ==>
           if slots[i] == null then table[i] == None
           else slots[i].id == i + 1 && table[i] == Some(slots[i].Value())
    }

    ghost function State(): DocState
      reads this
    {
      DocState(table, root, viewRoot, liveCount, elided, contentBytes, maxContentBytes, nextId)
    }

    constructor (title: string)
      ensures Valid() && fresh(Nodes())
      ensures State() == Init(title)
    {
      var node := new Node(1, NodeKind.Document, title, None);
      var name := ComputeDefaultName(title);
      slots := [node];
      viewRoot, liveCount, elided := None, 1, [];
      contentBytes, maxContentBytes, nextId := 0, 1024 * 1024 * 1024, 2;
      new;
      node.name := name;
      node.followTail := false;
      table := [Some(node.Value())];
    }

    function FindNode(id: NodeId): (n: Node?)
      requires Valid()
      reads this, Nodes()
      ensures (n == null) == !Live(table, id)
      ensures n != null ==> n in Nodes() && n.id == id && Find(table, id) == Some(n.Value())
    {
      if 0 < id <= |slots| then slots[id - 1] else null
    }

    // Adding nodes.

    method ReserveNodeId() returns (id: NodeId)
      requires Valid()
      modifies this`nextId
      ensures Valid()
      ensures (State(), id) == Reserve(old(State()))
    {
      id := nextId;
      nextId := nextId + 1;
    }

    method DefaultChildNameFor(parentId: NodeId, title: string) returns (name: Option<string>)
      requires Valid()
      ensures name == DefaultChildName(table, parentId, title)
    {
      ghost var used := NamesOf(table, Kids(table, parentId));
      var base := ComputeDefaultName(title);
      if base.None? {
        return None;
      }
      var taken := SiblingNameInUse(Some(parentId), None, base.value);
      UsedIff(table, parentId, base.value);
      if !taken {
        return base;
      }
      var suffix := 2;
      var candidate := Candidate(base.value, suffix);
      taken := SiblingNameInUse(Some(parentId), None, candidate);
      UsedIff(table, parentId, candidate);
      TakenBounded(used, base.value, suffix);
      while taken
        invariant Taken(used, base.value, suffix) && suffix <= |used| + 2
        invariant candidate == Candidate(base.value, suffix) && (taken <==> candidate in used)
        invariant FreeSuffix(used, base.value, 2) == FreeSuffix(used, base.value, suffix)
        decreases |used| + 2 - suffix
      {
        assert Taken(used, base.value, suffix + 1);
        TakenBounded(used, base.value, suffix + 1);
        suffix := suffix + 1;
        candidate := Candidate(base.value, suffix);
        taken := SiblingNameInUse(Some(parentId), None, candidate);
        UsedIff(table, parentId, candidate);
      }
      name := Some(candidate);
      SuffixChosen(table, parentId, title, suffix);
    }

    static lemma SuffixChosen(s: Slots, parentId: NodeId, title: string, k: nat)
      requires DefaultName(title).Some?
      requires var base, used := DefaultName(title).value, NamesOf(s, Kids(s, parentId));
               && base in used && Taken(used, base, k) && Candidate(base, k) !in used
               && FreeSuffix(used, base, 2) == FreeSuffix(used, base, k)
      ensures DefaultChildName(s, parentId, title) == Some(Candidate(DefaultName(title).value, k))
    {
    }

    static lemma UsedIff(s: Slots, parentId: NodeId, name: string)
      ensures NameInUse(s, Some(parentId), None, name) <==> name in NamesOf(s, Kids(s, parentId))
    {
      UsedAmong(s, Kids(s, parentId), name);
    }

    static lemma {:induction false} UsedAmong(s: Slots, ids: seq<NodeId>, name: string)
      ensures name in NamesOf(s, ids) <==>
              exists i :: 0 <= i < |ids| && Live(s, ids[i]) && Find(s, ids[i]).value.name == Some(name)
    {
      if ids != [] {
        var rest := ids[1..];
        UsedAmong(s, rest, name);
        assert name in NamesOf(s, ids) <==>
               (Live(s, ids[0]) && Find(s, ids[0]).value.name == Some(name)) || name in NamesOf(s, rest);
        if i :| 0 <= i < |ids| && Live(s, ids[i]) && Find(s, ids[i]).value.name == Some(name) {
          assert i > 0 ==> rest[i - 1] == ids[i];
        }
        if name in NamesOf(s, rest) {
          var i :| 0 <= i < |rest| && Live(s, rest[i]) && Find(s, rest[i]).value.name == Some(name);
          assert ids[i + 1] == rest[i];
        }
      }
    }

    method SiblingNameInUse(parentId: Option<NodeId>, exempt: Option<NodeId>, name: string) returns (used: bool)
      requires Valid()
      ensures used <==> NameInUse(table, parentId, exempt, name)
    {
      if parentId.None? {
        return false;
      }
      var parent := FindNode(parentId.value);
      if parent == null {
        return false;
      }
      for i := 0 to |parent.children|
        invariant forall j :: 0 <= j < i ==>
          var c := parent.children[j];
          !(Some(c) != exempt && Live(table, c) && Find(table, c).value.name == Some(name))
      {
        var childId := parent.children[i];
        if Some(childId) == exempt {
          continue;
        }
        var child := FindNode(childId);
        if child != null && child.name == Some(name) {
          assert Kids(table, parentId.value)[i] == childId;
          return true;
        }
      }
      used := false;
    }

    /** The prepared node is new and belongs to no table yet. */
    method PrepareNodeWithId(id: NodeId, parentId: NodeId, kind: NodeKind, title: string)
      returns (node: Node?, error: DocError)
      requires Valid()
      ensures node != null ==> fresh(node) && Prepare(State(), id, parentId, kind, title) == Ok(node.Value())
      ensures node == null ==> Prepare(State(), id, parentId, kind, title) == Err(error)
    {
      error := UnknownParent;
      var parent := FindNode(parentId);
      if parent == null {
        return null, error;
      }
      var name := DefaultChildNameFor(parentId, title);
      node := new Node(id, kind, title, Some(parentId));
      node.name := name;
      if kind == StaticFileLeaf {
        node.followTail := false;
      }
    }

    method CommitPreparedNode(parentId: NodeId, node: Node) returns (r: Result<(), DocError>)
      requires Valid() && node !in Nodes() && node.id > 0
      modifies this, Nodes()
      ensures Valid() && Nodes() <= old(Nodes()) + {node}
      ensures (State(), r) == old(Commit(State(), parentId, node.Value()))
    {
      var parent := FindNode(parentId);
      if parent == null {
        return Err(UnknownParent);
      }
      parent.children := parent.children + [node.id];
      table := Replace(table, parentId, parent.Value());
      SetNodeSlot(node.id, node);
      liveCount := liveCount + 1;
      r := Ok(());
    }

    /** Grow the table with empty slots, then store. */
    method SetNodeSlot(id: NodeId, node: Node)
      requires Valid() && id > 0 && node.id == id
      modifies this`slots, this`table
      ensures Valid() && Nodes() <= old(Nodes()) + {node}
      ensures table == SetSlot(old(table), id, node.Value())
    {
      while |slots| < id
        invariant Valid() && |old(slots)| <= |slots| && (|slots| == |old(slots)| || |slots| <= id)
        invariant slots[..|old(slots)|] == old(slots) && Nodes() == old(Nodes())
        invariant forall i :: |old(slots)| <= i < |slots| ==> slots[i] == null
        invariant table[..|old(slots)|] == old(table)
        decreases id - |slots|
      {
        slots := slots + [null];
        table := table + [None];
      }
      slots := slots[id - 1 := node];
      table := table[id - 1 := Some(node.Value())];
      assert table == SetSlot(old(table), id, node.Value());
    }

    method AppendNode(parentId: NodeId, kind: NodeKind, title: string) returns (r: Result<NodeId, DocError>)
      requires Valid() && nextId > 0
      modifies this, Nodes()
      ensures Valid() && fresh(Nodes() - old(Nodes()))
      ensures (State(), r) == DocumentOps.AppendNode(old(State()), parentId, kind, title)
    {
      var id := ReserveNodeId();
      var node, error := PrepareNodeWithId(id, parentId, kind, title);
      if node == null {
        return Err(error);
      }
      var committed := CommitPreparedNode(parentId, node);
      r := match committed case Ok(_) => Ok(id) case Err(e) => Err(e);
    }

    // Changing nodes.

    method AppendTextToNode(id: NodeId, chunk: string) returns (r: Result<(), DocError>)
      requires Valid()
      modifies this, Nodes()
      ensures Valid() && slots == old(slots)
      ensures (State(), r) == AppendText(old(State()), id, chunk)
    {
      var node := FindNode(id);
      if node == null {
        return Err(UnknownNode);
      }
      if contentBytes > maxContentBytes || |chunk| > maxContentBytes - contentBytes {
        return Err(DocumentTooLarge);
      }
      node.content := node.content + chunk;
      table := Replace(table, id, node.Value());
      contentBytes := contentBytes + |chunk|;
      r := Ok(());
    }

    method SetNodeContent(id: NodeId, content: string) returns (r: Result<(), DocError>)
      requires Valid()
      modifies this, Nodes()
      ensures Valid() && slots == old(slots)
      ensures (State(), r) == SetContent(old(State()), id, content)
    {
      var node := FindNode(id);
      if node == null {
        return Err(UnknownNode);
      }
      var existing := |node.content|;
      if existing > contentBytes {
        return Err(DocumentTooLarge);
      }
      var retained := contentBytes - existing;
      if retained > maxContentBytes || |content| > maxContentBytes - retained {
        return Err(DocumentTooLarge);
      }
      node.content := content;
      table := Replace(table, id, node.Value());
      contentBytes := contentBytes - existing + |content|;
      r := Ok(());
    }

    method SetNodeName(id: NodeId, name: Option<string>) returns (r: Result<(), DocError>)
      requires Valid()
      modifies this, Nodes()
      ensures Valid() && slots == old(slots)
      ensures (State(), r) == SetName(old(State()), id, name)
    {
      var node := FindNode(id);
      if node == null {
        return Err(UnknownNode);
      }
      if name.Some? {
        var used := SiblingNameInUse(node.parent, Some(id), name.value);
        if used {
          return Err(DuplicateNodeName);
        }
        if !IsValidName(name.value) {
          return Err(InvalidNodeName);
        }
      }
      node.name := name;
      table := Replace(table, id, node.Value());
      r := Ok(());
    }

    // Shared view state.

    method SetElidedFlag(id: NodeId, enabled: bool) returns (r: Result<(), DocError>)
      requires Valid()
      modifies this`elided
      ensures Valid()
      ensures (State(), r) == SetElided(old(State()), id, enabled)
    {
      var node := FindNode(id);
      if node == null {
        return Err(UnknownNode);
      }
      var index := IndexOfElided(id);
      if index < |elided| {
        if !enabled {
          elided := SwapRemove(elided, index);
        }
      } else {
        if enabled {
          elided := elided + [id];
        }
      }
      r := Ok(());
    }

    method IndexOfElided(id: NodeId) returns (index: nat)
      ensures if id in elided then index == First(elided, id) else index == |elided|
    {
      index := 0;
      while index < |elided| && elided[index] != id
        invariant 0 <= index <= |elided| && id !in elided[..index]
      {
        index := index + 1;
      }
      if index < |elided| {
        FirstIs(elided, id, index);
      } else {
        assert elided[..index] == elided;
      }
    }

    static lemma {:induction false} FirstIs<T>(s: seq<T>, x: T, i: nat)
      requires i < |s| && s[i] == x && x !in s[..i]
      ensures First(s, x) == i
      decreases i
    {
      if i > 0 {
        assert s[..i] == [s[0]] + s[1..][..i - 1];
        FirstIs(s[1..], x, i - 1);
      }
    }

    method ToggleElidedFlag(id: NodeId) returns (r: Result<(), DocError>)
      requires Valid()
      modifies this`elided
      ensures Valid()
      ensures (State(), r) == ToggleElided(old(State()), id)
    {
      var node := FindNode(id);
      if node == null {
        return Err(UnknownNode);
      }
      var index := IndexOfElided(id);
      if index < |elided| {
        elided := SwapRemove(elided, index);
      } else {
        elided := elided + [id];
      }
      r := Ok(());
    }

    method SetDocumentViewRoot(id: NodeId) returns (r: Result<(), DocError>)
      requires Valid()
      modifies this`viewRoot
      ensures Valid()
      ensures (State(), r) == SetViewRoot(old(State()), id)
    {
      var node := FindNode(id);
      if node == null {
        return Err(UnknownNode);
      }
      viewRoot := Some(id);
      r := Ok(());
    }

    // Walks.

    /** The preorder loop over an explicit stack. */
    method CollectPreorder() returns (order: seq<NodeId>)
      requires Valid() && TreeShaped(table, root)
      ensures order == Pre(Subtree(table, root, root))
    {
      order := [];
      var stack := [root];
      ghost var pending := Subtree(table, root, root);
      ghost var all := Pre(pending);
      while stack != []
        invariant Shape(table, Rev(stack), pending)
        invariant order + Pre(pending) == all
        decreases |Pre(pending)|
      {
        PopPreorder(table, stack, pending);
        var id := stack[|stack| - 1];
        stack := stack[..|stack| - 1];
        var node := FindNode(id);
        order := order + [id];
        stack := PushChildren(stack, node.children);
        pending := Append(pending.kids, pending.rest);
      }
    }

    static lemma PopPreorder(slots: Slots, stack: seq<NodeId>, pending: Forest)
      requires stack != [] && Shape(slots, Rev(stack), pending)
      ensures var rest, id := stack[..|stack| - 1], stack[|stack| - 1];
              && pending.Cons? && Live(slots, id)
              && Shape(slots, Kids(slots, id) + Rev(rest), Append(pending.kids, pending.rest))
              && Pre(pending) == [id] + Pre(Append(pending.kids, pending.rest))
    {
      var rest, id := stack[..|stack| - 1], stack[|stack| - 1];
      RevPop(stack);
      PreAppend(pending.kids, pending.rest);
      ShapeAppend(slots, Kids(slots, id), pending.kids, Rev(rest), pending.rest);
    }

    /** Push a child list backwards, so that the first child is popped first. */
    static method PushChildren(below: seq<NodeId>, children: seq<NodeId>) returns (stack: seq<NodeId>)
      ensures Rev(stack) == children + Rev(below)
    {
      stack := below;
      var index := |children|;
      while index != 0
        invariant 0 <= index <= |children|
        invariant Rev(stack) == children[index..] + Rev(below)
      {
        index := index - 1;
        RevSnoc(stack, children[index]);
        stack := stack + [children[index]];
      }
    }

    /** The postorder loop: a frame is expanded before it is put out. */
    method CollectSubtreePostorder(id: NodeId) returns (order: seq<NodeId>)
      requires Valid() && TreeShaped(table, root) && Live(table, id)
      ensures order == Post(Subtree(table, root, id))
    {
      order := [];
      var stack := [Frame(id, false)];
      ghost var todo := StartPostorder(table, id, Subtree(table, root, id));
      ghost var all := Output(todo);
      while stack != []
        invariant Planned(table, Rev(stack), todo)
        invariant order + Output(todo) == all
        decreases Work(todo)
      {
        PopFrame(table, stack, todo);
        var frame := stack[|stack| - 1];
        stack := stack[..|stack| - 1];
        var current := FindNode(frame.id);
        if frame.expanded {
          order := order + [frame.id];
          todo := todo.next;
        } else {
          ghost var below := Rev(stack);
          RevSnoc(stack, Frame(frame.id, true));
          stack := PushFrames(stack + [Frame(frame.id, true)], current.children);
          Expand(table, below, todo);
          todo := Visits(todo.kids, Emit(frame.id, todo.next));
        }
      }
    }

    static lemma StartPostorder(slots: Slots, id: NodeId, f: Forest) returns (todo: Todo)
      requires Shape(slots, [id], f)
      ensures Planned(slots, Rev([Frame(id, false)]), todo) && Output(todo) == Post(f)
    {
      todo := Visits(f, Done);
      assert Rev([Frame(id, false)]) == [Frame(id, false)];
      assert [id][1..] == [] && Frames([id]) + [] == [Frame(id, false)];
      PlannedVisits(slots, [id], f, [], Done);
      OutputVisits(f, Done);
    }

    static lemma PopFrame(slots: Slots, stack: seq<Frame>, todo: Todo)
      requires stack != [] && Planned(slots, Rev(stack), todo)
      ensures var rest, frame := stack[..|stack| - 1], stack[|stack| - 1];
              && (if frame.expanded then todo.Emit?
                  else todo.Visit? && Live(slots, frame.id) && Shape(slots, Kids(slots, frame.id), todo.kids))
              && todo.id == frame.id && Planned(slots, Rev(rest), todo.next)
    {
      RevPop(stack);
    }

    static lemma Expand(slots: Slots, below: seq<Frame>, todo: Todo)
      requires todo.Visit? && Shape(slots, Kids(slots, todo.id), todo.kids) && Planned(slots, below, todo.next)
      ensures var next := Visits(todo.kids, Emit(todo.id, todo.next));
              && Planned(slots, Frames(Kids(slots, todo.id)) + ([Frame(todo.id, true)] + below), next)
              && Output(next) == Output(todo) && Work(next) < Work(todo)
    {
      var emit := Emit(todo.id, todo.next);
      assert ([Frame(todo.id, true)] + below)[1..] == below;
      PlannedVisits(slots, Kids(slots, todo.id), todo.kids, [Frame(todo.id, true)] + below, emit);
      OutputVisits(todo.kids, emit);
    }

    static method PushFrames(below: seq<Frame>, children: seq<NodeId>) returns (stack: seq<Frame>)
      ensures Rev(stack) == Frames(children) + Rev(below)
    {
      stack := below;
      var index := |children|;
      assert Frames(children[index..]) == [];
      while index != 0
        invariant 0 <= index <= |children|
        invariant Rev(stack) == Frames(children[index..]) + Rev(below)
      {
        index := index - 1;
        assert children[index..] == [children[index]] + children[index + 1..];
        RevSnoc(stack, Frame(children[index], false));
        stack := stack + [Frame(children[index], false)];
      }
      assert children[0..] == children;
    }

    // Removing nodes.

    method DetachChildFromParent(parentId: NodeId, childId: NodeId) returns (r: Result<(), DocError>)
      requires Valid()
      modifies this`table, Nodes()
      ensures Valid()
      ensures (State(), r) == Detach(old(State()), parentId, childId)
    {
      var parent := FindNode(parentId);
      if parent == null {
        return Err(UnknownParent);
      }
      var index := 0;
      while index < |parent.children| && parent.children[index] != childId
        invariant 0 <= index <= |parent.children| && childId !in parent.children[..index]
      {
        index := index + 1;
      }
      if index < |parent.children| {
        FirstIs(parent.children, childId, index);
        parent.children := SwapRemove(parent.children, index);
      } else {
        assert parent.children[..index] == parent.children;
      }
      table := Replace(table, parentId, parent.Value());
      r := Ok(());
    }

    method TotalContentBytesForNodes(ids: seq<NodeId>) returns (r: Result<usize, DocError>)
      requires Valid()
      ensures r == ContentTotal(table, ids, 0)
    {
      var total: usize := 0;
      for i := 0 to |ids|
        invariant ContentTotal(table, ids[i..], total) == ContentTotal(table, ids, 0)
      {
        assert ids[i..][0] == ids[i] && ids[i..][1..] == ids[i + 1..];
        var node := FindNode(ids[i]);
        if node == null {
          return Err(UnknownNode);
        }
        if total + |node.content| > U64_MAX {
          return Err(ContentAccountingDrift);
        }
        total := total + |node.content|;
      }
      r := Ok(total);
    }

    method RemoveNodeRegistryOnly(id: NodeId) returns (r: Result<(), DocError>)
      requires Valid() && CountExact(State())
      modifies this
      ensures Valid() && Nodes() <= old(Nodes())
      ensures if Live(old(table), id) then r == Ok(()) && old(liveCount) > 0 && State() == Unregister(old(State()), id)
              else r == Err(UnknownNode) && State() == old(State())
    {
      if FindNode(id) == null {
        return Err(UnknownNode);
      }
      UnregisterCounts(State(), id);
      slots := slots[id - 1 := null];
      table := table[id - 1 := None];
      liveCount := liveCount - 1;
      if viewRoot == Some(id) {
        viewRoot := None;
      }
      var index := IndexOfElided(id);
      if index < |elided| {
        elided := SwapRemove(elided, index);
      }
      r := Ok(());
    }

    method RemoveDetachedPostorder(order: seq<NodeId>, total: nat) returns (r: Result<(), DocError>)
      requires Valid() && CountExact(State())
      modifies this
      ensures Valid()
      ensures (State(), r) == RemoveDetached(old(State()), order, total)
    {
      if total > contentBytes {
        return Err(ContentAccountingDrift);
      }
      ghost var d := State();
      for i := 0 to |order|
        invariant Valid() && CountExact(State()) && contentBytes == d.contentBytes
        invariant UnregisterEach(State(), order[i..]) == UnregisterEach(d, order)
      {
        assert order[i..][0] == order[i] && order[i..][1..] == order[i + 1..];
        ghost var before := State();
        var removed := RemoveNodeRegistryOnly(order[i]);
        if removed.Err? {
          return removed;
        }
        UnregisterCounts(before, order[i]);
      }
      contentBytes := contentBytes - total;
      r := Ok(());
    }

    /** Refuses a node with children; does not refuse a childless root. */
    method RemoveNode(id: NodeId) returns (r: Result<(), DocError>)
      requires Valid() && Counted(State())
      modifies this, Nodes()
      ensures Valid()
      ensures (State(), r) == DocumentOps.RemoveNode(old(State()), id)
    {
      var node := FindNode(id);
      if node == null {
        return Err(UnknownNode);
      }
      if node.children != [] {
        return Err(NodeHasChildren);
      }
      ghost var d := State();
      assert [id][1..] == [] && BytesOf(table, [id]) == |Content(table, id)|;
      ContentTotalIsBytes(table, [id], 0);
      var total := TotalContentBytesForNodes([id]);
      if total.Err? {
        return Err(total.error);
      }
      if node.parent.Some? {
        DetachKeepsLive(d, node.parent.value, id);
        var detached := DetachChildFromParent(node.parent.value, id);
        if detached.Err? {
          return detached;
        }
      }
      r := RemoveDetachedPostorder([id], total.value);
    }

    method RemoveSubtree(id: NodeId) returns (r: Result<(), DocError>)
      requires Valid() && Counted(State())
      modifies this, Nodes()
      ensures Valid()
      ensures (State(), r) == DocumentOps.RemoveSubtree(old(State()), id)
    {
      if id == root {
        return Err(NodeHasChildren);
      }
      var target := FindNode(id);
      if target == null {
        return Err(UnknownNode);
      }
      ghost var d := State();
      SubtreeSteps(d, id);
      var order := CollectSubtreePostorder(id);
      var total := TotalContentBytesForNodes(order);
      if total.Err? {
        return Err(total.error);
      }
      if target.parent.None? {
        return Err(UnknownParent);
      }
      DetachKeepsLive(d, target.parent.value, id);
      var detached := DetachChildFromParent(target.parent.value, id);
      if detached.Err? {
        return detached;
      }
      r := RemoveDetachedPostorder(order, total.value);
    }

    // The self-check.

    /** The walk with the visitor inside. It terminates on every table: a node
        id is accepted once only. */
    method WalkAndVisit() returns (r: Result<(set<NodeId>, usize), DocError>)
      requires Valid() && Live(table, root)
      ensures r == Validation.Walk(table, Validation.VisitorOf(State()), [root], {}, 0)
    {
      ghost var d, visitor := State(), Validation.VisitorOf(State());
      ghost var outcome := Validation.Walk(table, visitor, [root], {}, 0);
      var seen: set<NodeId> := {};
      var total: usize := 0;
      var stack := [root];
      while stack != []
        invariant State() == d
        invariant Validation.Walk(table, visitor, Rev(stack), seen, total) == outcome
        decreases Validation.NodeIds(table) - seen, |stack|
      {
        RevPop(stack);
        var id := stack[|stack| - 1];
        stack := stack[..|stack| - 1];
        var node := FindNode(id);
        if node == null {
          return Err(UnknownNode);
        }
        if node.id in seen {
          return Err(DuplicateNodeId);
        }
        var verdict := VisitNode(node, total);
        if verdict.Err? {
          return Err(verdict.error);
        }
        assert node.id in Validation.NodeIds(table) by { assert table[id - 1] == Some(node.Value()); }
        seen := seen + {node.id};
        total := verdict.value;
        stack := PushChildren(stack, node.children);
      }
      r := Ok((seen, total));
    }

    method Validate() returns (r: Result<(nat, usize), DocError>)
      requires Valid()
      ensures r == Validation.Validate(State())
    {
      if FindNode(root) == null {
        return Err(MissingRootNode);
      }
      var walk := WalkAndVisit();
      if walk.Err? {
        return Err(walk.error);
      }
      var (seen, total) := walk.value;
      if |seen| != liveCount {
        return Err(UnreachableNode);
      }
      for i := 0 to |slots|
        invariant forall j :: 0 <= j < i && slots[j] != null ==> slots[j].id in seen
      {
        if slots[i] != null && slots[i].id !in seen {
          assert table[i].Some? && table[i].value.id !in seen;
          return Err(UnreachableNode);
        }
      }
      assert Validation.AllSeen(table, seen);
      if total != contentBytes {
        return Err(ContentAccountingDrift);
      }
      if viewRoot.Some? && FindNode(viewRoot.value) == null {
        return Err(UnknownViewRootNode);
      }
      for i := 0 to |elided|
        invariant forall j :: 0 <= j < i ==> Live(table, elided[j])
      {
        if FindNode(elided[i]) == null {
          return Err(UnknownElidedNode);
        }
      }
      r := Ok((liveCount, total));
    }

    /** The checks on one node, in their order. */
    method VisitNode(node: Node, total: usize) returns (r: Result<usize, DocError>)
      requires Valid()
      ensures r == Validation.Visit(State(), total, node.Value())
    {
      if total + |node.content| > U64_MAX {
        return Err(ContentAccountingDrift);
      }
      if node.id == root {
        if node.parent.Some? {
          return Err(RootNodeHasParent);
        }
        if node.kind != NodeKind.Document {
          return Err(RootNodeKindMismatch);
        }
      } else {
        if node.parent.None? {
          return Err(NonRootNodeMissingParent);
        }
        var parent := FindNode(node.parent.value);
        if parent == null {
          return Err(UnknownParent);
        }
        if node.id !in parent.children {
          return Err(ParentMissingChildLink);
        }
      }
      var childSeen: set<NodeId> := {};
      for k := 0 to |node.children|
        invariant forall x :: x in childSeen <==> x in node.children[..k]
        invariant Validation.CheckChildren(table, node.id, node.children, 0) ==
                  Validation.CheckChildren(table, node.id, node.children, k)
      {
        var childId := node.children[k];
        if childId in childSeen {
          return Err(DuplicateChildLink);
        }
        childSeen := childSeen + {childId};
        var child := FindNode(childId);
        if child == null {
          return Err(UnknownChild);
        }
        if child.parent != Some(node.id) {
          return Err(ChildParentMismatch);
        }
      }
      r := Ok(total + |node.content|);
    }

    // Ancestors and domains.

    /** True at once when both ids are the same, even if no such node is live. */
    method NodeWithinSubtree(top: NodeId, candidate: NodeId) returns (within: bool)
      requires Valid() && TreeShaped(table, root)
      ensures within <==> candidate == top || Within(table, top, candidate)
    {
      var current := candidate;
      while current != top
        invariant Live(table, candidate) ==> Live(table, current)
        invariant (candidate == top || Within(table, top, candidate)) <==>
                  (current == top || Within(table, top, current))
        decreases if Live(table, current) then Domains.Climb(table, root, current) else 0
      {
        NotLiveNotWithin(table, top, current);
        if Within(table, top, current) { WithinParent(table, top, current); }
        var node := FindNode(current);
        if node == null || node.parent.None? {
          return false;
        }
        GoodRootOnly(table, root, current);
        Domains.ClimbsDown(table, root, current);
        if Within(table, top, node.parent.value) {
          WithinStep(table, node.parent.value, current);
          WithinTransitive(table, top, node.parent.value, current);
        } else if node.parent.value == top {
          WithinStep(table, top, current);
        }
        current := node.parent.value;
      }
      within := true;
    }

    static lemma NotLiveNotWithin(slots: Slots, top: NodeId, x: NodeId)
      ensures !Live(slots, x) ==> !Within(slots, top, x)
    {
    }

    static lemma GoodRootOnly(slots: Slots, root: NodeId, x: NodeId)
      requires TreeShaped(slots, root) && Parent(slots, x).Some?
      ensures x != root
    {
    }

    method ConcurrentContainerDomainRoot(id: NodeId, on: Domains.EnabledKinds)
      returns (r: Result<Option<NodeId>, DocError>)
      requires Valid() && TreeShaped(table, root)
      ensures r == if id == root then Ok(None)
                   else if !Live(table, id) then Err(UnknownNode)
                   else Ok(Some(Domains.DomainRoot(table, root, on, id)))
    {
      if id == root {
        return Ok(None);
      }
      var current := id;
      while true
        invariant current != root && (Live(table, id) <==> Live(table, current))
        invariant Live(table, id) ==>
          Domains.DomainRoot(table, root, on, id) == Domains.DomainRoot(table, root, on, current)
        decreases if Live(table, current) then Domains.Climb(table, root, current) else 0
      {
        var node := FindNode(current);
        if node == null {
          return Err(UnknownNode);
        }
        Domains.ClimbsDown(table, root, current);
        var parentId := node.parent.value;
        if parentId == root {
          return Ok(Some(current));
        }
        var parent := FindNode(parentId);
        if IsEnabled(parent.kind, on) {
          return Ok(Some(current));
        }
        current := parentId;
      }
    }

    /** The downward search over an explicit stack. */
    method SubtreeContainsEnabledContainerKinds(id: NodeId, on: Domains.EnabledKinds)
      returns (r: Result<bool, DocError>)
      requires Valid() && TreeShaped(table, root)
      ensures !Live(table, id) ==> r == Err(UnknownNode)
      ensures Live(table, id) ==> r.Ok? && (r.value <==> Domains.HasEnabledBelow(table, on, id))
    {
      var node := FindNode(id);
      if node == null {
        return Err(UnknownNode);
      }
      WithinSelf(table, id);
      if IsEnabled(node.kind, on) {
        return Ok(true);
      }
      var stack := [id];
      while stack != []
        invariant Domains.Searching(table, on, id, stack)
        decreases Domains.Remaining(table, root, stack)
      {
        ghost var below, top := stack[..|stack| - 1], stack[|stack| - 1];
        assert stack == below + [top] && top in stack && LinkedDown(table, top);
        Domains.ReplacedByChildren(table, root, below, top);
        var current := FindNode(stack[|stack| - 1]);
        var found;
        found, stack := PushUnlessEnabled(stack[..|stack| - 1], current.children, on);
        if found {
          EnabledChild(table, on, id, top);
          return Ok(true);
        }
        Domains.SearchStep(table, root, on, id, below, top);
      }
      r := Ok(false);
    }

    static lemma EnabledChild(slots: Slots, on: Domains.EnabledKinds, id: NodeId, top: NodeId)
      requires Within(slots, id, top) && LinkedDown(slots, top) && Live(slots, top)
      requires exists c :: c in Kids(slots, top) && Domains.Enabled(slots, c, on)
      ensures Domains.HasEnabledBelow(slots, on, id)
    {
      var c :| c in Kids(slots, top) && Domains.Enabled(slots, c, on);
      WithinStep(slots, top, c);
      WithinTransitive(slots, id, top, c);
    }

    method PushUnlessEnabled(below: seq<NodeId>, children: seq<NodeId>, on: Domains.EnabledKinds)
      returns (found: bool, stack: seq<NodeId>)
      requires Valid() && forall c :: c in children ==> Live(table, c)
      ensures found <==> exists c :: c in children && Domains.Enabled(table, c, on)
      ensures !found ==> stack == below + children
    {
      stack := below;
      for k := 0 to |children|
        invariant stack == below + children[..k]
        invariant forall j :: 0 <= j < k ==> !Domains.Enabled(table, children[j], on)
      {
        assert children[k] in children;
        var child := FindNode(children[k]);
        if IsEnabled(child.kind, on) {
          return true, stack;
        }
        stack := stack + [children[k]];
      }
      assert stack == below + children;
      found := false;
    }

    static predicate IsEnabled(kind: NodeKind, on: Domains.EnabledKinds) {
      match kind
      case HContainer => on.horizontal
      case VContainer => on.vertical
      case _ => false
    }

    // Selectors.

    method ResolveChildBySegment(parentId: NodeId, segment: string) returns (r: Result<NodeId, DocError>)
      requires Valid()
      ensures r == Selectors.ResolveChild(table, parentId, segment)
    {
      var parent := FindNode(parentId);
      if parent == null {
        return Err(InvalidResourceSelector);
      }
      var matchCount, matchedId := 0, 0;
      for i := 0 to |parent.children|
        invariant (matchCount, matchedId) == Selectors.Matches(table, parent.children[..i], segment)
      {
        assert parent.children[..i + 1][..i] == parent.children[..i];
        var child := FindNode(parent.children[i]);
        if child != null && NodeMatchesSegment(child, segment) {
          matchCount, matchedId := matchCount + 1, parent.children[i];
        }
      }
      assert parent.children[..|parent.children|] == parent.children;
      r := if matchCount == 0 then Err(UnknownResourceSelectorSegment)
           else if matchCount == 1 then Ok(matchedId)
           else Err(AmbiguousResourceSelector);
    }

    static predicate NodeMatchesSegment(node: Node, segment: string)
      reads node
      ensures NodeMatchesSegment(node, segment) == Selectors.MatchesSegment(node.Value(), segment)
    {
      || node.name == Some(segment)
      || Decimal.ToDecimal(node.id) == segment
      || NODE_PREFIX + Decimal.ToDecimal(node.id) == segment
    }

    method ResolveSelector(selector: Option<string>) returns (r: Result<NodeId, DocError>)
      requires Valid()
      ensures r == Selectors.Resolve(State(), selector)
    {
      if selector.None? || selector.value == "" || selector.value == "/" {
        return Ok(root);
      }
      var segments := Selectors.Split(selector.value, '/');
      var current := root;
      for i := 0 to |segments|
        invariant Selectors.ResolveAll(table, root, segments) == Selectors.ResolveAll(table, current, segments[i..])
      {
        var segment := segments[i];
        assert segments[i..][0] == segment && segments[i..][1..] == segments[i + 1..];
        if segment == "" || segment == "." {
          continue;
        }
        if segment == ".." {
          var node := FindNode(current);
          if node == null {
            return Err(InvalidResourceSelector);
          }
          if node.parent.None? {
            return Err(ResourceSelectorEscapesRoot);
          }
          current := node.parent.value;
          continue;
        }
        var direct := ParseDirectReference(segment);
        if direct.Some? {
          if FindNode(direct.value) == null {
            return Err(UnknownResourceSelectorSegment);
          }
          current := direct.value;
          continue;
        }
        var child := ResolveChildBySegment(current, segment);
        if child.Err? {
          return child;
        }
        current := child.value;
      }
      r := Ok(current);
    }
  }

  // The postorder stack.

  datatype Frame = Frame(id: NodeId, expanded: bool)

  /** What a stack of frames still has to do, top first. */
  datatype Todo = Done | Emit(id: NodeId, next: Todo) | Visit(id: NodeId, kids: Forest, next: Todo)

  ghost function Output(t: Todo): seq<NodeId> {
    match t
    case Done => []
    case Emit(id, next) => [id] + Output(next)
    case Visit(id, kids, next) => Post(kids) + [id] + Output(next)
  }

  ghost predicate Planned(slots: Slots, frames: seq<Frame>, t: Todo) {
    match t
    case Done => frames == []
    case Emit(id, next) => frames != [] && frames[0] == Frame(id, true) && Planned(slots, frames[1..], next)
    case Visit(id, kids, next) =>
      && frames != [] && frames[0] == Frame(id, false) && Live(slots, id)
      && Shape(slots, Kids(slots, id), kids) && Planned(slots, frames[1..], next)
  }

  ghost function Work(t: Todo): nat {
    match t
    case Done => 0
    case Emit(_, next) => 1 + Work(next)
    case Visit(_, kids, next) => 2 + 2 * |Pre(kids)| + Work(next)
  }

  ghost function Visits(f: Forest, next: Todo): (t: Todo)
    ensures Work(t) == 2 * |Pre(f)| + Work(next)
  {
    match f
    case Nil => next
    case Cons(id, kids, rest) => Visit(id, kids, Visits(rest, next))
  }

  ghost function Frames(ids: seq<NodeId>): seq<Frame> {
    if ids == [] then [] else [Frame(ids[0], false)] + Frames(ids[1..])
  }

  lemma {:induction false} OutputVisits(f: Forest, next: Todo)
    ensures Output(Visits(f, next)) == Post(f) + Output(next)
  {
    match f
    case Nil =>
    case Cons(id, kids, rest) => OutputVisits(rest, next);
  }

  lemma {:induction false} PlannedVisits(slots: Slots, ids: seq<NodeId>, f: Forest, frames: seq<Frame>, next: Todo)
    requires Shape(slots, ids, f) && Planned(slots, frames, next)
    ensures Planned(slots, Frames(ids) + frames, Visits(f, next))
    decreases f
  {
    match f
    case Nil => assert Frames(ids) + frames == frames;
    case Cons(id, kids, rest) =>
      PlannedVisits(slots, ids[1..], rest, frames, next);
      assert Frames(ids) == [Frame(id, false)] + Frames(ids[1..]);
      assert (Frames(ids) + frames)[1..] == Frames(ids[1..]) + frames;
  }
}
