/** A run after which a projection shows a node below an elided one
    (src/core/document.zig, src/core/projection.zig). */
module Elision {
  import opened Basics
  import opened Names
  import opened Forests
  import opened DocumentState
  import opened DocumentOps
  import opened DocumentRuns
  import opened Layout

  function Untitled(id: NodeId, kind: NodeKind, parent: NodeId, children: seq<NodeId>): Option<NodeState> {
    Some(NodeState(id, kind, "", None, "", Some(parent), children, true))
  }

  function Root(children: seq<NodeId>): Option<NodeState> {
    Some(NodeState(1, Document, "", None, "", None, children, false))
  }

  /** A container under the root. */
  function OneBelow(): DocState {
    Init("").(slots := [Root([2]), Untitled(2, Container, 1, [])], liveCount := 2, nextId := 3)
  }

  /** A leaf under the container. */
  function TwoBelow(): DocState {
    Init("").(slots := [Root([2]), Untitled(2, Container, 1, [3]), Untitled(3, TextLeaf, 2, [])],
              liveCount := 3, nextId := 4)
  }

  /** The container elided, the leaf the view root. */
  function Shown(): DocState {
    TwoBelow().(elided := [2], viewRoot := Some(3))
  }

  lemma NoName()
    ensures DefaultName("") == None
  {
    assert "" + "" == "";
  }

  lemma FirstAppend()
    ensures AppendNode(Init(""), 1, Container, "").0 == OneBelow()
  {
    NoName();
    assert [] + [2] == [2];
    assert AppendNode(Init(""), 1, Container, "").0.slots == OneBelow().slots;
  }

  lemma SecondAppend()
    ensures AppendNode(OneBelow(), 2, TextLeaf, "").0 == TwoBelow()
  {
    NoName();
    assert [] + [3] == [3];
    assert AppendNode(OneBelow(), 2, TextLeaf, "").0.slots == TwoBelow().slots;
  }

  lemma Elided()
    ensures SetViewRoot(SetElided(TwoBelow(), 2, true).0, 3).0 == Shown()
  {
    assert [] + [2] == [2];
  }

  lemma TwoMore(d: DocState, a: Op, b: Op, rest: seq<Op>)
    requires Invariant(d) && Legal(d, a) && Invariant(Step(d, a)) && Legal(Step(d, a), b)
    requires Invariant(Step(Step(d, a), b)) && LegalRun(Step(Step(d, a), b), rest)
    ensures LegalRun(d, [a, b] + rest) && Run(d, [a, b] + rest) == Run(Step(Step(d, a), b), rest)
  {
    RunCons(Step(d, a), b, rest);
    RunCons(d, a, [b] + rest);
    assert [a] + ([b] + rest) == [a, b] + rest;
  }

  function Ops(): seq<Op> {
    [Append(1, Container, ""), Append(2, TextLeaf, ""), Elide(2, true), ViewRoot(3)]
  }

  lemma Appended(ops: seq<Op>)
    requires Invariant(TwoBelow()) && LegalRun(TwoBelow(), ops)
    ensures var all := [Append(1, Container, ""), Append(2, TextLeaf, "")] + ops;
            LegalFromNew("", all) && RunFromNew("", all) == Run(TwoBelow(), ops)
  {
    var s := Init("");
    InitInvariant("");
    FirstAppend();
    StepKeeps(s, Append(1, Container, ""));
    SecondAppend();
    TwoMore(s, Append(1, Container, ""), Append(2, TextLeaf, ""), ops);
  }

  lemma TwoBelowInvariant()
    ensures Invariant(TwoBelow())
  {
    InitInvariant("");
    FirstAppend();
    StepKeeps(Init(""), Append(1, Container, ""));
    SecondAppend();
    StepKeeps(OneBelow(), Append(2, TextLeaf, ""));
  }

  lemma Viewed()
    requires Invariant(TwoBelow())
    ensures LegalRun(TwoBelow(), [Elide(2, true), ViewRoot(3)] + [])
    ensures Run(TwoBelow(), [Elide(2, true), ViewRoot(3)] + []) == Shown() && Invariant(Shown())
  {
    Elided();
    StepKeeps(TwoBelow(), Elide(2, true));
    StepKeeps(Step(TwoBelow(), Elide(2, true)), ViewRoot(3));
    TwoMore(TwoBelow(), Elide(2, true), ViewRoot(3), []);
  }

  lemma ShownIsReached()
    ensures LegalFromNew("", Ops()) && RunFromNew("", Ops()) == Shown() && Invariant(Shown())
  {
    TwoBelowInvariant();
    Viewed();
    Appended([Elide(2, true), ViewRoot(3)] + []);
    assert [Append(1, Container, ""), Append(2, TextLeaf, "")] + ([Elide(2, true), ViewRoot(3)] + []) == Ops();
  }

  lemma ShownBelowElided(d: DocState, top: NodeId, e: NodeId, rows: u16, cols: u16)
    requires TreeShaped(d.slots, d.root) && Live(d.slots, top) && Emits(d, top)
    requires e in d.elided && e != top && Within(d.slots, e, top)
    ensures top in RegionIds(Projected(d, top, rows, cols))
    ensures !NothingBelowAnyElided(d, RegionIds(Projected(d, top, rows, cols)))
  {
    TopIsFirst(d, top, rows, cols);
    EmittersAreDrawn(d, top, rows, cols);
    ElisionHonouredIff(d, top, rows, cols);
  }

  /** Node 3, the view root, is drawn below node 2, which is elided. */
  ghost predicate DrawsBelowElided(d: DocState, rows: u16, cols: u16) {
    && TreeShaped(d.slots, d.root) && Live(d.slots, 3)
    && d.viewRoot == Some(3) && d.elided == [2] && Within(d.slots, 2, 3)
    && 3 in RegionIds(Projected(d, 3, rows, cols))
    && !NothingBelowAnyElided(d, RegionIds(Projected(d, 3, rows, cols)))
  }

  lemma ShownDraws(rows: u16, cols: u16)
    requires TreeShaped(Shown().slots, Shown().root)
    ensures DrawsBelowElided(Shown(), rows, cols)
  {
    assert PathFromTo(Shown().slots, 2, 3, [2, 3]);
    assert 2 in Shown().elided;
    ShownBelowElided(Shown(), 3, 2, rows, cols);
  }

  /** The view root is drawn although it lies below an elided node. */
  lemma ElidedAncestorIsIgnored(rows: u16, cols: u16)
    ensures LegalFromNew("", Ops()) && DrawsBelowElided(RunFromNew("", Ops()), rows, cols)
  {
    ShownIsReached();
    ShownDraws(rows, cols);
  }
}
