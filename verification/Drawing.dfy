/** The projection's loops (src/core/projection.zig): cursors, remainders and
    16-bit arithmetic, proved to emit what `Layout` specifies. A sum that has
    no wrapping or saturating operator in the source is a checked `u16` here. */
module Drawing {
  import opened Basics
  import opened Forests
  import opened DocumentState
  import opened Traversal
  import opened Projection
  import opened Layout

  /** The casts of a child count to 16 bits need this much. */
  ghost predicate CountsFit(slots: Slots) {
    forall id :: |Kids(slots, id)| <= U16_MAX
  }

  method WriteProjectionForRoot(d: DocState, override: Option<NodeId>, rows: u16, cols: u16)
    returns (r: Result<seq<Region>, DocError>)
    requires TreeShaped(d.slots, d.root) && CountsFit(d.slots)
    ensures var top := if override.Some? then override.value
                       else if d.viewRoot.Some? then d.viewRoot.value else d.root;
            if Live(d.slots, top) then r == Ok(Projected(d, top, rows, cols)) else r == Err(UnknownNode)
  {
    var top := if override.Some? then override.value else if d.viewRoot.Some? then d.viewRoot.value else d.root;
    if !Live(d.slots, top) {
      return Err(UnknownNode);
    }
    var view := Rect(0, 0, ClampDimension(cols, 24), ClampDimension(rows, 8));
    ghost var f := Subtree(d.slots, d.root, top);
    assert [top][1..] == [];
    var regions := WriteProjectedNode(d, top, view, [top], f, [view], view);
    r := Ok(regions);
    assert f.rest == Nil && Project(d, [top][1..], f.rest, [view][1..], view) == [];
    ProjectIsHeadThenRest(d, [top], f, [view], view);
    assert regions + [] == regions;
  }

  function ClampDimension(value: u16, minimum: u16): u16 {
    if value < minimum then minimum else value
  }

  /** One node: its own region, then its children's. */
  method WriteProjectedNode(d: DocState, id: NodeId, rect: Rect,
                            ghost ids: seq<NodeId>, ghost f: Forest, ghost rects: seq<Rect>, ghost bound: Rect)
    returns (out: seq<Region>)
    requires CountsFit(d.slots) && Placed(d.slots, ids, f, rects, bound)
    requires f.Cons? && f.id == id && rects[0] == rect
    ensures out == HeadRegions(d, ids, f, rects, bound)
    decreases |Pre(f)|, 0
  {
    PlacedParts(d, ids, f, rects, bound);
    var node := Find(d.slots, id).value;
    var elided := id in d.elided;
    var emit := Emits(d, id);
    out := if emit then [Region(id, rect)] else [];
    if elided || !ProjectsChildren(node.kind) || node.children == [] {
      return;
    }
    var childRect := if emit then Inset(rect) else rect;
    if childRect.width == 0 || childRect.height == 0 {
      return;
    }
    var below;
    ghost var childRects := ChildRects(d.slots, id, childRect);
    if LayoutAxis(node.kind) == Horizontal {
      ChildrenAtStart(d.slots, id, childRect);
      below := WriteHorizontalChildren(d, id, childRect, f.kids, childRects);
    } else {
      below := WriteVerticalChildren(d, id, childRect, f.kids);
    }
    out := out + below;
  }

  /** The facts one pass over the children needs. */
  ghost predicate Drawable(d: DocState, id: NodeId, rect: Rect, kids: Forest, rects: seq<Rect>) {
    && CountsFit(d.slots) && Live(d.slots, id) && Kids(d.slots, id) != []
    && Placed(d.slots, Kids(d.slots, id), kids, rects, rect)
  }

  /** What a pass over the children still has to draw. */
  ghost predicate Drawn(d: DocState, ids: seq<NodeId>, rest: Forest, rects: seq<Rect>, bound: Rect,
                        out: seq<Region>, all: seq<Region>)
  {
    Placed(d.slots, ids, rest, rects, bound) && out + Project(d, ids, rest, rects, bound) == all
  }

  lemma ShapeHead(slots: Slots, ids: seq<NodeId>, f: Forest)
    requires Shape(slots, ids, f) && ids != []
    ensures f.Cons? && f.id == ids[0] && Live(slots, ids[0]) && |Pre(f.rest)| < |Pre(f)|
  {
  }

  lemma DrawnStep(d: DocState, ids: seq<NodeId>, rest: Forest, rects: seq<Rect>, bound: Rect,
                  out: seq<Region>, all: seq<Region>)
    requires Drawn(d, ids, rest, rects, bound, out, all) && ids != []
    ensures rest.Cons? && rest.id == ids[0] && Live(d.slots, ids[0]) && |Pre(rest.rest)| < |Pre(rest)|
    ensures Drawn(d, ids[1..], rest.rest, rects[1..], bound, out + HeadRegions(d, ids, rest, rects, bound), all)
  {
    ShapeHead(d.slots, ids, rest);
    ProjectIsHeadThenRest(d, ids, rest, rects, bound);
    var head, after := HeadRegions(d, ids, rest, rects, bound), Project(d, ids[1..], rest.rest, rects[1..], bound);
    assert out + (head + after) == out + head + after;
  }

  lemma DrawnAll(d: DocState, rest: Forest, rects: seq<Rect>, bound: Rect, out: seq<Region>, all: seq<Region>)
    requires Drawn(d, [], rest, rects, bound, out, all)
    ensures out == all
  {
    assert out + [] == out;
  }

  /** One turn of any of the three loops over the children. */
  method WriteChild(d: DocState, id: NodeId, childRect: Rect, soFar: seq<Region>, ghost ids: seq<NodeId>,
                    ghost rest: Forest, ghost rects: seq<Rect>, ghost bound: Rect, ghost all: seq<Region>)
    returns (out: seq<Region>)
    requires CountsFit(d.slots) && Drawn(d, ids, rest, rects, bound, soFar, all)
    requires ids != [] && ids[0] == id && rects[0] == childRect
    ensures rest.Cons? && |Pre(rest.rest)| < |Pre(rest)|
    ensures Drawn(d, ids[1..], rest.rest, rects[1..], bound, out, all)
    decreases |Pre(rest)|, 1
  {
    DrawnStep(d, ids, rest, rects, bound, soFar, all);
    var drawn := WriteProjectedNode(d, id, childRect, ids, rest, rects, bound);
    out := soFar + drawn;
  }

  /** The cursor stands where the rectangles still to draw begin. */
  ghost predicate AtColumn(rect: Rect, cursor: u16, sizes: seq<nat>, rects: seq<Rect>) {
    rect.WellPlaced() && cursor + Sum(sizes) <= rect.x + rect.width && rects == Columns(rect, cursor, sizes)
  }

  ghost predicate AtRow(rect: Rect, cursor: u16, sizes: seq<nat>, rects: seq<Rect>) {
    rect.WellPlaced() && cursor + Sum(sizes) <= rect.y + rect.height && rects == Rows(rect, cursor, sizes)
  }

  /** The next column, and no wrap-around on the way to the one after it. */
  lemma NextColumn(rect: Rect, cursor: u16, sizes: seq<nat>, rects: seq<Rect>)
    requires sizes != [] && AtColumn(rect, cursor, sizes, rects)
    ensures sizes[0] <= U16_MAX && WrappingAdd(cursor, sizes[0]) == cursor + sizes[0]
    ensures rects != [] && rects[0] == Rect(cursor, rect.y, sizes[0], rect.height)
    ensures AtColumn(rect, WrappingAdd(cursor, sizes[0]), sizes[1..], rects[1..])
  {
  }

  lemma NextRow(rect: Rect, cursor: u16, sizes: seq<nat>, rects: seq<Rect>)
    requires sizes != [] && AtRow(rect, cursor, sizes, rects)
    ensures sizes[0] <= U16_MAX && WrappingAdd(cursor, sizes[0]) == cursor + sizes[0]
    ensures rects != [] && rects[0] == Rect(rect.x, cursor, rect.width, sizes[0])
    ensures AtRow(rect, WrappingAdd(cursor, sizes[0]), sizes[1..], rects[1..])
  {
  }

  /** The 16-bit division of an extent among its children. */
  method Share(extent: u16, count: nat) returns (base: u16, remainder: u16)
    requires 0 < count <= U16_MAX
    ensures EvenSizes(extent, count) == Spread(count, base, remainder)
  {
    DivFacts(extent, count);
    base, remainder := extent / count, extent % count;
  }

  /** The size the loop computes next is the next of the even sizes. */
  lemma NextShare(count: nat, base: nat, remainder: nat)
    requires count > 0
    ensures Spread(count, base, remainder)[0] == base + (if remainder != 0 then 1 else 0)
    ensures Spread(count, base, remainder)[1..] ==
            Spread(count - 1, base, if remainder != 0 then remainder - 1 else remainder)
  {
  }

  ghost predicate AtEvenColumn(rect: Rect, cursor: u16, count: nat, base: u16, remainder: u16, rects: seq<Rect>) {
    AtColumn(rect, cursor, Spread(count, base, remainder), rects)
  }

  ghost predicate AtEvenRow(rect: Rect, cursor: u16, count: nat, base: u16, remainder: u16, rects: seq<Rect>) {
    AtRow(rect, cursor, Spread(count, base, remainder), rects)
  }

  /** One child's share, and where the cursor and the remainder stand after it. */
  method TakeColumn(rect: Rect, cursor: u16, base: u16, remainder: u16, ghost count: nat, ghost rects: seq<Rect>)
    returns (childRect: Rect, next: u16, left: u16)
    requires count > 0 && AtEvenColumn(rect, cursor, count, base, remainder, rects)
    ensures rects != [] && childRect == rects[0] && AtEvenColumn(rect, next, count - 1, base, left, rects[1..])
  {
    NextColumn(rect, cursor, Spread(count, base, remainder), rects);
    NextShare(count, base, remainder);
    var width: u16;
    width, left := base, remainder;
    if left != 0 {
      width := width + 1;
      left := left - 1;
    }
    childRect := Rect(cursor, rect.y, width, rect.height);
    next := WrappingAdd(cursor, width);
  }

  method TakeRow(rect: Rect, cursor: u16, base: u16, remainder: u16, ghost count: nat, ghost rects: seq<Rect>)
    returns (childRect: Rect, next: u16, left: u16)
    requires count > 0 && AtEvenRow(rect, cursor, count, base, remainder, rects)
    ensures rects != [] && childRect == rects[0] && AtEvenRow(rect, next, count - 1, base, left, rects[1..])
  {
    NextRow(rect, cursor, Spread(count, base, remainder), rects);
    NextShare(count, base, remainder);
    var height: u16;
    height, left := base, remainder;
    if left != 0 {
      height := height + 1;
      left := left - 1;
    }
    childRect := Rect(rect.x, cursor, rect.width, height);
    next := WrappingAdd(cursor, height);
  }

  lemma ChildrenAtStart(slots: Slots, id: NodeId, rect: Rect)
    requires Live(slots, id) && rect.WellPlaced()
    ensures var sizes, rects := ChildSizes(slots, id, rect), ChildRects(slots, id, rect);
            if LayoutAxis(Find(slots, id).value.kind) == Horizontal then AtColumn(rect, rect.x, sizes, rects)
            else AtRow(rect, rect.y, sizes, rects)
  {
    ChildSizesFit(slots, id, rect);
  }

  method WriteHorizontalChildren(d: DocState, id: NodeId, rect: Rect, ghost kids: Forest, ghost childRects: seq<Rect>)
    returns (out: seq<Region>)
    requires Drawable(d, id, rect, kids, childRects)
    requires AtColumn(rect, rect.x, EvenSizes(rect.width, |Kids(d.slots, id)|), childRects)
    ensures out == Project(d, Kids(d.slots, id), kids, childRects, rect)
    decreases |Pre(kids)|, 2
  {
    var children := Find(d.slots, id).value.children;
    ghost var ids, rest, rects := children, kids, childRects;
    ghost var all := Project(d, ids, kids, rects, rect);
    var baseWidth, remainder := Share(rect.width, |children|);
    var cursor: u16 := rect.x;
    out := [];
    for i := 0 to |children|
      invariant ids == children[i..] && |Pre(rest)| <= |Pre(kids)|
      invariant Drawn(d, ids, rest, rects, rect, out, all)
      invariant AtEvenColumn(rect, cursor, |children| - i, baseWidth, remainder, rects)
    {
      var childRect, next, left := TakeColumn(rect, cursor, baseWidth, remainder, |children| - i, rects);
      out := WriteChild(d, children[i], childRect, out, ids, rest, rects, rect, all);
      ids, rest, rects := ids[1..], rest.rest, rects[1..];
      cursor, remainder := next, left;
    }
    DrawnAll(d, rest, rects, rect, out, all);
  }

  method WriteVerticalChildren(d: DocState, id: NodeId, rect: Rect, ghost kids: Forest) returns (out: seq<Region>)
    requires rect.WellPlaced() && Live(d.slots, id) && Drawable(d, id, rect, kids, ChildRects(d.slots, id, rect))
    requires LayoutAxis(Find(d.slots, id).value.kind) == Vertical
    ensures out == Project(d, Kids(d.slots, id), kids, ChildRects(d.slots, id, rect), rect)
    decreases |Pre(kids)|, 3
  {
    var children := Find(d.slots, id).value.children;
    ShapeLive(d.slots, children, kids);
    ghost var childRects := ChildRects(d.slots, id, rect);
    var fixedTotal, flexibleCount := CountRows(d, children, rect.height);
    if fixedTotal >= rect.height || fixedTotal + flexibleCount > rect.height {
      EvenRowsAtStart(d.slots, id, rect);
      out := WriteEvenVerticalChildren(d, id, rect, kids, childRects);
      return;
    }
    var remaining: u16 := rect.height - fixedTotal;
    var baseHeight, remainder := ShareFlexible(remaining, flexibleCount, ChromeFlags(d.slots, children), rect.height);
    RowsAtStart(d.slots, id, rect, baseHeight, remainder);
    out := WriteRows(d, id, rect, kids, childRects, baseHeight, remainder);
  }

  method ShareFlexible(remaining: u16, flexibleCount: nat, ghost chrome: seq<bool>, ghost height: u16)
    returns (base: u16, remainder: u16)
    requires !FallsBack(chrome, height) && remaining == height - FixedTotal(chrome, height)
    requires flexibleCount == CountOf(chrome, false)
    ensures Heights(chrome, height) == SpreadFlexible(chrome, base, remainder)
  {
    base, remainder := 0, 0;
    if flexibleCount != 0 {
      DivFacts(remaining, flexibleCount);
      base, remainder := remaining / flexibleCount, remaining % flexibleCount;
    }
  }

  lemma EvenRowsAtStart(slots: Slots, id: NodeId, rect: Rect)
    requires Live(slots, id) && rect.WellPlaced() && LayoutAxis(Find(slots, id).value.kind) == Vertical
    requires FallsBack(ChromeFlags(slots, Kids(slots, id)), rect.height)
    ensures AtRow(rect, rect.y, EvenSizes(rect.height, |Kids(slots, id)|), ChildRects(slots, id, rect))
  {
    ChildrenAtStart(slots, id, rect);
  }

  lemma RowsAtStart(slots: Slots, id: NodeId, rect: Rect, base: u16, remainder: u16)
    requires Live(slots, id) && rect.WellPlaced() && LayoutAxis(Find(slots, id).value.kind) == Vertical
    requires Heights(ChromeFlags(slots, Kids(slots, id)), rect.height) ==
             SpreadFlexible(ChromeFlags(slots, Kids(slots, id)), base, remainder)
    ensures var sizes := SpreadFlexible(ChromeFlags(slots, Kids(slots, id)), base, remainder);
            AtRow(rect, rect.y, sizes, ChildRects(slots, id, rect))
  {
    ChildrenAtStart(slots, id, rect);
  }

  lemma ShapeLive(slots: Slots, ids: seq<NodeId>, f: Forest)
    requires Shape(slots, ids, f)
    ensures forall i :: 0 <= i < |ids| ==> Live(slots, ids[i])
  {
    PreHasIds(slots, ids, f);
    assert forall i :: 0 <= i < |ids| ==> ids[i] in ids;
  }

  /** The first pass: saturating chrome rows, and a count of the others. */
  method CountRows(d: DocState, children: seq<NodeId>, height: u16) returns (fixedTotal: u16, flexibleCount: nat)
    requires forall i :: 0 <= i < |children| ==> Live(d.slots, children[i])
    ensures fixedTotal == FixedTotal(ChromeFlags(d.slots, children), height)
    ensures flexibleCount == CountOf(ChromeFlags(d.slots, children), false)
  {
    fixedTotal, flexibleCount := 0, 0;
    for i := 0 to |children|
      invariant fixedTotal == FixedTotal(ChromeFlags(d.slots, children[..i]), height)
      invariant flexibleCount == CountOf(ChromeFlags(d.slots, children[..i]), false)
    {
      assert children[..i + 1][..i] == children[..i];
      ghost var flags := ChromeFlags(d.slots, children[..i + 1]);
      assert flags[..i] == ChromeFlags(d.slots, children[..i]);
      CountSnoc(flags, false);
      if IsChrome(Find(d.slots, children[i]).value.kind) {
        fixedTotal := SaturatingAdd(fixedTotal, if height < 3 then height else 3);
      } else {
        flexibleCount := flexibleCount + 1;
      }
    }
    assert children[..|children|] == children;
  }

  /** The second pass: three rows per chrome child, the rest shared out. */
  method WriteRows(d: DocState, id: NodeId, rect: Rect, ghost kids: Forest, ghost childRects: seq<Rect>,
                   baseHeight: u16, firstRemainder: u16)
    returns (out: seq<Region>)
    requires Drawable(d, id, rect, kids, childRects)
    requires var sizes := SpreadFlexible(ChromeFlags(d.slots, Kids(d.slots, id)), baseHeight, firstRemainder);
             AtRow(rect, rect.y, sizes, childRects)
    ensures out == Project(d, Kids(d.slots, id), kids, childRects, rect)
    decreases |Pre(kids)|, 2
  {
    var children := Find(d.slots, id).value.children;
    ghost var ids, rest, rects := children, kids, childRects;
    ghost var chrome := ChromeFlags(d.slots, children);
    ghost var sizes, all := SpreadFlexible(chrome, baseHeight, firstRemainder), Project(d, ids, kids, rects, rect);
    var remainder: u16 := firstRemainder;
    var cursor: u16 := rect.y;
    out := [];
    for i := 0 to |children|
      invariant ids == children[i..] && |sizes| == |ids| && |Pre(rest)| <= |Pre(kids)|
      invariant Drawn(d, ids, rest, rects, rect, out, all)
      invariant sizes == SpreadFlexible(chrome[i..], baseHeight, remainder)
      invariant AtRow(rect, cursor, sizes, rects)
    {
      NextRow(rect, cursor, sizes, rects);
      assert chrome[i..][0] == chrome[i] && chrome[i..][1..] == chrome[i + 1..];
      var isChrome := IsChrome(Find(d.slots, children[i]).value.kind);
      var height: u16 := if isChrome then 3 else baseHeight;
      if !isChrome && remainder != 0 {
        height := height + 1;
        remainder := remainder - 1;
      }
      var childRect := Rect(rect.x, cursor, rect.width, height);
      out := WriteChild(d, children[i], childRect, out, ids, rest, rects, rect, all);
      ids, rest, rects, sizes := ids[1..], rest.rest, rects[1..], sizes[1..];
      cursor := WrappingAdd(cursor, height);
    }
    DrawnAll(d, rest, rects, rect, out, all);
  }

  method WriteEvenVerticalChildren(d: DocState, id: NodeId, rect: Rect, ghost kids: Forest, ghost childRects: seq<Rect>)
    returns (out: seq<Region>)
    requires Drawable(d, id, rect, kids, childRects)
    requires AtRow(rect, rect.y, EvenSizes(rect.height, |Kids(d.slots, id)|), childRects)
    ensures out == Project(d, Kids(d.slots, id), kids, childRects, rect)
    decreases |Pre(kids)|, 2
  {
    var children := Find(d.slots, id).value.children;
    ghost var ids, rest, rects := children, kids, childRects;
    ghost var all := Project(d, ids, kids, rects, rect);
    var baseHeight, remainder := Share(rect.height, |children|);
    var cursor: u16 := rect.y;
    out := [];
    for i := 0 to |children|
      invariant ids == children[i..] && |Pre(rest)| <= |Pre(kids)|
      invariant Drawn(d, ids, rest, rects, rect, out, all)
      invariant AtEvenRow(rect, cursor, |children| - i, baseHeight, remainder, rects)
    {
      var childRect, next, left := TakeRow(rect, cursor, baseHeight, remainder, |children| - i, rects);
      out := WriteChild(d, children[i], childRect, out, ids, rest, rects, rect, all);
      ids, rest, rects := ids[1..], rest.rest, rects[1..];
      cursor, remainder := next, left;
    }
    DrawnAll(d, rest, rects, rect, out, all);
  }
}
