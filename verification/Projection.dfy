/** The boxed layout (src/core/projection.zig): recursive partitioning of the
    viewport over the document's tree. */
module Projection {
  import opened Basics
  import opened Forests
  import opened DocumentState

  datatype Rect = Rect(x: u16, y: u16, width: u16, height: u16) {
    /** Neither far edge leaves the 16-bit range. */
    predicate WellPlaced() { x + width <= U16_MAX && y + height <= U16_MAX }
  }

  datatype Region = Region(id: NodeId, rect: Rect)

  predicate Inside(a: Rect, b: Rect) {
    && b.x <= a.x && a.x + a.width <= b.x + b.width
    && b.y <= a.y && a.y + a.height <= b.y + b.height
  }

  /** The rectangles share no cell. */
  predicate Apart(a: Rect, b: Rect) {
    || a.x + a.width <= b.x || b.x + b.width <= a.x
    || a.y + a.height <= b.y || b.y + b.height <= a.y
  }

  // Sizes.

  function Sum(s: seq<nat>): nat {
    if s == [] then 0 else s[0] + Sum(s[1..])
  }

  /** The remainder loop: one extra unit for each of the first children. */
  function Spread(count: nat, base: nat, remainder: nat): (s: seq<nat>)
    ensures |s| == count
  {
    if count == 0 then []
    else if remainder != 0 then [base + 1] + Spread(count - 1, base, remainder - 1)
    else [base] + Spread(count - 1, base, 0)
  }

  function EvenSizes(extent: nat, count: nat): (s: seq<nat>)
    ensures |s| == count
  {
    if count == 0 then [] else Spread(count, extent / count, extent % count)
  }

  /** The same loop over chrome (three rows) and flexible children. */
  function SpreadFlexible(chrome: seq<bool>, base: nat, remainder: nat): (s: seq<nat>)
    ensures |s| == |chrome|
  {
    if chrome == [] then []
    else if chrome[0] then [3] + SpreadFlexible(chrome[1..], base, remainder)
    else if remainder != 0 then [base + 1] + SpreadFlexible(chrome[1..], base, remainder - 1)
    else [base] + SpreadFlexible(chrome[1..], base, 0)
  }

  function CountOf(flags: seq<bool>, value: bool): (n: nat)
    ensures n <= |flags|
  {
    if flags == [] then 0 else (if flags[0] == value then 1 else 0) + CountOf(flags[1..], value)
  }

  function SaturatingAdd(a: u16, b: u16): u16 {
    if a + b > U16_MAX then U16_MAX else a + b
  }

  function WrappingAdd(a: u16, b: u16): u16 {
    (a + b) % (U16_MAX + 1)
  }

  function FixedTotal(chrome: seq<bool>, height: u16): u16 {
    if chrome == [] then 0
    else
      var front := FixedTotal(chrome[..|chrome| - 1], height);
      if chrome[|chrome| - 1] then SaturatingAdd(front, if height < 3 then height else 3) else front
  }

  /** Whether the chrome rows and one row per flexible child do not fit. */
  predicate FallsBack(chrome: seq<bool>, height: u16) {
    var fixed := FixedTotal(chrome, height);
    fixed >= height || fixed + CountOf(chrome, false) > height
  }

  function Heights(chrome: seq<bool>, height: u16): (s: seq<nat>)
    ensures |s| == |chrome|
  {
    if FallsBack(chrome, height) then EvenSizes(height, |chrome|)
    else
      var flexible := CountOf(chrome, false);
      var remaining := height - FixedTotal(chrome, height);
      if flexible == 0 then SpreadFlexible(chrome, 0, 0)
      else SpreadFlexible(chrome, remaining / flexible, remaining % flexible)
  }

  ghost predicate Descending(s: seq<nat>) {
    forall i, j :: 0 <= i < j < |s| ==> s[j] <= s[i]
  }

  lemma {:induction false} SpreadSum(count: nat, base: nat, remainder: nat)
    ensures Sum(Spread(count, base, remainder)) == count * base + if remainder < count then remainder else count
    ensures forall i :: 0 <= i < count ==> base <= Spread(count, base, remainder)[i] <= base + 1
    ensures remainder == 0 ==> forall i :: 0 <= i < count ==> Spread(count, base, remainder)[i] == base
    ensures Descending(Spread(count, base, remainder))
  {
    if count > 0 {
      SpreadSum(count - 1, base, if remainder != 0 then remainder - 1 else 0);
      assert count * base == (count - 1) * base + base;
    }
  }

  lemma OneMore(n: nat, base: nat)
    ensures (n + 1) * base == n * base + base
  {
  }

  lemma {:induction false} SpreadFlexibleSum(chrome: seq<bool>, base: nat, remainder: nat)
    ensures var flexible := CountOf(chrome, false);
            Sum(SpreadFlexible(chrome, base, remainder)) ==
            3 * CountOf(chrome, true) + flexible * base + if remainder < flexible then remainder else flexible
  {
    if chrome != [] {
      SpreadFlexibleSum(chrome[1..], base, if !chrome[0] && remainder != 0 then remainder - 1 else remainder);
      OneMore(CountOf(chrome[1..], false), base);
    }
  }

  lemma {:induction false} SpreadFlexibleSizes(chrome: seq<bool>, base: nat, remainder: nat)
    ensures forall i :: 0 <= i < |chrome| ==>
              var size := SpreadFlexible(chrome, base, remainder)[i];
              if chrome[i] then size == 3 else base <= size <= if remainder == 0 then base else base + 1
  {
    if chrome != [] {
      SpreadFlexibleSizes(chrome[1..], base, if !chrome[0] && remainder != 0 then remainder - 1 else remainder);
    }
  }

  /** Of two flexible children the earlier is not the smaller. */
  lemma {:induction false} SpreadFlexibleDescends(chrome: seq<bool>, base: nat, remainder: nat, i: nat, j: nat)
    requires i < j < |chrome| && !chrome[i] && !chrome[j]
    ensures SpreadFlexible(chrome, base, remainder)[j] <= SpreadFlexible(chrome, base, remainder)[i]
  {
    var rest := if !chrome[0] && remainder != 0 then remainder - 1 else remainder;
    if i == 0 {
      SpreadFlexibleSizes(chrome[1..], base, rest);
    } else {
      SpreadFlexibleDescends(chrome[1..], base, rest, i - 1, j - 1);
    }
  }

  lemma {:induction false} CountSnoc(flags: seq<bool>, value: bool)
    requires flags != []
    ensures CountOf(flags, value) ==
            CountOf(flags[..|flags| - 1], value) + if flags[|flags| - 1] == value then 1 else 0
  {
    if |flags| > 1 {
      CountSnoc(flags[1..], value);
      assert flags[1..][..|flags| - 2] == flags[..|flags| - 1][1..];
    } else {
      assert flags[1..] == [] && flags[..0] == [];
    }
  }

  /** Below the height the saturating total is exact: three rows per chrome child. */
  lemma {:induction false} FixedTotalExact(chrome: seq<bool>, height: u16)
    ensures FixedTotal(chrome, height) >= height <==> 3 * CountOf(chrome, true) >= height
    ensures height >= 3 ==>
              FixedTotal(chrome, height) ==
              if 3 * CountOf(chrome, true) <= U16_MAX then 3 * CountOf(chrome, true) else U16_MAX
    ensures CountOf(chrome, true) == 0 ==> FixedTotal(chrome, height) == 0
  {
    if chrome != [] {
      FixedTotalExact(chrome[..|chrome| - 1], height);
      CountSnoc(chrome, true);
    }
  }

  lemma DivFacts(a: nat, b: nat)
    requires b > 0
    ensures b * (a / b) + a % b == a && a % b < b
    ensures a / b <= a && a % b <= a
    ensures a >= b ==> a / b >= 1
  {
    var q, r := a / b, a % b;
    assert b * q + r == a;
    MulAtLeast(b, q);
  }

  lemma MulAtLeast(b: nat, q: nat)
    requires b > 0
    ensures b * q >= q
  {
  }

  /** Even sizes add up to the extent and differ by at most one, the larger first. */
  lemma EvenSizesExact(extent: nat, count: nat)
    requires count > 0
    ensures Sum(EvenSizes(extent, count)) == extent
    ensures forall i, j :: 0 <= i < count && 0 <= j < count ==>
              EvenSizes(extent, count)[i] <= EvenSizes(extent, count)[j] + 1
    ensures Descending(EvenSizes(extent, count))
  {
    SpreadSum(count, extent / count, extent % count);
    DivFacts(extent, count);
  }

  /** Outside the fallback: chrome gets three rows, a flexible child at least
      one and no two differ by more, and the rows are used up exactly when some
      child is flexible. */
  lemma ChromeHeightsExact(chrome: seq<bool>, height: u16)
    requires !FallsBack(chrome, height)
    ensures forall i :: 0 <= i < |chrome| ==>
              if chrome[i] then Heights(chrome, height)[i] == 3 else Heights(chrome, height)[i] >= 1
    ensures forall i, j :: 0 <= i < j < |chrome| && !chrome[i] && !chrome[j] ==>
              Heights(chrome, height)[j] <= Heights(chrome, height)[i] <= Heights(chrome, height)[j] + 1
    ensures Sum(Heights(chrome, height)) <= height
    ensures Sum(Heights(chrome, height)) == height <==> CountOf(chrome, false) > 0
  {
    FixedExact(chrome, height);
    var flexible := CountOf(chrome, false);
    var remaining := height - FixedTotal(chrome, height);
    if flexible == 0 {
      SpreadFlexibleSum(chrome, 0, 0);
      SpreadFlexibleSizes(chrome, 0, 0);
      NoFlexible(chrome);
      assert Sum(Heights(chrome, height)) == 3 * CountOf(chrome, true);
    } else {
      SpreadFlexibleExact(chrome, remaining);
      assert Sum(Heights(chrome, height)) == 3 * CountOf(chrome, true) + remaining;
    }
  }

  lemma FixedExact(chrome: seq<bool>, height: u16)
    requires FixedTotal(chrome, height) < height
    ensures FixedTotal(chrome, height) == 3 * CountOf(chrome, true)
  {
    FixedTotalExact(chrome, height);
  }

  lemma SpreadFlexibleExact(chrome: seq<bool>, remaining: nat)
    requires 0 < CountOf(chrome, false) <= remaining
    ensures var flexible := CountOf(chrome, false);
            var sizes := SpreadFlexible(chrome, remaining / flexible, remaining % flexible);
            && Sum(sizes) == 3 * CountOf(chrome, true) + remaining
            && (forall i :: 0 <= i < |chrome| ==> if chrome[i] then sizes[i] == 3 else sizes[i] >= 1)
            && forall i, j :: 0 <= i < j < |chrome| && !chrome[i] && !chrome[j] ==> sizes[j] <= sizes[i] <= sizes[j] + 1
  {
    var flexible := CountOf(chrome, false);
    DivFacts(remaining, flexible);
    SpreadFlexibleSum(chrome, remaining / flexible, remaining % flexible);
    SpreadFlexibleSizes(chrome, remaining / flexible, remaining % flexible);
    forall i, j | 0 <= i < j < |chrome| && !chrome[i] && !chrome[j]
      ensures var sizes := SpreadFlexible(chrome, remaining / flexible, remaining % flexible); sizes[j] <= sizes[i]
    {
      SpreadFlexibleDescends(chrome, remaining / flexible, remaining % flexible, i, j);
    }
  }

  lemma {:induction false} NoFlexible(chrome: seq<bool>)
    requires CountOf(chrome, false) == 0
    ensures forall i :: 0 <= i < |chrome| ==> chrome[i]
  {
    if chrome != [] { NoFlexible(chrome[1..]); }
  }

  /** The fallback is taken exactly when the nominal rows do not fit. */
  lemma FallsBackIff(chrome: seq<bool>, height: u16)
    ensures FallsBack(chrome, height) <==>
            3 * CountOf(chrome, true) >= height || 3 * CountOf(chrome, true) + CountOf(chrome, false) > height
  {
    FixedTotalExact(chrome, height);
  }

  lemma HeightsFit(chrome: seq<bool>, height: u16)
    requires chrome != []
    ensures Sum(Heights(chrome, height)) <= height
  {
    if FallsBack(chrome, height) { EvenSizesExact(height, |chrome|); } else { ChromeHeightsExact(chrome, height); }
  }

  // Child rectangles.

  datatype Axis = Horizontal | Vertical

  function LayoutAxis(kind: NodeKind): Axis {
    if kind == HContainer then Horizontal else Vertical
  }

  predicate IsChrome(kind: NodeKind) { kind == ModelineRegion || kind == MenuRegion }

  function ChromeFlags(slots: Slots, ids: seq<NodeId>): (flags: seq<bool>)
    ensures |flags| == |ids|
    ensures forall i :: 0 <= i < |ids| ==>
              flags[i] == (Live(slots, ids[i]) && IsChrome(Find(slots, ids[i]).value.kind))
  {
    if ids == [] then []
    else ChromeFlags(slots, ids[..|ids| - 1])
         + [Live(slots, ids[|ids| - 1]) && IsChrome(Find(slots, ids[|ids| - 1]).value.kind)]
  }

  /** Columns of the given widths, side by side from `x`. */
  function Columns(rect: Rect, x: nat, widths: seq<nat>): (r: seq<Rect>)
    requires x + Sum(widths) <= U16_MAX
    ensures |r| == |widths|
    decreases |widths|
  {
    if widths == [] then []
    else [Rect(x, rect.y, widths[0], rect.height)] + Columns(rect, x + widths[0], widths[1..])
  }

  /** Rows of the given heights, one under another from `y`. */
  function Rows(rect: Rect, y: nat, heights: seq<nat>): (r: seq<Rect>)
    requires y + Sum(heights) <= U16_MAX
    ensures |r| == |heights|
    decreases |heights|
  {
    if heights == [] then []
    else [Rect(rect.x, y, rect.width, heights[0])] + Rows(rect, y + heights[0], heights[1..])
  }

  function ChildSizes(slots: Slots, id: NodeId, rect: Rect): (s: seq<nat>)
    requires Live(slots, id)
    ensures |s| == |Kids(slots, id)|
  {
    if LayoutAxis(Find(slots, id).value.kind) == Horizontal then EvenSizes(rect.width, |Kids(slots, id)|)
    else Heights(ChromeFlags(slots, Kids(slots, id)), rect.height)
  }

  lemma ChildSizesFit(slots: Slots, id: NodeId, rect: Rect)
    requires Live(slots, id)
    ensures Sum(ChildSizes(slots, id, rect)) <=
            if LayoutAxis(Find(slots, id).value.kind) == Horizontal then rect.width else rect.height
  {
    if Kids(slots, id) != [] {
      EvenSizesExact(rect.width, |Kids(slots, id)|);
      HeightsFit(ChromeFlags(slots, Kids(slots, id)), rect.height);
    }
  }

  function ChildRects(slots: Slots, id: NodeId, rect: Rect): (r: seq<Rect>)
    requires Live(slots, id) && rect.WellPlaced()
    ensures |r| == |Kids(slots, id)|
  {
    ChildSizesFit(slots, id, rect);
    var sizes := ChildSizes(slots, id, rect);
    if LayoutAxis(Find(slots, id).value.kind) == Horizontal then Columns(rect, rect.x, sizes)
    else Rows(rect, rect.y, sizes)
  }

  /** Well-placed, inside `bound`, and pairwise apart. */
  ghost predicate Partition(rects: seq<Rect>, bound: Rect) {
    && (forall i :: 0 <= i < |rects| ==> rects[i].WellPlaced() && Inside(rects[i], bound))
    && (forall i, j :: 0 <= i < j < |rects| ==> Apart(rects[i], rects[j]))
  }

  lemma {:induction false} ColumnsPartition(rect: Rect, x: nat, widths: seq<nat>)
    requires rect.WellPlaced() && rect.x <= x && x + Sum(widths) <= rect.x + rect.width
    ensures Partition(Columns(rect, x, widths), rect)
    ensures forall i :: 0 <= i < |widths| ==>
              x <= Columns(rect, x, widths)[i].x && Columns(rect, x, widths)[i].width == widths[i]
    decreases |widths|
  {
    if widths != [] { ColumnsPartition(rect, x + widths[0], widths[1..]); }
  }

  lemma {:induction false} RowsPartition(rect: Rect, y: nat, heights: seq<nat>)
    requires rect.WellPlaced() && rect.y <= y && y + Sum(heights) <= rect.y + rect.height
    ensures Partition(Rows(rect, y, heights), rect)
    ensures forall i :: 0 <= i < |heights| ==>
              y <= Rows(rect, y, heights)[i].y && Rows(rect, y, heights)[i].height == heights[i]
    decreases |heights|
  {
    if heights != [] { RowsPartition(rect, y + heights[0], heights[1..]); }
  }

  /** The children's rectangles partition their parent's. */
  lemma ChildRectsPartition(slots: Slots, id: NodeId, rect: Rect)
    requires Live(slots, id) && rect.WellPlaced()
    ensures Partition(ChildRects(slots, id, rect), rect)
  {
    ChildSizesFit(slots, id, rect);
    var sizes := ChildSizes(slots, id, rect);
    if LayoutAxis(Find(slots, id).value.kind) == Horizontal {
      ColumnsPartition(rect, rect.x, sizes);
    } else {
      RowsPartition(rect, rect.y, sizes);
    }
  }

  /** Exact tiling: the rectangles abut in order and cover the extent. */
  ghost predicate Tiles(rects: seq<Rect>, rect: Rect, sideBySide: bool) {
    && rects != []
    && (forall i :: 0 <= i < |rects| ==>
          if sideBySide then rects[i].y == rect.y && rects[i].height == rect.height
          else rects[i].x == rect.x && rects[i].width == rect.width)
    && (if sideBySide then
          rects[0].x == rect.x && rects[|rects| - 1].x + rects[|rects| - 1].width == rect.x + rect.width &&
          forall i :: 0 < i < |rects| ==> rects[i].x == rects[i - 1].x + rects[i - 1].width
        else
          rects[0].y == rect.y && rects[|rects| - 1].y + rects[|rects| - 1].height == rect.y + rect.height &&
          forall i :: 0 < i < |rects| ==> rects[i].y == rects[i - 1].y + rects[i - 1].height)
  }

  lemma {:induction false} ColumnsTile(rect: Rect, x: nat, widths: seq<nat>)
    requires widths != [] && x + Sum(widths) <= U16_MAX
    ensures var r := Columns(rect, x, widths);
            && r[0].x == x && r[|r| - 1].x + r[|r| - 1].width == x + Sum(widths)
            && (forall i :: 0 <= i < |r| ==> r[i].y == rect.y && r[i].height == rect.height)
            && (forall i :: 0 < i < |r| ==> r[i].x == r[i - 1].x + r[i - 1].width)
    decreases |widths|
  {
    if |widths| > 1 { ColumnsTile(rect, x + widths[0], widths[1..]); }
  }

  lemma {:induction false} RowsTile(rect: Rect, y: nat, heights: seq<nat>)
    requires heights != [] && y + Sum(heights) <= U16_MAX
    ensures var r := Rows(rect, y, heights);
            && r[0].y == y && r[|r| - 1].y + r[|r| - 1].height == y + Sum(heights)
            && (forall i :: 0 <= i < |r| ==> r[i].x == rect.x && r[i].width == rect.width)
            && (forall i :: 0 < i < |r| ==> r[i].y == r[i - 1].y + r[i - 1].height)
    decreases |heights|
  {
    if |heights| > 1 { RowsTile(rect, y + heights[0], heights[1..]); }
  }

  lemma ColumnsTileIff(rect: Rect, widths: seq<nat>)
    requires widths != [] && rect.WellPlaced() && Sum(widths) <= rect.width
    ensures Tiles(Columns(rect, rect.x, widths), rect, true) <==> Sum(widths) == rect.width
  {
    ColumnsTile(rect, rect.x, widths);
  }

  lemma RowsTileIff(rect: Rect, heights: seq<nat>)
    requires heights != [] && rect.WellPlaced() && Sum(heights) <= rect.height
    ensures Tiles(Rows(rect, rect.y, heights), rect, false) <==> Sum(heights) == rect.height
  {
    RowsTile(rect, rect.y, heights);
  }

  /** The children tile the parent exactly, side by side in a horizontal
      container and one under another elsewhere, unless there every child is
      chrome and the chrome rows leave some over. */
  lemma ChildRectsTileIff(slots: Slots, id: NodeId, rect: Rect)
    requires Live(slots, id) && Kids(slots, id) != [] && rect.WellPlaced()
    ensures var sideBySide := Find(slots, id).value.kind == HContainer;
            var chrome := ChromeFlags(slots, Kids(slots, id));
            Tiles(ChildRects(slots, id, rect), rect, sideBySide) <==>
            sideBySide || FallsBack(chrome, rect.height) || CountOf(chrome, false) > 0
  {
    ChildSizesFit(slots, id, rect);
    var sizes := ChildSizes(slots, id, rect);
    var chrome := ChromeFlags(slots, Kids(slots, id));
    if Find(slots, id).value.kind == HContainer {
      EvenSizesExact(rect.width, |Kids(slots, id)|);
      ColumnsTileIff(rect, sizes);
    } else {
      RowsTileIff(rect, sizes);
      if FallsBack(chrome, rect.height) {
        EvenSizesExact(rect.height, |chrome|);
      } else {
        ChromeHeightsExact(chrome, rect.height);
      }
    }
  }

  // By kind.

  /** How many of the nodes are a menu or a modeline. */
  function Bars(slots: Slots, ids: seq<NodeId>): nat {
    if ids == [] then 0
    else
      (if Live(slots, ids[0]) && Find(slots, ids[0]).value.kind in {MenuRegion, ModelineRegion} then 1 else 0)
      + Bars(slots, ids[1..])
  }

  lemma {:induction false} BarsCounted(slots: Slots, ids: seq<NodeId>)
    ensures CountOf(ChromeFlags(slots, ids), true) == Bars(slots, ids)
    ensures CountOf(ChromeFlags(slots, ids), false) == |ids| - Bars(slots, ids)
  {
    if ids != [] {
      BarsCounted(slots, ids[1..]);
      assert ChromeFlags(slots, ids)[1..] == ChromeFlags(slots, ids[1..]);
    }
  }

  /** Where each child stands: in a horizontal container side by side at full
      height, each beginning where the one before ends; elsewhere one under
      another at full width. */
  lemma ChildRectsByKind(slots: Slots, id: NodeId, rect: Rect, i: nat)
    requires Live(slots, id) && rect.WellPlaced() && i < |Kids(slots, id)|
    ensures var rects := ChildRects(slots, id, rect);
            if Find(slots, id).value.kind == HContainer then
              && rects[i].y == rect.y && rects[i].height == rect.height
              && rects[i].x == (if i == 0 then rect.x else rects[i - 1].x + rects[i - 1].width)
              && (i == |rects| - 1 ==> rects[i].x + rects[i].width == rect.x + rect.width)
            else
              && rects[i].x == rect.x && rects[i].width == rect.width
              && rects[i].y == (if i == 0 then rect.y else rects[i - 1].y + rects[i - 1].height)
  {
    ChildSizesFit(slots, id, rect);
    var sizes := ChildSizes(slots, id, rect);
    if Find(slots, id).value.kind == HContainer {
      EvenSizesExact(rect.width, |Kids(slots, id)|);
      ColumnsTile(rect, rect.x, sizes);
    } else {
      RowsTile(rect, rect.y, sizes);
    }
  }

  /** How large each child is: even widths side by side; elsewhere even heights
      too when three rows for each menu or modeline and one for each other child
      do not fit, and otherwise exactly those three rows and even heights for
      the others. Of even extents the larger come first. */
  lemma ChildExtentsByKind(slots: Slots, id: NodeId, rect: Rect, i: nat, j: nat)
    requires Live(slots, id) && rect.WellPlaced() && i < j < |Kids(slots, id)|
    ensures var kids, rects := Kids(slots, id), ChildRects(slots, id, rect);
            var bars := Bars(slots, kids);
            if Find(slots, id).value.kind == HContainer then
              rects[j].width <= rects[i].width <= rects[j].width + 1
            else if 3 * bars >= rect.height || 2 * bars + |kids| > rect.height then
              rects[j].height <= rects[i].height <= rects[j].height + 1
            else
              var barI := Live(slots, kids[i]) && Find(slots, kids[i]).value.kind in {MenuRegion, ModelineRegion};
              var barJ := Live(slots, kids[j]) && Find(slots, kids[j]).value.kind in {MenuRegion, ModelineRegion};
              && (barI ==> rects[i].height == 3) && (barJ ==> rects[j].height == 3)
              && (!barI && !barJ ==> rects[j].height <= rects[i].height <= rects[j].height + 1)
  {
    SizesAreExtents(slots, id, rect);
    if Find(slots, id).value.kind == HContainer {
      EvenSizesExact(rect.width, |Kids(slots, id)|);
    } else {
      BarsCounted(slots, Kids(slots, id));
      HeightsByFlag(ChromeFlags(slots, Kids(slots, id)), rect.height, Bars(slots, Kids(slots, id)), i, j);
    }
  }

  lemma HeightsByFlag(chrome: seq<bool>, height: u16, bars: nat, i: nat, j: nat)
    requires i < j < |chrome| && bars == CountOf(chrome, true) && CountOf(chrome, false) == |chrome| - bars
    ensures var sizes := Heights(chrome, height);
            if 3 * bars >= height || 2 * bars + |chrome| > height then sizes[j] <= sizes[i] <= sizes[j] + 1
            else
              && (chrome[i] ==> sizes[i] == 3) && (chrome[j] ==> sizes[j] == 3)
              && (!chrome[i] && !chrome[j] ==> sizes[j] <= sizes[i] <= sizes[j] + 1)
  {
    FallsBackIff(chrome, height);
    if FallsBack(chrome, height) {
      EvenSizesExact(height, |chrome|);
    } else {
      ChromeHeightsExact(chrome, height);
    }
  }

  lemma SizesAreExtents(slots: Slots, id: NodeId, rect: Rect)
    requires Live(slots, id) && rect.WellPlaced()
    ensures forall i :: 0 <= i < |Kids(slots, id)| ==>
              var child := ChildRects(slots, id, rect)[i];
              ChildSizes(slots, id, rect)[i] ==
              if LayoutAxis(Find(slots, id).value.kind) == Horizontal then child.width else child.height
  {
    ChildSizesFit(slots, id, rect);
    if LayoutAxis(Find(slots, id).value.kind) == Horizontal {
      ColumnsPartition(rect, rect.x, ChildSizes(slots, id, rect));
    } else {
      RowsPartition(rect, rect.y, ChildSizes(slots, id, rect));
    }
  }
}
