/** The lines a region shows (src/core/projection.zig, `buildContentView`):
    split, trimmed, scrolled and clipped to the region's inside. */
module ContentView {
  import opened Basics
  import opened Projection
  import opened Selectors

  function InnerExtent(value: u16): (n: nat)
    ensures n <= value
  {
    if value > 2 then value - 2 else 0
  }

  function TrimCr(line: string): string {
    if line != "" && line[|line| - 1] == '\r' then line[..|line| - 1] else line
  }

  predicate IsBlank(line: string) {
    forall i :: 0 <= i < |line| ==> line[i] in " \t\n\r" || line[i] as int == 0x0B || line[i] as int == 0x0C
  }

  function TrimEach(lines: seq<string>): (r: seq<string>)
    ensures |r| == |lines|
  {
    if lines == [] then [] else TrimEach(lines[..|lines| - 1]) + [TrimCr(lines[|lines| - 1])]
  }

  function DropBlank(lines: seq<string>): (r: seq<string>)
    ensures r <= lines && (r != [] ==> !IsBlank(r[|r| - 1]))
    ensures forall i :: |r| <= i < |lines| ==> IsBlank(lines[i])
  {
    if lines != [] && IsBlank(lines[|lines| - 1]) then DropBlank(lines[..|lines| - 1]) else lines
  }

  /** The lines of a text, without trailing blank ones. */
  function ContentLines(text: string): seq<string> {
    if text == "" then [] else DropBlank(TrimEach(Split(text, '\n')))
  }

  function Clip(line: string, width: nat): (r: string)
    ensures |r| <= width && (r == line <==> |line| <= width)
    ensures width >= 2 && |line| > width ==> |r| == width && r[..width - 1] == line[..width - 1] && r[width - 1] == '$'
  {
    if |line| <= width then line
    else if width <= 1 then line[..width]
    else line[..width - 1] + ['$']
  }

  datatype View = View(visible: seq<string>, fullLineCount: nat, scrollTop: nat, scrollMax: nat)

  function ScrollMax(count: nat, height: nat): nat {
    if count > height then count - height else 0
  }

  /** The viewer's offset, else the tail when following, clamped. */
  function ScrollTop(count: nat, height: nat, offset: Option<nat>, followTail: bool): (top: nat)
    ensures top <= ScrollMax(count, height)
  {
    var max := ScrollMax(count, height);
    var wanted := if offset.Some? then offset.value else if followTail && max != 0 then max else 0;
    if wanted > max then max else wanted
  }

  function ClipEach(lines: seq<string>, width: nat): (r: seq<string>)
    ensures |r| == |lines| && forall i :: 0 <= i < |r| ==> r[i] == Clip(lines[i], width)
  {
    seq(|lines|, i requires 0 <= i < |lines| => Clip(lines[i], width))
  }

  function Window(lines: seq<string>, top: nat, height: nat): (r: seq<string>)
    requires top <= |lines|
    ensures |r| == if top + height < |lines| then height else |lines| - top
    ensures forall i :: 0 <= i < |r| ==> r[i] == lines[top + i]
  {
    var end := if top + height < |lines| then top + height else |lines|;
    lines[top..end]
  }

  /** The view of the given lines. */
  function Shown(lines: seq<string>, rect: Rect, offset: Option<nat>, followTail: bool): View {
    var width, height := InnerExtent(rect.width), InnerExtent(rect.height);
    if width == 0 || height == 0 || lines == [] then View([], 0, 0, 0)
    else
      var top := ScrollTop(|lines|, height, offset, followTail);
      View(ClipEach(Window(lines, top, height), width), |lines|, top, ScrollMax(|lines|, height))
  }

  method SplitLines(text: string) returns (lines: seq<string>)
    requires text != ""
    ensures lines == ContentLines(text)
  {
    var split := Split(text, '\n');
    lines := [];
    for i := 0 to |split|
      invariant lines == TrimEach(split[..i])
    {
      assert split[..i + 1][..i] == split[..i];
      lines := lines + [TrimCr(split[i])];
    }
    assert split[..|split|] == split;
    while |lines| != 0 && IsBlank(lines[|lines| - 1])
      invariant DropBlank(lines) == ContentLines(text)
      decreases |lines|
    {
      lines := lines[..|lines| - 1];
    }
  }

  method ClipLines(lines: seq<string>, width: nat) returns (visible: seq<string>)
    ensures visible == ClipEach(lines, width)
  {
    visible := [];
    for i := 0 to |lines|
      invariant |visible| == i && forall k :: 0 <= k < i ==> visible[k] == Clip(lines[k], width)
    {
      visible := visible + [Clip(lines[i], width)];
    }
  }

  method BuildContentView(text: string, rect: Rect, offset: Option<nat>, followTail: bool) returns (view: View)
    ensures view == Shown(ContentLines(text), rect, offset, followTail)
  {
    if InnerExtent(rect.width) == 0 || InnerExtent(rect.height) == 0 || |text| == 0 {
      return View([], 0, 0, 0);
    }
    var lines := SplitLines(text);
    view := ScrollLines(lines, rect, offset, followTail);
  }

  method ScrollLines(lines: seq<string>, rect: Rect, offset: Option<nat>, followTail: bool) returns (view: View)
    requires InnerExtent(rect.width) != 0 && InnerExtent(rect.height) != 0
    ensures view == Shown(lines, rect, offset, followTail)
  {
    if |lines| == 0 {
      return View([], 0, 0, 0);
    }
    var height := InnerExtent(rect.height);
    var scrollMax := if |lines| > height then |lines| - height else 0;
    var scrollTop := if offset.Some? then offset.value else if followTail && scrollMax != 0 then scrollMax else 0;
    if scrollTop > scrollMax {
      scrollTop := scrollMax;
    }
    var visible := ClipLines(Window(lines, scrollTop, height), InnerExtent(rect.width));
    view := View(visible, |lines|, scrollTop, scrollMax);
  }

  lemma WindowFits(lines: seq<string>, top: nat, height: nat, width: nat)
    requires top <= ScrollMax(|lines|, height)
    ensures var visible := ClipEach(Window(lines, top, height), width);
            && |visible| == (if |lines| < height then |lines| else height)
            && forall i :: 0 <= i < |visible| ==>
                 top + i < |lines| && |visible[i]| <= width && visible[i] == Clip(lines[top + i], width)
  {
    var window := Window(lines, top, height);
    var visible := ClipEach(window, width);
    forall i | 0 <= i < |visible|
      ensures top + i < |lines| && |visible[i]| <= width && visible[i] == Clip(lines[top + i], width)
    {
      assert window[i] == lines[top + i];
    }
  }

  /** What is shown fits the inside of the region, is the window at the scroll
      position, and wastes no row while there are lines for it. */
  lemma ViewFits(lines: seq<string>, rect: Rect, offset: Option<nat>, followTail: bool)
    ensures var view, height := Shown(lines, rect, offset, followTail), InnerExtent(rect.height);
            && view.scrollTop <= view.scrollMax
            && (InnerExtent(rect.width) != 0 ==> |view.visible| == if |lines| < height then |lines| else height)
            && forall i :: 0 <= i < |view.visible| ==>
                 && view.scrollTop + i < |lines| && |view.visible[i]| <= InnerExtent(rect.width)
                 && view.visible[i] == Clip(lines[view.scrollTop + i], InnerExtent(rect.width))
  {
    var height := InnerExtent(rect.height);
    if lines != [] {
      WindowFits(lines, ScrollTop(|lines|, height, offset, followTail), height, InnerExtent(rect.width));
    }
  }

  /** Scrolling reaches every line; following the tail shows the last one. */
  lemma EveryLineReachable(lines: seq<string>, rect: Rect, line: nat)
    requires InnerExtent(rect.width) != 0 && InnerExtent(rect.height) != 0 && line < |lines|
    ensures exists top: nat :: top <= ScrollMax(|lines|, InnerExtent(rect.height)) &&
              var view := Shown(lines, rect, Some(top), false);
              view.scrollTop == top <= line < top + |view.visible|
    ensures var view := Shown(lines, rect, None, true);
            view.scrollTop + |view.visible| == |lines|
  {
    var max := ScrollMax(|lines|, InnerExtent(rect.height));
    var top := if line < max then line else max;
    ViewFits(lines, rect, Some(top), false);
    ViewFits(lines, rect, None, true);
    assert Shown(lines, rect, Some(top), false).scrollTop == top;
  }

  // Which lines, and from where.

  /** ASCII white space. */
  predicate OnlySpace(line: string) {
    forall c :: c in line ==> c as int == 0x20 || 0x09 <= c as int <= 0x0D
  }

  lemma BlankIff(line: string)
    ensures IsBlank(line) <==> OnlySpace(line)
    ensures OnlySpace(line) ==> OnlySpace(TrimCr(line))
  {
    forall i | 0 <= i < |line|
      ensures line[i] in line
      ensures (line[i] in " \t\n\r" || line[i] as int == 0x0B || line[i] as int == 0x0C) <==>
              (line[i] as int == 0x20 || 0x09 <= line[i] as int <= 0x0D)
    {
      Space(line[i]);
    }
  }

  lemma Space(c: char)
    ensures c in " \t\n\r" <==> c as int in {0x20, 0x09, 0x0A, 0x0D}
  {
    var s := " \t\n\r";
    assert s[0] as int == 0x20 && s[1] as int == 0x09 && s[2] as int == 0x0A && s[3] as int == 0x0D;
    if c as int == 0x20 { assert c == s[0]; }
    if c as int == 0x09 { assert c == s[1]; }
    if c as int == 0x0A { assert c == s[2]; }
    if c as int == 0x0D { assert c == s[3]; }
  }

  /** The lines with a carriage return where `marks` says so. */
  function Marked(lines: seq<string>, marks: seq<bool>): (r: seq<string>)
    requires |marks| == |lines|
    ensures |r| == |lines|
  {
    seq(|lines|, i requires 0 <= i < |lines| => lines[i] + if marks[i] then "\r" else "")
  }

  lemma {:induction false} TrimEachAt(lines: seq<string>, i: nat)
    requires i < |lines|
    ensures TrimEach(lines)[i] == TrimCr(lines[i])
  {
    if i < |lines| - 1 { TrimEachAt(lines[..|lines| - 1], i); }
  }

  lemma MarkTrims(line: string, mark: bool)
    requires line == "" || line[|line| - 1] != '\r'
    ensures TrimCr(line + if mark then "\r" else "") == line
  {
    assert (line + "\r")[..|line|] == line && line + "" == line;
  }

  lemma TrimmedParts(lines: seq<string>, marks: seq<bool>, blanks: seq<string>)
    requires |marks| == |lines|
    requires forall i :: 0 <= i < |lines| ==> lines[i] == "" || lines[i][|lines[i]| - 1] != '\r'
    requires forall i :: 0 <= i < |blanks| ==> OnlySpace(blanks[i])
    ensures var trimmed := TrimEach(Marked(lines, marks) + blanks);
            trimmed[..|lines|] == lines && forall i :: |lines| <= i < |trimmed| ==> IsBlank(trimmed[i])
  {
    var parts := Marked(lines, marks) + blanks;
    forall i | 0 <= i < |parts|
      ensures if i < |lines| then TrimEach(parts)[i] == lines[i] else IsBlank(TrimEach(parts)[i])
    {
      TrimEachAt(parts, i);
      if i < |lines| {
        MarkTrims(lines[i], marks[i]);
      } else {
        BlankIff(parts[i]);
        BlankIff(TrimCr(parts[i]));
      }
    }
  }

  lemma PlainParts(lines: seq<string>, marks: seq<bool>, blanks: seq<string>)
    requires |marks| == |lines|
    requires forall i :: 0 <= i < |lines| ==> '\n' !in lines[i]
    requires forall i :: 0 <= i < |blanks| ==> '\n' !in blanks[i]
    ensures var parts := Marked(lines, marks) + blanks; forall i :: 0 <= i < |parts| ==> '\n' !in parts[i]
  {
  }

  lemma PartsAreRecovered(lines: seq<string>, marks: seq<bool>, blanks: seq<string>)
    requires lines != [] && |marks| == |lines| && !OnlySpace(lines[|lines| - 1])
    requires forall i :: 0 <= i < |lines| ==> lines[i] == "" || lines[i][|lines[i]| - 1] != '\r'
    requires forall i :: 0 <= i < |blanks| ==> OnlySpace(blanks[i])
    ensures DropBlank(TrimEach(Marked(lines, marks) + blanks)) == lines
  {
    TrimmedParts(lines, marks, blanks);
    BlankIff(lines[|lines| - 1]);
    OneTrimmed(TrimEach(Marked(lines, marks) + blanks), lines);
  }

  lemma OneTrimmed(trimmed: seq<string>, lines: seq<string>)
    requires lines != [] && lines <= trimmed && !IsBlank(lines[|lines| - 1])
    requires forall i :: |lines| <= i < |trimmed| ==> IsBlank(trimmed[i])
    ensures DropBlank(trimmed) == lines
  {
    var r := DropBlank(trimmed);
    assert |r| == |lines|;
  }

  lemma NothingOfNothing()
    ensures DropBlank(TrimEach(Split("", '\n'))) == []
  {
    assert Split("", '\n') == [""] && [""][..0] == [];
    assert TrimEach([""]) == [] + [""];
    assert DropBlank([]) == [];
  }

  lemma LinesOfParts(text: string, parts: seq<string>)
    requires Split(text, '\n') == parts
    ensures ContentLines(text) == DropBlank(TrimEach(parts))
  {
    NothingOfNothing();
  }

  /** Lines joined with line feeds, each with or without a carriage return, and
      blank lines after them: the view is of exactly those lines. */
  lemma LinesAreRecovered(lines: seq<string>, marks: seq<bool>, blanks: seq<string>)
    requires lines != [] && |marks| == |lines| && !OnlySpace(lines[|lines| - 1])
    requires forall i :: 0 <= i < |lines| ==> '\n' !in lines[i] && (lines[i] == "" || lines[i][|lines[i]| - 1] != '\r')
    requires forall i :: 0 <= i < |blanks| ==> '\n' !in blanks[i] && OnlySpace(blanks[i])
    ensures ContentLines(Join(Marked(lines, marks) + blanks, '\n')) == lines
  {
    PlainParts(lines, marks, blanks);
    SplitJoin(Marked(lines, marks) + blanks, '\n');
    PartsAreRecovered(lines, marks, blanks);
    LinesOfParts(Join(Marked(lines, marks) + blanks, '\n'), Marked(lines, marks) + blanks);
  }

  /** Where the view begins: at the viewer's offset if there is one, whether or
      not the tail is followed, but not past the last full page; otherwise at
      the tail or the top. Without lines or room for any, nothing is shown. */
  lemma ViewBegins(lines: seq<string>, rect: Rect, offset: Option<nat>, followTail: bool)
    ensures var view := Shown(lines, rect, offset, followTail);
            if lines == [] || rect.width <= 2 || rect.height <= 2 then view == View([], 0, 0, 0)
            else
              var last := if |lines| > rect.height - 2 then |lines| - (rect.height - 2) else 0;
              && view.scrollMax == last && view.fullLineCount == |lines|
              && view.scrollTop ==
                 match offset
                 case Some(wanted) => if wanted <= last then wanted else last
                 case None => if followTail then last else 0
  {
  }
}
