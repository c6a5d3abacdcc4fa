/** Resolving `/`-separated selectors (src/core/document.zig). */
module Selectors {
  import opened Basics
  import opened Decimal
  import opened Names
  import opened Forests
  import opened DocumentState
  import opened DocumentOps
  import opened DocumentRuns

  /** The parts of `s` between separators; always at least one. */
  function Split<T(==)>(s: seq<T>, sep: T): (parts: seq<seq<T>>)
    ensures parts != []
  {
    if s == [] then [[]]
    else
      var rest := Split(s[1..], sep);
      if s[0] == sep then [[]] + rest else [[s[0]] + rest[0]] + rest[1..]
  }

  function Join<T>(parts: seq<seq<T>>, sep: T): seq<T> {
    if parts == [] then [] else if |parts| == 1 then parts[0] else parts[0] + [sep] + Join(parts[1..], sep)
  }

  lemma {:induction false} SplitPart<T>(part: seq<T>, rest: seq<T>, sep: T)
    requires sep !in part
    ensures Split(part, sep) == [part]
    ensures Split(part + [sep] + rest, sep) == [part] + Split(rest, sep)
  {
    if part == [] {
      assert part + [sep] + rest == [sep] + rest;
    } else {
      SplitPart(part[1..], rest, sep);
      assert (part + [sep] + rest)[1..] == part[1..] + [sep] + rest;
      assert [part[0]] + part[1..] == part;
    }
  }

  lemma {:induction false} SplitJoin<T>(parts: seq<seq<T>>, sep: T)
    requires parts != [] && forall i :: 0 <= i < |parts| ==> sep !in parts[i]
    ensures Split(Join(parts, sep), sep) == parts
  {
    if |parts| == 1 {
      SplitPart(parts[0], [], sep);
    } else {
      SplitPart(parts[0], Join(parts[1..], sep), sep);
      SplitJoin(parts[1..], sep);
    }
  }

  // One segment.

  predicate MatchesSegment(node: NodeState, segment: string) {
    || node.name == Some(segment)
    || ToDecimal(node.id) == segment
    || NODE_PREFIX + ToDecimal(node.id) == segment
  }

  /** The scan over the children: how many match, and the last that does. */
  function Matches(slots: Slots, kids: seq<NodeId>, segment: string): (nat, NodeId) {
    if kids == [] then (0, 0)
    else
      var (count, last) := Matches(slots, kids[..|kids| - 1], segment);
      var c := kids[|kids| - 1];
      if Live(slots, c) && MatchesSegment(Find(slots, c).value, segment) then (count + 1, c) else (count, last)
  }

  function ResolveChild(slots: Slots, parent: NodeId, segment: string): Result<NodeId, DocError> {
    if !Live(slots, parent) then Err(InvalidResourceSelector)
    else
      var (count, last) := Matches(slots, Kids(slots, parent), segment);
      if count == 0 then Err(UnknownResourceSelectorSegment)
      else if count == 1 then Ok(last)
      else Err(AmbiguousResourceSelector)
  }

  function ResolveSegment(slots: Slots, current: NodeId, segment: string): Result<NodeId, DocError> {
    if segment == "" || segment == "." then Ok(current)
    else if segment == ".." then
      if !Live(slots, current) then Err(InvalidResourceSelector)
      else if Parent(slots, current).None? then Err(ResourceSelectorEscapesRoot)
      else Ok(Parent(slots, current).value)
    else match ParseDirectReference(segment)
      case Some(id) => if Live(slots, id) then Ok(id) else Err(UnknownResourceSelectorSegment)
      case None => ResolveChild(slots, current, segment)
  }

  function ResolveAll(slots: Slots, current: NodeId, segments: seq<string>): Result<NodeId, DocError>
    decreases |segments|
  {
    if segments == [] then Ok(current)
    else match ResolveSegment(slots, current, segments[0])
      case Err(e) => Err(e)
      case Ok(next) => ResolveAll(slots, next, segments[1..])
  }

  /** `resolveSelector`. */
  function Resolve(d: DocState, selector: Option<string>): Result<NodeId, DocError> {
    if selector.None? || selector.value == "" || selector.value == "/" then Ok(d.root)
    else ResolveAll(d.slots, d.root, Split(selector.value, '/'))
  }

  // Soundness.

  lemma {:induction false} MatchIsListed(slots: Slots, kids: seq<NodeId>, segment: string)
    ensures Matches(slots, kids, segment).0 > 0 ==>
              Matches(slots, kids, segment).1 in kids && Live(slots, Matches(slots, kids, segment).1)
  {
    if kids != [] { MatchIsListed(slots, kids[..|kids| - 1], segment); }
  }

  lemma ResolvedSegmentLive(slots: Slots, root: NodeId, current: NodeId, segment: string)
    requires Linked(slots, root) && Live(slots, current)
    ensures var r := ResolveSegment(slots, current, segment); r.Ok? ==> Live(slots, r.value)
  {
    MatchIsListed(slots, Kids(slots, current), segment);
    assert LinkedUp(slots, root, current);
  }

  lemma {:induction false} ResolvedAllLive(slots: Slots, root: NodeId, current: NodeId, segments: seq<string>)
    requires Linked(slots, root) && Live(slots, current)
    ensures var r := ResolveAll(slots, current, segments); r.Ok? ==> Live(slots, r.value)
    decreases |segments|
  {
    if segments != [] && ResolveSegment(slots, current, segments[0]).Ok? {
      ResolvedSegmentLive(slots, root, current, segments[0]);
      ResolvedAllLive(slots, root, ResolveSegment(slots, current, segments[0]).value, segments[1..]);
    }
  }

  /** Every successful resolution names a live node. */
  lemma ResolvedIsLive(d: DocState, selector: Option<string>)
    requires TreeShaped(d.slots, d.root)
    ensures var r := Resolve(d, selector); r.Ok? ==> Live(d.slots, r.value)
  {
    if selector.Some? { ResolvedAllLive(d.slots, d.root, d.root, Split(selector.value, '/')); }
  }

  // Composing selectors.

  lemma SplitCons<T>(x: T, s: seq<T>, sep: T)
    ensures Split([x] + s, sep) ==
            var rest := Split(s, sep); if x == sep then [[]] + rest else [[x] + rest[0]] + rest[1..]
  {
    assert ([x] + s)[1..] == s;
  }

  lemma {:induction false} SplitConcat<T>(a: seq<T>, b: seq<T>, sep: T)
    ensures Split(a + [sep] + b, sep) == Split(a, sep) + Split(b, sep)
  {
    if a == [] {
      SplitCons(sep, b, sep);
      assert a + [sep] + b == [sep] + b;
    } else {
      var x, t := a[0], a[1..];
      assert a == [x] + t && a + [sep] + b == [x] + (t + [sep] + b);
      SplitConcat(t, b, sep);
      SplitCons(x, t, sep);
      SplitCons(x, t + [sep] + b, sep);
      FirstPart(x, Split(t, sep), Split(b, sep));
    }
  }

  lemma FirstPart<T>(x: T, parts: seq<seq<T>>, more: seq<seq<T>>)
    requires parts != []
    ensures [[]] + (parts + more) == [[]] + parts + more
    ensures [[x] + (parts + more)[0]] + (parts + more)[1..] == [[x] + parts[0]] + parts[1..] + more
  {
  }

  /** The empty selector and the slash are no exceptions. */
  lemma ResolveIsAll(d: DocState, selector: string)
    ensures Resolve(d, Some(selector)) == ResolveAll(d.slots, d.root, Split(selector, '/'))
  {
    if selector == "" {
      assert Split("", '/') == [""] && [""][1..] == [];
      assert ResolveAll(d.slots, d.root, []) == Ok(d.root);
    } else if selector == "/" {
      assert "/"[1..] == "" && Split("", '/') == [""] && Split("/", '/') == [""] + [""];
      assert ["", ""][1..] == [""] && [""][1..] == [];
      assert ResolveAll(d.slots, d.root, []) == Ok(d.root);
      assert ResolveAll(d.slots, d.root, [""]) == Ok(d.root);
    }
  }

  lemma {:induction false} ResolveAppend(slots: Slots, current: NodeId, a: seq<string>, b: seq<string>)
    ensures var r := ResolveAll(slots, current, a);
            ResolveAll(slots, current, a + b) == if r.Ok? then ResolveAll(slots, r.value, b) else r
    decreases |a|
  {
    if a == [] {
      assert a + b == b;
    } else {
      assert (a + b)[1..] == a[1..] + b;
      var r := ResolveSegment(slots, current, a[0]);
      if r.Ok? { ResolveAppend(slots, r.value, a[1..], b); }
    }
  }

  /** A longer selector goes on from where the shorter one leads, one segment
      at a time. */
  lemma ResolveStep(d: DocState, a: string, segment: string)
    requires '/' !in segment
    ensures var r := Resolve(d, Some(a));
            Resolve(d, Some(a + "/" + segment)) == if r.Ok? then ResolveSegment(d.slots, r.value, segment) else r
  {
    ResolveIsAll(d, a);
    ResolveIsAll(d, a + "/" + segment);
    SplitConcat(a, segment, '/');
    PlainSplit(segment);
    ResolveAppend(d.slots, d.root, Split(a, '/'), [segment]);
    var r := Resolve(d, Some(a));
    if r.Ok? { ResolveCons(d.slots, r.value, segment, []); }
  }

  /** Two dots climb to the parent, and not above the root; one dot, and
      nothing, stay. */
  lemma DotsClimb(d: DocState, a: string)
    requires TreeShaped(d.slots, d.root) && Resolve(d, Some(a)).Ok?
    ensures var y := Resolve(d, Some(a)).value;
            && Resolve(d, Some(a + "/..")) ==
               (if Parent(d.slots, y).Some? then Ok(Parent(d.slots, y).value) else Err(ResourceSelectorEscapesRoot))
            && (Resolve(d, Some(a + "/..")).Err? <==> y == d.root)
            && Resolve(d, Some(a + "/.")) == Ok(y) && Resolve(d, Some(a + "/")) == Ok(y)
  {
    var y := Resolve(d, Some(a)).value;
    ResolvedIsLive(d, Some(a));
    assert LinkedUp(d.slots, d.root, y);
    ResolveStep(d, a, "..");
    ResolveStep(d, a, ".");
    ResolveStep(d, a, "");
    assert a + "/" + ".." == a + "/.." && a + "/" + "." == a + "/." && a + "/" + "" == a + "/";
  }

  /** A reference leads to its node from anywhere, if the node is live. */
  lemma ReferenceJumps(d: DocState, a: string, segment: string)
    requires '/' !in segment && Resolve(d, Some(a)).Ok? && ParseDirectReference(segment).Some?
    ensures var id := ParseDirectReference(segment).value;
            Resolve(d, Some(a + "/" + segment)) == if Live(d.slots, id) then Ok(id) else Err(UnknownResourceSelectorSegment)
  {
    ResolveStep(d, a, segment);
    assert segment != "." && segment != ".." by { DotsAreNoReference(); }
  }

  lemma DotsAreNoReference()
    ensures ParseDirectReference(".") == None && ParseDirectReference("..") == None
  {
  }

  /** Any other segment leads to the one child of that name, and fails when
      there is none or more than one. */
  lemma NameDescends(d: DocState, a: string, name: string)
    requires TreeShaped(d.slots, d.root) && |d.slots| <= U64_MAX && Resolve(d, Some(a)).Ok?
    requires '/' !in name && Ordinary(name)
    ensures var kids := Kids(d.slots, Resolve(d, Some(a)).value);
            var r := Resolve(d, Some(a + "/" + name));
            && (forall x :: r == Ok(x) <==>
                  x in kids && NameOf(d.slots, x) == Some(name) &&
                  forall c :: c in kids && NameOf(d.slots, c) == Some(name) ==> c == x)
            && (r == Err(UnknownResourceSelectorSegment) <==> forall c :: c in kids ==> NameOf(d.slots, c) != Some(name))
            && (r == Err(AmbiguousResourceSelector) <==>
                exists b, c :: b in kids && c in kids && b != c && NameOf(d.slots, b) == NameOf(d.slots, c) == Some(name))
  {
    var y := Resolve(d, Some(a)).value;
    ResolvedIsLive(d, Some(a));
    ResolveStep(d, a, name);
    assert LinkedDown(d.slots, y);
    forall c | c in Kids(d.slots, y)
      ensures Live(d.slots, c) && Find(d.slots, c).value.id == c <= U64_MAX
    {
      assert d.slots[c - 1] == Find(d.slots, c);
    }
    NamedMatches(d.slots, Kids(d.slots, y), name);
  }

  lemma {:induction false} NamedMatches(slots: Slots, kids: seq<NodeId>, name: string)
    requires NoDup(kids) && ParseDirectReference(name) == None
    requires forall c :: c in kids ==> Live(slots, c) && Find(slots, c).value.id <= U64_MAX
    ensures var (count, last) := Matches(slots, kids, name);
            && (count == 0 <==> forall c :: c in kids ==> NameOf(slots, c) != Some(name))
            && (count > 0 ==> last in kids && NameOf(slots, last) == Some(name))
            && (count <= 1 <==>
                  forall b, c :: b in kids && c in kids && NameOf(slots, b) == NameOf(slots, c) == Some(name) ==> b == c)
  {
    if kids != [] {
      var front, c := kids[..|kids| - 1], kids[|kids| - 1];
      assert kids == front + [c];
      NoDupConcat(front, [c]);
      assert c in kids && forall y :: y in kids <==> y in front || y == c;
      NamedMatches(slots, front, name);
      PrintedReferences(Find(slots, c).value.id);
    }
  }

  // The round trip.

  /** Only the named child matches its own name, unless the name is a reference. */
  lemma {:induction false} OwnNameMatchesOnce(slots: Slots, kids: seq<NodeId>, x: NodeId, name: string)
    requires NoDup(kids)
    requires forall c :: c in kids ==>
               Live(slots, c) && Find(slots, c).value.id <= U64_MAX && (NameOf(slots, c) == Some(name) <==> c == x)
    requires ParseDirectReference(name) == None
    ensures Matches(slots, kids, name) == if x in kids then (1, x) else (0, 0)
  {
    if kids != [] {
      var front, c := kids[..|kids| - 1], kids[|kids| - 1];
      assert kids == front + [c];
      NoDupConcat(front, [c]);
      assert c in kids && forall y :: y in front ==> y in kids;
      OwnNameMatchesOnce(slots, front, x, name);
      PrintedReferences(Find(slots, c).value.id);
    }
  }

  /** A child's own name leads to it exactly when the name is no direct
      reference, or happens to refer to that very child. */
  lemma OwnNameResolvesIff(slots: Slots, root: NodeId, parent: NodeId, x: NodeId, name: string)
    requires TreeShaped(slots, root) && SiblingNamesDistinct(slots) && |slots| <= U64_MAX
    requires Live(slots, parent) && x in Kids(slots, parent) && NameOf(slots, x) == Some(name)
    requires name != "" && name != "." && name != ".."
    ensures ResolveSegment(slots, parent, name) == Ok(x) <==>
            ParseDirectReference(name) == None || ParseDirectReference(name) == Some(x)
  {
    assert LinkedDown(slots, parent);
    forall c | c in Kids(slots, parent)
      ensures Live(slots, c) && Find(slots, c).value.id == c <= U64_MAX
      ensures NameOf(slots, c) == Some(name) <==> c == x
    {
      assert slots[c - 1] == Find(slots, c);
    }
    if ParseDirectReference(name) == None {
      OwnNameMatchesOnce(slots, Kids(slots, parent), x, name);
    }
  }

  /** Every node below the first has a name that is one ordinary segment. */
  ghost predicate PlainPath(slots: Slots, p: seq<NodeId>) {
    forall i :: 0 < i < |p| ==>
      && NameOf(slots, p[i]).Some?
      && var name := NameOf(slots, p[i]).value; name != "" && name != "." && name != ".." && '/' !in name
  }

  /** Besides, a name that is a reference refers to its own node. */
  ghost predicate NamedPath(slots: Slots, p: seq<NodeId>) {
    && PlainPath(slots, p)
    && forall i :: 0 < i < |p| ==> ParseDirectReference(NameOf(slots, p[i]).value) in {None, Some(p[i])}
  }

  /** The names on a path, below its first node. */
  ghost function PathNames(slots: Slots, p: seq<NodeId>): (names: seq<string>)
    requires p != [] && forall i :: 0 < i < |p| ==> NameOf(slots, p[i]).Some?
    ensures |names| == |p| - 1 && forall i :: 0 < i < |p| ==> names[i - 1] == NameOf(slots, p[i]).value
  {
    seq(|p| - 1, i requires 0 <= i < |p| - 1 => NameOf(slots, p[i + 1]).value)
  }

  lemma PathTailPlain(slots: Slots, p: seq<NodeId>, k: nat)
    requires k < |p| && IsPath(slots, p) && PlainPath(slots, p)
    ensures IsPath(slots, p[k..]) && PlainPath(slots, p[k..])
    ensures PathNames(slots, p)[k..] == PathNames(slots, p[k..])
  {
    var q := p[k..];
    forall i | 0 < i < |q|
      ensures Parent(slots, q[i]) == Some(q[i - 1])
    {
      assert q[i] == p[k + i] && q[i - 1] == p[k + i - 1];
    }
    assert forall i :: 0 < i < |q| ==> q[i] == p[k + i];
  }

  lemma PathTailNamed(slots: Slots, p: seq<NodeId>)
    requires |p| > 1 && IsPath(slots, p) && NamedPath(slots, p)
    ensures IsPath(slots, p[1..]) && NamedPath(slots, p[1..])
    ensures PathNames(slots, p) == [NameOf(slots, p[1]).value] + PathNames(slots, p[1..])
  {
    PathTailPlain(slots, p, 1);
    assert forall i :: 0 < i < |p[1..]| ==> p[1..][i] == p[i + 1];
    assert PathNames(slots, p) == [PathNames(slots, p)[0]] + PathNames(slots, p)[1..];
  }

  lemma {:induction false} PathResolves(slots: Slots, root: NodeId, p: seq<NodeId>)
    requires TreeShaped(slots, root) && SiblingNamesDistinct(slots) && |slots| <= U64_MAX
    requires IsPath(slots, p) && NamedPath(slots, p)
    requires forall i :: 0 < i < |p| ==> p[i] != root
    ensures ResolveAll(slots, p[0], PathNames(slots, p)) == Ok(p[|p| - 1])
    decreases |p|
  {
    if |p| > 1 {
      PathStep(slots, root, p);
      PathTailNamed(slots, p);
      PathResolves(slots, root, p[1..]);
      ResolveCons(slots, p[0], NameOf(slots, p[1]).value, PathNames(slots, p[1..]));
    }
  }

  lemma ResolveCons(slots: Slots, current: NodeId, segment: string, segments: seq<string>)
    ensures var r := ResolveSegment(slots, current, segment);
            ResolveAll(slots, current, [segment] + segments) == if r.Ok? then ResolveAll(slots, r.value, segments) else r
  {
    assert ([segment] + segments)[1..] == segments;
  }

  lemma PathStep(slots: Slots, root: NodeId, p: seq<NodeId>)
    requires TreeShaped(slots, root) && SiblingNamesDistinct(slots) && |slots| <= U64_MAX
    requires |p| > 1 && IsPath(slots, p) && NamedPath(slots, p) && p[1] != root
    ensures ResolveSegment(slots, p[0], NameOf(slots, p[1]).value) == Ok(p[1])
  {
    assert Parent(slots, p[1]) == Some(p[0]);
    assert LinkedUp(slots, root, p[1]);
    OwnNameResolvesIff(slots, root, p[0], p[1], NameOf(slots, p[1]).value);
  }

  /** Joining the names from the root down to a node resolves back to it. */
  lemma SelectorRoundTrip(d: DocState, x: NodeId)
    requires TreeShaped(d.slots, d.root) && SiblingNamesDistinct(d.slots) && |d.slots| <= U64_MAX
    requires Live(d.slots, x) && Within(d.slots, d.root, x)
    requires NamedPath(d.slots, RootPath(d.slots, d.root, x))
    ensures var p := RootPath(d.slots, d.root, x);
            Resolve(d, Some(Join(PathNames(d.slots, p), '/'))) == Ok(x)
  {
    var p := RootPath(d.slots, d.root, x);
    if |p| > 1 {
      PathSplits(d.slots, p);
      BelowRoot(d.slots, d.root, p);
      PathResolves(d.slots, d.root, p);
    }
  }

  lemma BelowRoot(slots: Slots, root: NodeId, p: seq<NodeId>)
    requires IsPath(slots, p) && Parent(slots, root) == None
    ensures forall i :: 0 < i < |p| ==> p[i] != root
  {
    forall i | 0 < i < |p|
      ensures p[i] != root
    {
      assert Parent(slots, p[i]) == Some(p[i - 1]);
    }
  }

  lemma PathSplits(slots: Slots, p: seq<NodeId>)
    requires |p| > 1 && PlainPath(slots, p)
    ensures var names := PathNames(slots, p);
            && Split(Join(names, '/'), '/') == names
            && Join(names, '/') != "" && Join(names, '/') != "/"
  {
    var names := PathNames(slots, p);
    assert names[0] == NameOf(slots, p[1]).value;
    SplitJoin(names, '/');
    assert Split("/", '/') == [[]] + [[]];
    assert Split("", '/') == [[]];
  }

  lemma ValidNameIsPathName(name: string)
    requires IsValidName(name)
    ensures name != "" && name != "." && name != ".." && '/' !in name
  {
  }

  /** In particular when every name on the path is valid and no signed number. */
  lemma ValidNamesRoundTrip(d: DocState, x: NodeId)
    requires TreeShaped(d.slots, d.root) && SiblingNamesDistinct(d.slots) && |d.slots| <= U64_MAX
    requires Live(d.slots, x) && Within(d.slots, d.root, x)
    requires var p := RootPath(d.slots, d.root, x);
             forall i :: 0 < i < |p| ==>
               && NameOf(d.slots, p[i]).Some? && IsValidName(NameOf(d.slots, p[i]).value)
               && ZigParseU64(NameOf(d.slots, p[i]).value).None?
    ensures var p := RootPath(d.slots, d.root, x);
            Resolve(d, Some(Join(PathNames(d.slots, p), '/'))) == Ok(x)
  {
    var p := RootPath(d.slots, d.root, x);
    forall i | 0 < i < |p|
      ensures var name := NameOf(d.slots, p[i]).value;
              name != "" && name != "." && name != ".." && '/' !in name && ParseDirectReference(name) == None
    {
      ValidNameIsPathName(NameOf(d.slots, p[i]).value);
      ValidNameReference(NameOf(d.slots, p[i]).value);
    }
    SelectorRoundTrip(d, x);
  }

  // When a path of names leads back.

  predicate Ordinary(segment: string) {
    segment != "" && segment != "." && segment != ".." && ParseDirectReference(segment) == None
  }

  lemma OrdinaryStep(slots: Slots, root: NodeId, y: NodeId, segment: string)
    requires Linked(slots, root) && Live(slots, y) && Ordinary(segment)
    ensures var r := ResolveSegment(slots, y, segment); r.Ok? ==> Live(slots, r.value) && Parent(slots, r.value) == Some(y)
  {
    MatchIsListed(slots, Kids(slots, y), segment);
    assert LinkedDown(slots, y);
  }

  lemma PathPrepend(slots: Slots, y: NodeId, q: seq<NodeId>)
    requires IsPath(slots, q) && Live(slots, y) && Parent(slots, q[0]) == Some(y)
    ensures PathFromTo(slots, y, q[|q| - 1], [y] + q)
  {
  }

  /** Ordinary segments lead downwards, one level each. */
  lemma {:induction false} OrdinaryDescends(slots: Slots, root: NodeId, y: NodeId, segments: seq<string>)
    returns (q: seq<NodeId>)
    requires Linked(slots, root) && Live(slots, y) && ResolveAll(slots, y, segments).Ok?
    requires forall i :: 0 <= i < |segments| ==> Ordinary(segments[i])
    ensures PathFromTo(slots, y, ResolveAll(slots, y, segments).value, q) && |q| == |segments| + 1
    decreases |segments|
  {
    if segments == [] {
      q := [y];
    } else {
      OrdinaryStep(slots, root, y, segments[0]);
      q := OrdinaryDescends(slots, root, ResolveSegment(slots, y, segments[0]).value, segments[1..]);
      PathPrepend(slots, y, q);
      q := [y] + q;
    }
  }

  /** What the name of the path's i-th node refers to, if it is a reference. */
  function ReferenceAt(slots: Slots, p: seq<NodeId>, i: nat): Option<nat>
    requires 0 < i < |p| && NameOf(slots, p[i]).Some?
  {
    ParseDirectReference(NameOf(slots, p[i]).value)
  }

  ghost predicate LastReference(slots: Slots, p: seq<NodeId>, k: nat)
    requires PlainPath(slots, p)
  {
    && 0 < k < |p| && ReferenceAt(slots, p, k).Some?
    && forall i: nat :: k < i < |p| ==> ReferenceAt(slots, p, i).None?
  }

  /** It refers to its own node, and the names before it lead somewhere. */
  ghost predicate ReferenceHolds(slots: Slots, p: seq<NodeId>, k: nat)
    requires PlainPath(slots, p) && 0 < k < |p|
  {
    ReferenceAt(slots, p, k) == Some(p[k]) && ResolveAll(slots, p[0], PathNames(slots, p)[..k - 1]).Ok?
  }

  /** The names after a node on the path lead on from that node only. */
  lemma RestOfPath(slots: Slots, root: NodeId, rest: seq<NodeId>, y: NodeId)
    requires TreeShaped(slots, root) && SiblingNamesDistinct(slots) && |slots| <= U64_MAX
    requires IsPath(slots, rest) && PlainPath(slots, rest) && Live(slots, y)
    requires forall i: nat :: 0 < i < |rest| ==> rest[i] != root && ReferenceAt(slots, rest, i).None?
    ensures ResolveAll(slots, y, PathNames(slots, rest)) == Ok(rest[|rest| - 1]) <==> y == rest[0]
  {
    assert forall i: nat :: 0 < i < |rest| ==> ReferenceAt(slots, rest, i).None?;
    if y == rest[0] {
      PathResolves(slots, root, rest);
    }
    if ResolveAll(slots, y, PathNames(slots, rest)) == Ok(rest[|rest| - 1]) {
      var names := PathNames(slots, rest);
      forall i | 0 <= i < |names|
        ensures Ordinary(names[i])
      {
        assert ReferenceAt(slots, rest, i + 1).None?;
      }
      var q := OrdinaryDescends(slots, root, y, names);
      SameLengthPaths(slots, q, rest);
    }
  }

  lemma AfterReference(slots: Slots, root: NodeId, p: seq<NodeId>, k: nat, y: NodeId)
    requires TreeShaped(slots, root) && SiblingNamesDistinct(slots) && |slots| <= U64_MAX
    requires IsPath(slots, p) && PlainPath(slots, p) && LastReference(slots, p, k) && Live(slots, y)
    requires forall i :: 0 < i < |p| ==> p[i] != root
    ensures ResolveAll(slots, y, PathNames(slots, p)[k..]) == Ok(p[|p| - 1]) <==> y == p[k]
  {
    PathTailPlain(slots, p, k);
    var rest := p[k..];
    forall i: nat | 0 < i < |rest|
      ensures rest[i] != root && ReferenceAt(slots, rest, i).None?
    {
      assert rest[i] == p[k + i] && ReferenceAt(slots, p, k + i).None?;
    }
    RestOfPath(slots, root, rest, y);
  }

  lemma AroundReference(slots: Slots, root: NodeId, p: seq<NodeId>, k: nat)
    requires TreeShaped(slots, root) && SiblingNamesDistinct(slots) && |slots| <= U64_MAX
    requires IsPath(slots, p) && PlainPath(slots, p) && LastReference(slots, p, k)
    requires forall i :: 0 < i < |p| ==> p[i] != root
    ensures ResolveAll(slots, p[0], PathNames(slots, p)) == Ok(p[|p| - 1]) <==> ReferenceHolds(slots, p, k)
  {
    var names := PathNames(slots, p);
    var front, rest := names[..k - 1], names[k - 1..];
    var target := ParseDirectReference(names[k - 1]).value;
    assert names == front + rest && rest[0] == names[k - 1] && rest[1..] == names[k..];
    ResolveAppend(slots, p[0], front, rest);
    assert forall y :: ResolveSegment(slots, y, rest[0]) ==
                       if Live(slots, target) then Ok(target) else Err(UnknownResourceSelectorSegment);
    if Live(slots, target) {
      AfterReference(slots, root, p, k, target);
    }
  }

  lemma {:induction false} FindLastReference(slots: Slots, p: seq<NodeId>, from: nat) returns (k: nat)
    requires PlainPath(slots, p) && 0 < from <= |p|
    requires forall i: nat :: from <= i < |p| ==> ReferenceAt(slots, p, i).None?
    ensures if k == 0 then forall i: nat :: 0 < i < |p| ==> ReferenceAt(slots, p, i).None?
            else LastReference(slots, p, k)
    decreases from
  {
    if from == 1 {
      k := 0;
    } else if ReferenceAt(slots, p, from - 1).Some? {
      k := from - 1;
    } else {
      k := FindLastReference(slots, p, from - 1);
    }
  }

  lemma PathResolvesIff(slots: Slots, root: NodeId, p: seq<NodeId>)
    requires TreeShaped(slots, root) && SiblingNamesDistinct(slots) && |slots| <= U64_MAX
    requires IsPath(slots, p) && PlainPath(slots, p)
    requires forall i :: 0 < i < |p| ==> p[i] != root
    ensures ResolveAll(slots, p[0], PathNames(slots, p)) == Ok(p[|p| - 1]) <==>
            forall k: nat :: LastReference(slots, p, k) ==> ReferenceHolds(slots, p, k)
  {
    var k := FindLastReference(slots, p, |p|);
    if k == 0 {
      RestOfPath(slots, root, p, p[0]);
    } else {
      AroundReference(slots, root, p, k);
      forall j: nat | LastReference(slots, p, j)
        ensures j == k
      {
        OneLastReference(slots, p, j, k);
      }
    }
  }

  lemma OneLastReference(slots: Slots, p: seq<NodeId>, j: nat, k: nat)
    requires PlainPath(slots, p) && LastReference(slots, p, j) && LastReference(slots, p, k)
    ensures j == k
  {
    assert ReferenceAt(slots, p, j).Some? && ReferenceAt(slots, p, k).Some?;
  }

  /** The names from the root down to a node, each an ordinary segment or a
      reference, resolve back to it exactly when the last reference among them
      refers to its own node and the names before it lead somewhere. */
  lemma SelectorRoundTripIff(d: DocState, x: NodeId)
    requires TreeShaped(d.slots, d.root) && SiblingNamesDistinct(d.slots) && |d.slots| <= U64_MAX
    requires Live(d.slots, x) && Within(d.slots, d.root, x)
    requires PlainPath(d.slots, RootPath(d.slots, d.root, x))
    ensures var p := RootPath(d.slots, d.root, x);
            Resolve(d, Some(Join(PathNames(d.slots, p), '/'))) == Ok(x) <==>
            forall k: nat :: LastReference(d.slots, p, k) ==> ReferenceHolds(d.slots, p, k)
  {
    var p := RootPath(d.slots, d.root, x);
    BelowRoot(d.slots, d.root, p);
    PathResolvesIff(d.slots, d.root, p);
    if |p| > 1 {
      PathSplits(d.slots, p);
    }
  }

  /** The default names do not always round-trip: two children titled "node"
      are named "node" and "node-2", and "node-2" refers to the first. */
  lemma DefaultNameMayRedirect()
    ensures var d := AppendNode(AppendNode(Init("demo"), 1, TextLeaf, "node").0, 1, TextLeaf, "node").0;
            && NameOf(d.slots, 3) == Some("node-2") && !IsValidName("node-2")
            && Resolve(d, Some("node-2")) == Ok(2)
  {
    var d1 := AppendNode(Init("demo"), 1, TextLeaf, "node").0;
    FirstNodeName(d1);
    SecondNodeName(d1);
    NodeTwoResolves(AppendNode(d1, 1, TextLeaf, "node").0);
  }

  lemma NodeTwoResolves(d: DocState)
    requires Live(d.slots, 2)
    ensures Resolve(d, Some("node-2")) == Ok(2) && !IsValidName("node-2")
  {
    SecondNameRefers();
    SegmentResolves(d, "node-2", 2);
  }

  lemma SegmentResolves(d: DocState, segment: string, id: NodeId)
    requires Live(d.slots, id) && ParseDirectReference(segment) == Some(id) && '/' !in segment
    requires segment != "" && segment != "." && segment != ".."
    ensures Resolve(d, Some(segment)) == Ok(id)
  {
    PlainSplit(segment);
    assert [segment][1..] == [];
    assert ResolveAll(d.slots, id, []) == Ok(id);
  }

  lemma NodeTitleName()
    ensures DefaultName("node") == Some("node")
  {
    NormalizeKeepsTidy("node");
    assert TrimDashes("node") == "node" && IsValidName("node");
  }

  lemma FirstNodeName(d1: DocState)
    requires d1 == AppendNode(Init("demo"), 1, TextLeaf, "node").0
    ensures IdsMatch(d1.slots) && d1.nextId == 3 && d1.root == 1
    ensures Live(d1.slots, 1) && Kids(d1.slots, 1) == [2] && NameOf(d1.slots, 2) == Some("node")
  {
    NodeTitleName();
    assert NamesOf(Init("demo").slots, []) == [];
  }

  lemma SecondNodeName(d1: DocState)
    requires IdsMatch(d1.slots) && d1.nextId == 3 && d1.root == 1
    requires Live(d1.slots, 1) && Kids(d1.slots, 1) == [2] && NameOf(d1.slots, 2) == Some("node")
    ensures var d2 := AppendNode(d1, 1, TextLeaf, "node").0;
            NameOf(d2.slots, 3) == Some("node-2") && Live(d2.slots, 2)
  {
    NodeTitleName();
    assert [2][1..] == [];
    assert NamesOf(d1.slots, [2]) == ["node"];
    assert ToDecimal(2) == "2";
    assert Candidate("node", 2) == "node-2";
    assert FreeSuffix(["node"], "node", 2) == 2;
  }

  lemma SecondNameRefers()
    ensures ParseDirectReference("node-2") == Some(2) && !IsValidName("node-2")
  {
    PrintedReferences(2);
    assert ToDecimal(2) == "2";
    assert "node-2" == NODE_PREFIX + "2";
    assert "node-2"[5..] == "2";
  }

  lemma PlainSplit(s: string)
    requires '/' !in s
    ensures Split(s, '/') == [s]
  {
    SplitPart(s, [], '/');
  }
}
