/** Node names (src/core/muxml.zig) and direct node references
    (src/core/document.zig). A byte string is a `string` here: every test
    treats the codes above 127 alike. */
module Names {
  import opened Basics
  import opened Decimal

  predicate IsLower(c: char) { 'a' <= c <= 'z' }

  predicate IsUpper(c: char) { 'A' <= c <= 'Z' }

  predicate IsAlphanumeric(c: char) { IsDigit(c) || IsLower(c) || IsUpper(c) }

  function ToLower(c: char): char {
    if IsUpper(c) then (c as int - 'A' as int + 'a' as int) as char else c
  }

  const NODE_PREFIX: string := "node-"

  predicate IsNameByte(c: char) {
    IsAlphanumeric(c) ||
    c in ['-', '.', '_', '~', '!', '$', '&', '\'', '(', ')', '*', '+', ',', ';', '=', ':', '@']
  }

  predicate LooksLikeDirectReference(name: string) {
    if name == [] then false
    else if IsDigit(name[0]) then ZigParseU64(name).Some?
    else if name[0] == '@' && |name| > 1 then ZigParseU64(name[1..]).Some?
    else if NODE_PREFIX <= name && |name| > |NODE_PREFIX| then ZigParseU64(name[|NODE_PREFIX|..]).Some?
    else false
  }

  predicate IsValidName(name: string) {
    && name != []
    && name != "." && name != ".."
    && !LooksLikeDirectReference(name)
    && forall i :: 0 <= i < |name| ==> IsNameByte(name[i])
  }

  /** The reference a selector segment denotes, if it denotes one. */
  function ParseDirectReference(segment: string): Option<nat> {
    if segment == [] then None
    else if segment[0] == '@' then ZigParseU64(segment[1..])
    else if NODE_PREFIX <= segment then ZigParseU64(segment[|NODE_PREFIX|..])
    else ZigParseU64(segment)
  }

  // The default name of a titled node.

  /** The loop state of the normaliser: the output so far and the flag. */
  datatype Normalizer = Normalizer(out: string, needsSeparator: bool)

  function Separated(n: Normalizer): string {
    if n.needsSeparator && n.out != [] && n.out[|n.out| - 1] != '-' then n.out + "-" else n.out
  }

  function NormalizeByte(n: Normalizer, c: char): Normalizer {
    if IsAlphanumeric(c) then Normalizer(Separated(n) + [ToLower(c)], false)
    else if c == '.' || c == '_' || c == '~' then Normalizer(Separated(n) + [c], false)
    else if c == '-' then
      if n.out == [] || n.out[|n.out| - 1] == '-' then n else Normalizer(n.out + "-", false)
    else if n.out != [] then Normalizer(n.out, true)
    else n
  }

  function Normalize(title: string): Normalizer {
    if title == [] then Normalizer("", false)
    else NormalizeByte(Normalize(title[..|title| - 1]), title[|title| - 1])
  }

  function TrimDashes(s: string): string {
    if s != [] && s[|s| - 1] == '-' then TrimDashes(s[..|s| - 1]) else s
  }

  function DefaultName(title: string): Option<string> {
    var base := TrimDashes(Normalize(title).out);
    if base == [] then None
    else if IsValidName(base) then Some(base)
    else Some("n-" + base)
  }

  /** The loop over the title's bytes, then the loop that pops dashes. */
  method ComputeDefaultName(title: string) returns (name: Option<string>)
    ensures name == DefaultName(title)
  {
    var buffer: string := "";
    var needsSeparator := false;
    for i := 0 to |title|
      invariant Normalizer(buffer, needsSeparator) == Normalize(title[..i])
    {
      assert title[..i + 1][..i] == title[..i];
      var c := title[i];
      if IsAlphanumeric(c) || c == '.' || c == '_' || c == '~' {
        if needsSeparator && buffer != [] && buffer[|buffer| - 1] != '-' {
          buffer := buffer + "-";
        }
        buffer := buffer + [if IsAlphanumeric(c) then ToLower(c) else c];
        needsSeparator := false;
      } else if c == '-' {
        if buffer == [] || buffer[|buffer| - 1] == '-' {
          continue;
        }
        buffer := buffer + "-";
        needsSeparator := false;
      } else if buffer != [] {
        needsSeparator := true;
      }
    }
    assert title[..|title|] == title;
    while buffer != [] && buffer[|buffer| - 1] == '-'
      invariant TrimDashes(buffer) == TrimDashes(Normalize(title).out)
    {
      buffer := buffer[..|buffer| - 1];
    }
    if buffer == [] {
      name := None;
    } else if IsValidName(buffer) {
      name := Some(buffer);
    } else {
      name := Some("n-" + buffer);
    }
  }

  /** A byte the normaliser can put out. */
  predicate IsPlainByte(c: char) {
    IsDigit(c) || IsLower(c) || c == '.' || c == '_' || c == '~' || c == '-'
  }

  /** Plain bytes, no leading dash, no two dashes in a row. */
  predicate Tidy(s: string) {
    && (forall i :: 0 <= i < |s| ==> IsPlainByte(s[i]))
    && (s != [] ==> s[0] != '-')
    && (forall i :: 0 < i < |s| && s[i] == '-' ==> s[i - 1] != '-')
  }

  lemma {:induction false} NormalizeIsTidy(title: string)
    ensures Tidy(Normalize(title).out)
  {
    if title != [] {
      NormalizeIsTidy(title[..|title| - 1]);
    }
  }

  lemma {:induction false} TrimIsTidy(s: string)
    requires Tidy(s)
    ensures var t := TrimDashes(s); Tidy(t) && (t != [] ==> t[|t| - 1] != '-')
  {
    if s != [] && s[|s| - 1] == '-' {
      TrimIsTidy(s[..|s| - 1]);
    }
  }

  lemma {:induction false} NormalizeKeepsTidy(s: string)
    requires Tidy(s)
    ensures Normalize(s) == Normalizer(s, false)
  {
    if s != [] {
      var front, last := s[..|s| - 1], s[|s| - 1];
      assert s == front + [last];
      NormalizeKeepsTidy(front);
      TidyByteKept(front, last);
    }
  }

  lemma TidyByteKept(front: string, last: char)
    requires Tidy(front + [last])
    ensures NormalizeByte(Normalizer(front, false), last) == Normalizer(front + [last], false)
  {
    var s := front + [last];
    assert IsPlainByte(s[|front|]);
    assert front != [] ==> s[|front| - 1] == front[|front| - 1];
  }

  /** The prefix turns every rejected candidate into a valid name. */
  lemma PrefixedIsValid(base: string)
    requires base != [] && Tidy(base)
    ensures IsValidName("n-" + base) && Tidy("n-" + base)
  {
    var name := "n-" + base;
    assert name[0] == 'n' && name[1] == '-';
    assert !(NODE_PREFIX <= name) by { assert NODE_PREFIX[1] != name[1]; }
    assert forall i :: 2 <= i < |name| ==> name[i] == base[i - 2];
  }

  /** A default name, when there is one, is valid and tidy, has no trailing
      dash, and normalising it again changes nothing. */
  lemma DefaultNameSound(title: string)
    requires DefaultName(title).Some?
    ensures var name := DefaultName(title).value;
            && IsValidName(name) && Tidy(name) && name[|name| - 1] != '-'
            && DefaultName(name) == Some(name)
  {
    NormalizeIsTidy(title);
    TrimIsTidy(Normalize(title).out);
    var base := TrimDashes(Normalize(title).out);
    PrefixedIsValid(base);
    var name := DefaultName(title).value;
    NormalizeKeepsTidy(name);
    assert TrimDashes(name) == name;
  }

  /** A title has no default name exactly when it holds no letter, digit,
      dot, underscore or tilde. */
  lemma {:induction false} NoDefaultNameIff(title: string)
    ensures DefaultName(title).None? <==>
            forall i :: 0 <= i < |title| ==> !IsAlphanumeric(title[i]) && title[i] !in ['.', '_', '~']
  {
    NormalizeIsTidy(title);
    TrimEmptyIff(Normalize(title).out);
    NormalizeEmptyIff(title);
  }

  lemma {:induction false} TrimEmptyIff(s: string)
    requires Tidy(s)
    ensures TrimDashes(s) == [] <==> s == []
  {
    if |s| > 1 && s[|s| - 1] == '-' {
      assert s[|s| - 2] != '-';
    }
  }

  lemma {:induction false} NormalizeEmptyIff(title: string)
    ensures Normalize(title).out == [] <==>
            forall i :: 0 <= i < |title| ==> !IsAlphanumeric(title[i]) && title[i] !in ['.', '_', '~']
  {
    if title != [] {
      NormalizeEmptyIff(title[..|title| - 1]);
    }
  }

  // What the default name is made of.

  /** A byte that a default name takes over; everything else separates. */
  predicate IsKept(c: char) {
    '0' <= c <= '9' || 'a' <= c <= 'z' || 'A' <= c <= 'Z' || c == '.' || c == '_' || c == '~'
  }

  function Lowered(c: char): char {
    if 'A' <= c <= 'Z' then (c as int + 32) as char else c
  }

  /** The runs of kept bytes read so far; the last may still grow. */
  datatype Runs = Runs(done: seq<string>, open: string) {
    function Next(c: char): Runs {
      if IsKept(c) then Runs(done, open + [Lowered(c)])
      else if open == "" then this
      else Runs(done + [open], "")
    }

    function All(): seq<string> { if open == "" then done else done + [open] }
  }

  function RunsOf(title: string): Runs {
    if title == "" then Runs([], "") else RunsOf(title[..|title| - 1]).Next(title[|title| - 1])
  }

  function Dashed(runs: seq<string>): string {
    if runs == [] then ""
    else if |runs| == 1 then runs[0]
    else Dashed(runs[..|runs| - 1]) + "-" + runs[|runs| - 1]
  }

  lemma DashedSnoc(runs: seq<string>, run: string)
    ensures Dashed(runs + [run]) == if runs == [] then run else Dashed(runs) + "-" + run
  {
    assert (runs + [run])[..|runs|] == runs;
  }

  predicate EndsClean(s: string) { s != "" && s[|s| - 1] != '-' }

  /** The loop's state is the runs so far, dashed, and perhaps a dash, pending in
      the flag or put out already. */
  ghost predicate Normalizes(r: Runs, n: Normalizer) {
    && (r.done != [] ==> EndsClean(Dashed(r.done))) && (r.open != "" ==> EndsClean(r.open))
    && if r.open != "" then n == Normalizer(Dashed(r.done + [r.open]), false)
       else if r.done == [] then n == Normalizer("", false)
       else n == Normalizer(Dashed(r.done), true) || n.out == Dashed(r.done) + "-"
  }

  lemma LastGrows(done: seq<string>, open: string, c: char)
    ensures Dashed(done + [open + [c]]) ==
            if open != "" then Dashed(done + [open]) + [c]
            else if done == [] then [c]
            else Dashed(done) + "-" + [c]
  {
    DashedSnoc(done, open);
    DashedSnoc(done, open + [c]);
    if open != "" {
      assert Dashed(done) + "-" + (open + [c]) == Dashed(done) + "-" + open + [c];
    } else {
      assert "" + [c] == [c];
    }
  }

  lemma LoweredIsClean(open: string, c: char)
    requires IsKept(c)
    ensures EndsClean(open + [Lowered(c)])
    ensures forall n :: NormalizeByte(n, c) == Normalizer(Separated(n) + [Lowered(c)], false)
  {
  }

  lemma KeptByte(r: Runs, n: Normalizer, c: char)
    requires Normalizes(r, n) && IsKept(c)
    ensures Normalizes(r.Next(c), NormalizeByte(n, c))
  {
    LastGrows(r.done, r.open, Lowered(c));
    LoweredIsClean(r.open, c);
    assert "" + [Lowered(c)] == [Lowered(c)];
    assert Separated(n) == if r.open != "" then Dashed(r.done + [r.open])
                           else if r.done == [] then "" else Dashed(r.done) + "-";
  }

  lemma OtherByte(r: Runs, n: Normalizer, c: char)
    requires Normalizes(r, n) && !IsKept(c)
    ensures Normalizes(r.Next(c), NormalizeByte(n, c))
  {
    DashedSnoc(r.done, r.open);
    if r.open != "" && r.done != [] { EndsWith(Dashed(r.done) + "-", r.open); }
  }

  lemma EndsWith(s: string, t: string)
    requires EndsClean(t)
    ensures EndsClean(s + t)
  {
  }

  lemma {:induction false} NormalizeRuns(title: string)
    ensures Normalizes(RunsOf(title), Normalize(title))
  {
    if title != "" {
      var front, c := title[..|title| - 1], title[|title| - 1];
      NormalizeRuns(front);
      if IsKept(c) {
        KeptByte(RunsOf(front), Normalize(front), c);
      } else {
        OtherByte(RunsOf(front), Normalize(front), c);
      }
    }
  }

  lemma TrimOneDash(s: string)
    requires EndsClean(s)
    ensures TrimDashes(s) == s && TrimDashes(s + "-") == s
  {
    assert (s + "-")[..|s|] == s;
  }

  /** The default name is the runs of kept bytes of the title, in lower case, one
      dash between them, with a prefix if that is not a valid name. */
  lemma DefaultNameIsDashedRuns(title: string)
    ensures var base := Dashed(RunsOf(title).All());
            DefaultName(title) == if base == "" then None else Some(if IsValidName(base) then base else "n-" + base)
  {
    NormalizeRuns(title);
    var r := RunsOf(title);
    DashedSnoc(r.done, r.open);
    if r.open != "" {
      EndsWith(if r.done == [] then "" else Dashed(r.done) + "-", r.open);
      assert "" + r.open == r.open;
      TrimOneDash(Dashed(r.All()));
    } else if r.done != [] {
      TrimOneDash(Dashed(r.done));
    }
  }

  /** A valid name still parses as a reference exactly when it is a signed
      number: the check on names looks at unsigned ones only. */
  lemma ValidNameReference(name: string)
    requires IsValidName(name)
    ensures ParseDirectReference(name).Some? <==> (name[0] == '+' || name[0] == '-') && ZigParseU64(name).Some?
  {
    assert ZigParseU64("").None?;
  }

  /** The part of a reference after its marker. */
  function Referred(segment: string): string {
    if segment != [] && segment[0] == '@' then segment[1..]
    else if NODE_PREFIX <= segment then segment[|NODE_PREFIX|..]
    else segment
  }

  /** Which segments denote id 0, which no node ever has. */
  lemma ZeroReferenceIff(segment: string)
    ensures ParseDirectReference(segment) == Some(0) <==>
            var s := Referred(segment);
            ZigParseU64(s).Some? && AllZeros(if s[0] == '+' || s[0] == '-' then s[1..] else s)
  {
    ZigParsesZeroIff(Referred(segment));
  }

  /** A valid name may be one of them. */
  lemma ValidNameMayDenoteZero()
    ensures IsValidName("-0") && ParseDirectReference("-0") == Some(0)
  {
    assert "-0"[1..] == "0";
  }

  /** The two printed forms of an id, and its `@` form, denote that id, and
      none of them is a valid name. */
  lemma PrintedReferences(id: nat)
    requires id <= U64_MAX
    ensures !IsValidName(ToDecimal(id)) && !IsValidName(NODE_PREFIX + ToDecimal(id))
    ensures !IsValidName("@" + ToDecimal(id))
    ensures ParseDirectReference(ToDecimal(id)) == Some(id)
    ensures ParseDirectReference(NODE_PREFIX + ToDecimal(id)) == Some(id)
    ensures ParseDirectReference("@" + ToDecimal(id)) == Some(id)
  {
    DecimalRoundTrip(id);
    var s := ToDecimal(id);
    assert (NODE_PREFIX + s)[|NODE_PREFIX|..] == s;
    assert (NODE_PREFIX + s)[0] == 'n';
    assert ("@" + s)[1..] == s;
    assert IsDigit(s[0]);
  }
}
