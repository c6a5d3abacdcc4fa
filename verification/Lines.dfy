/** Splitting a byte stream into lines, as the bridge's two line readers do
    (tools/transport_bridge/src/main.rs). */
module Lines {
  type byte = n: int | 0 <= n < 0x100

  const LF: byte := 0x0A
  const CR: byte := 0x0D

  /** Where the first line feed is, or the length when there is none. */
  function LineEnd(s: seq<byte>): (i: nat)
    ensures i <= |s| && LF !in s[..i] && (i < |s| ==> s[i] == LF)
    ensures i == |s| <==> LF !in s
  {
    if s == [] then 0 else if s[0] == LF then 0
    else
      var i := LineEnd(s[1..]);
      assert s[..1 + i] == [s[0]] + s[1..][..i];
      1 + i
  }

  function WithoutCr(line: seq<byte>): seq<byte> {
    if line != [] && line[|line| - 1] == CR then line[..|line| - 1] else line
  }

  /** The terminated lines of a stream, without their terminators. */
  function Terminated(s: seq<byte>): (lines: seq<seq<byte>>)
    ensures forall line :: line in lines ==> LF !in line
  {
    if s == [] then []
    else
      var front := s[..|s| - 1];
      if s[|s| - 1] == LF then Terminated(front) + [WithoutCr(Residual(front))] else Terminated(front)
  }

  /** What follows the last line feed. */
  function Residual(s: seq<byte>): (r: seq<byte>)
    ensures LF !in r && |r| <= |s|
  {
    if s == [] || s[|s| - 1] == LF then [] else Residual(s[..|s| - 1]) + [s[|s| - 1]]
  }

  /** The whole stream: its terminated lines, then the unterminated rest as it is. */
  function AllLines(s: seq<byte>): seq<seq<byte>> {
    Terminated(s) + if Residual(s) == [] then [] else [Residual(s)]
  }

  lemma Snoc(s: seq<byte>, b: byte)
    ensures Terminated(s + [b]) == Terminated(s) + if b == LF then [WithoutCr(Residual(s))] else []
    ensures Residual(s + [b]) == if b == LF then [] else Residual(s) + [b]
  {
    var t := s + [b];
    assert t[..|t| - 1] == s && t[|t| - 1] == b;
  }

  ghost predicate Resumes(s: seq<byte>, r: seq<byte>, t: seq<byte>) {
    Terminated(s + t) == Terminated(s) + Terminated(r + t) && Residual(s + t) == Residual(r + t)
  }

  lemma BothSnoc(x: seq<byte>, y: seq<byte>, before: seq<seq<byte>>, b: byte)
    requires Terminated(x) == before + Terminated(y) && Residual(x) == Residual(y)
    ensures Terminated(x + [b]) == before + Terminated(y + [b]) && Residual(x + [b]) == Residual(y + [b])
  {
    Snoc(x, b);
    Snoc(y, b);
    Regroup(before, Terminated(y), if b == LF then [WithoutCr(Residual(y))] else []);
  }

  lemma ResumesSnoc(s: seq<byte>, r: seq<byte>, t: seq<byte>, b: byte)
    requires Resumes(s, r, t)
    ensures Resumes(s, r, t + [b])
  {
    BothSnoc(s + t, r + t, Terminated(s), b);
    Regroup(s, t, [b]);
    Regroup(r, t, [b]);
  }

  lemma {:induction false} ResumesAll(s: seq<byte>, r: seq<byte>, t: seq<byte>)
    requires Resumes(s, r, [])
    ensures Resumes(s, r, t)
    decreases |t|
  {
    if t != [] {
      ResumesAll(s, r, t[..|t| - 1]);
      ResumesSnoc(s, r, t[..|t| - 1], t[|t| - 1]);
      assert t[..|t| - 1] + [t[|t| - 1]] == t;
    }
  }

  /** Splitting resumes from the residual. */
  lemma SplitResumes(s: seq<byte>, t: seq<byte>)
    ensures Terminated(s + t) == Terminated(s) + Terminated(Residual(s) + t)
    ensures Residual(s + t) == Residual(Residual(s) + t)
  {
    var r := Residual(s);
    ResidualSelf(r);
    assert s + [] == s && r + [] == r;
    assert Resumes(s, r, []);
    ResumesAll(s, r, t);
  }

  lemma HeadTail<T>(s: seq<T>)
    requires s != []
    ensures [s[0]] + s[1..] == s
  {
  }

  lemma Regroup<T>(a: seq<T>, b: seq<T>, c: seq<T>)
    ensures (a + b) + c == a + (b + c)
  {
  }

  lemma {:induction false} ResidualSelf(s: seq<byte>)
    requires LF !in s
    ensures Residual(s) == s && Terminated(s) == []
  {
    if s != [] { ResidualSelf(s[..|s| - 1]); }
  }

  /** The first line, and the rest. */
  lemma LineThenRest(line: seq<byte>, rest: seq<byte>)
    requires LF !in line
    ensures Terminated(line + [LF] + rest) == [WithoutCr(line)] + Terminated(rest)
    ensures Residual(line + [LF] + rest) == Residual(rest)
  {
    ResidualSelf(line);
    Snoc(line, LF);
    SplitResumes(line + [LF], rest);
    NothingBefore(rest);
    NothingBefore([WithoutCr(line)]);
  }

  lemma NothingBefore<T>(s: seq<T>)
    ensures [] + s == s
  {
  }

  lemma FirstLine(s: seq<byte>)
    requires LF in s
    ensures var i := LineEnd(s);
            && Terminated(s) == [WithoutCr(s[..i])] + Terminated(s[i + 1..])
            && Residual(s) == Residual(s[i + 1..])
  {
    CutAtLine(s, LineEnd(s));
    LineThenRest(s[..LineEnd(s)], s[LineEnd(s) + 1..]);
  }

  lemma CutAtLine(s: seq<byte>, i: nat)
    requires i < |s| && s[i] == LF
    ensures s[..i] + [LF] + s[i + 1..] == s
  {
  }

  /** Every line fits the cap with its terminator. */
  ghost predicate LinesFit(s: seq<byte>, cap: nat)
    decreases |s|
  {
    var i := LineEnd(s);
    if i == |s| then i <= cap else i < cap && LinesFit(s[i + 1..], cap)
  }

  /** How much is unterminated after `k` bytes of `s`. */
  ghost function Open(buffer: seq<byte>, s: seq<byte>, k: nat): nat
    requires k <= |s|
  {
    |Residual(buffer + s[..k])|
  }

  /** Byte by byte: every byte still finds room. */
  ghost predicate BytesFit(buffer: seq<byte>, s: seq<byte>, cap: nat) {
    forall k :: 0 <= k < |s| ==> Open(buffer, s, k) < cap
  }

  lemma OpenInLine(s: seq<byte>, k: nat)
    requires k <= LineEnd(s)
    ensures Open([], s, k) == k
  {
    assert [] + s[..k] == s[..LineEnd(s)][..k];
    ResidualSelf(s[..LineEnd(s)][..k]);
  }

  lemma OpenIs(buffer: seq<byte>, s: seq<byte>, k: nat, whole: seq<byte>)
    requires k <= |s| && buffer + s[..k] == whole
    ensures Open(buffer, s, k) == |Residual(whole)|
  {
  }

  lemma OpenAfter(line: seq<byte>, rest: seq<byte>, s: seq<byte>, k: nat)
    requires LF !in line && k <= |rest| && s == line + [LF] + rest
    ensures Open([], s, |line| + 1 + k) == Open([], rest, k)
  {
    var t := rest[..k];
    assert [] + s[..|line| + 1 + k] == line + [LF] + t;
    OpenIs([], s, |line| + 1 + k, line + [LF] + t);
    assert [] + t == t;
    OpenIs([], rest, k, t);
    LineThenRest(line, t);
  }

  lemma OpenPastLine(s: seq<byte>, i: nat, k: nat)
    requires i < k <= |s| && s[i] == LF && LF !in s[..i]
    ensures Open([], s, k) == Open([], s[i + 1..], k - i - 1)
  {
    var line, rest := s[..i], s[i + 1..];
    assert s == line + [LF] + rest;
    OpenAfter(line, rest, s, k - i - 1);
  }

  lemma {:induction false} OpenFits(s: seq<byte>, k: nat, cap: nat)
    requires LinesFit(s, cap) && k < |s|
    ensures Open([], s, k) < cap
    decreases |s|
  {
    if k <= LineEnd(s) {
      OpenInLine(s, k);
    } else {
      OpenPastLine(s, LineEnd(s), k);
      OpenFits(s[LineEnd(s) + 1..], k - LineEnd(s) - 1, cap);
    }
  }

  lemma {:induction false} BytesFitLines(s: seq<byte>, cap: nat)
    requires BytesFit([], s, cap)
    ensures LinesFit(s, cap)
    decreases |s|
  {
    var i := LineEnd(s);
    if i < |s| {
      OpenInLine(s, i);
      var rest := s[i + 1..];
      forall k | 0 <= k < |rest|
        ensures Open([], rest, k) < cap
      {
        OpenPastLine(s, i, i + 1 + k);
      }
      BytesFitLines(rest, cap);
    } else if s != [] {
      OpenInLine(s, i - 1);
    }
  }

  lemma BytesFitIff(s: seq<byte>, cap: nat)
    ensures BytesFit([], s, cap) <==> LinesFit(s, cap)
  {
    if BytesFit([], s, cap) { BytesFitLines(s, cap); }
    if LinesFit(s, cap) {
      forall k | 0 <= k < |s|
        ensures Open([], s, k) < cap
      {
        OpenFits(s, k, cap);
      }
    }
  }

  // Lines written and read back.

  /** Each line with a line feed, after a carriage return where `marks` says so. */
  function Written(lines: seq<seq<byte>>, marks: seq<bool>): seq<byte>
    requires |marks| == |lines|
  {
    if lines == [] then []
    else lines[0] + (if marks[0] then [CR] else []) + [LF] + Written(lines[1..], marks[1..])
  }

  predicate IsPlainLine(line: seq<byte>) {
    LF !in line && (line == [] || line[|line| - 1] != CR)
  }

  lemma MarkedLine(line: seq<byte>, mark: bool)
    requires IsPlainLine(line)
    ensures var marked := line + if mark then [CR] else []; LF !in marked && WithoutCr(marked) == line
  {
    assert (line + [CR])[..|line|] == line && line + [] == line;
  }

  lemma {:induction false} WrittenReads(lines: seq<seq<byte>>, marks: seq<bool>, rest: seq<byte>)
    requires |marks| == |lines| && LF !in rest
    requires forall line :: line in lines ==> IsPlainLine(line)
    ensures Terminated(Written(lines, marks) + rest) == lines && Residual(Written(lines, marks) + rest) == rest
    decreases |lines|
  {
    if lines == [] {
      assert [] + rest == rest;
      ResidualSelf(rest);
    } else {
      var line, more := lines[0], Written(lines[1..], marks[1..]);
      var marked := line + if marks[0] then [CR] else [];
      assert line in lines && forall x :: x in lines[1..] ==> x in lines;
      MarkedLine(line, marks[0]);
      WrittenReads(lines[1..], marks[1..], rest);
      Regroup(marked + [LF], more, rest);
      LineThenRest(marked, more + rest);
      HeadTail(lines);
    }
  }

  /** Lines written with either ending are read back, and what follows the last
      line feed is one more line, as it is, unless it is empty. */
  lemma LinesRoundTrip(lines: seq<seq<byte>>, marks: seq<bool>, rest: seq<byte>)
    requires |marks| == |lines| && LF !in rest
    requires forall line :: line in lines ==> IsPlainLine(line)
    ensures AllLines(Written(lines, marks) + rest) == if rest == [] then lines else lines + [rest]
  {
    WrittenReads(lines, marks, rest);
    assert lines + [] == lines;
  }
}
