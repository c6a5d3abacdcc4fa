/** The incremental decoder of H2 bodies (tools/transport_bridge/src/main.rs). */
module LineDecoder {
  import opened Basics
  import opened Lines

  datatype LineError = TooLong | MultipleMessages | MissingBody

  class H2LineDecoder {
    var buffer: seq<byte>
    const maxMessageBytes: nat

    constructor (maxMessageBytes: nat)
      ensures this.maxMessageBytes == maxMessageBytes && buffer == []
    {
      this.maxMessageBytes := maxMessageBytes;
      buffer := [];
    }

    /** The cap is tested on the residual plus the chunk, before any line is drained. */
    method PushChunk(chunk: seq<byte>) returns (r: Result<seq<seq<byte>>, LineError>)
      modifies this
      ensures if |old(buffer) + chunk| > maxMessageBytes then r == Err(TooLong) && buffer == old(buffer) + chunk
              else r == Ok(Terminated(old(buffer) + chunk)) && buffer == Residual(old(buffer) + chunk)
    {
      buffer := buffer + chunk;
      if |buffer| > maxMessageBytes {
        return Err(TooLong);
      }
      var lines := [];
      ghost var whole := buffer;
      while LineEnd(buffer) != |buffer|
        invariant lines + Terminated(buffer) == Terminated(whole) && Residual(buffer) == Residual(whole)
        decreases |buffer|
      {
        ghost var before := buffer;
        FirstLine(before);
        var index := LineEnd(buffer);
        var line := buffer[..index + 1];
        buffer := buffer[index + 1..];
        if line != [] && line[|line| - 1] == LF {
          line := line[..|line| - 1];
        }
        assert line == before[..index];
        if line != [] && line[|line| - 1] == CR {
          line := line[..|line| - 1];
        }
        Regroup(lines, [line], Terminated(buffer));
        lines := lines + [line];
      }
      ResidualSelf(buffer);
      assert lines + [] == lines;
      r := Ok(lines);
    }

    /** The unterminated rest, as it is: no carriage return is stripped. */
    method Finish() returns (lines: seq<seq<byte>>)
      modifies this
      ensures lines == (if old(buffer) == [] then [] else [old(buffer)]) && buffer == []
    {
      if buffer == [] {
        return [];
      }
      lines := [buffer];
      buffer := [];
    }
  }

  // Whole bodies.

  function Concat(chunks: seq<seq<byte>>): seq<byte> {
    if chunks == [] then [] else chunks[0] + Concat(chunks[1..])
  }

  lemma ConcatCons(chunk: seq<byte>, chunks: seq<seq<byte>>)
    ensures Concat([chunk] + chunks) == chunk + Concat(chunks)
  {
    assert ([chunk] + chunks)[1..] == chunks;
  }

  lemma ConcatFrom(chunks: seq<seq<byte>>, i: nat, seen: seq<byte>)
    requires i < |chunks|
    ensures seen + Concat(chunks[i..]) == seen + chunks[i] + Concat(chunks[i + 1..])
  {
    assert chunks[i..] == [chunks[i]] + chunks[i + 1..];
    ConcatCons(chunks[i], chunks[i + 1..]);
    Regroup(seen, chunks[i], Concat(chunks[i + 1..]));
  }

  /** No chunk takes the buffer over the cap. */
  predicate Fits(buffer: seq<byte>, chunks: seq<seq<byte>>, cap: nat)
    decreases |chunks|
  {
    chunks == [] || (|buffer + chunks[0]| <= cap && Fits(Residual(buffer + chunks[0]), chunks[1..], cap))
  }

  /** Pushing every chunk and finishing, as `copy_h2_body_to_stdout` does. */
  method DecodeBody(chunks: seq<seq<byte>>, cap: nat) returns (r: Result<seq<seq<byte>>, LineError>)
    ensures if Fits([], chunks, cap) then r == Ok(AllLines(Concat(chunks))) else r == Err(TooLong)
  {
    var decoder := new H2LineDecoder(cap);
    var lines := [];
    ghost var seen := [];
    for i := 0 to |chunks|
      invariant seen + Concat(chunks[i..]) == Concat(chunks)
      invariant fresh(decoder) && decoder.maxMessageBytes == cap && decoder.buffer == Residual(seen)
      invariant lines == Terminated(seen)
      invariant Fits([], chunks, cap) <==> Fits(decoder.buffer, chunks[i..], cap)
    {
      SplitResumes(seen, chunks[i]);
      ConcatFrom(chunks, i, seen);
      assert chunks[i..][0] == chunks[i] && chunks[i..][1..] == chunks[i + 1..];
      var pushed := decoder.PushChunk(chunks[i]);
      if pushed.Err? {
        return pushed;
      }
      lines := lines + pushed.value;
      seen := seen + chunks[i];
    }
    assert seen + [] == seen;
    var last := decoder.Finish();
    r := Ok(lines + last);
  }

  // Which chunkings fit.

  /** The finest chunking. */
  function Bytewise(s: seq<byte>): seq<seq<byte>> {
    if s == [] then [] else [[s[0]]] + Bytewise(s[1..])
  }

  lemma {:induction false} BytewiseConcat(s: seq<byte>)
    ensures Concat(Bytewise(s)) == s
  {
    if s != [] {
      BytewiseConcat(s[1..]);
      ConcatCons([s[0]], Bytewise(s[1..]));
      assert [s[0]] + s[1..] == s;
    }
  }

  lemma {:induction false} FittingBytesFit(buffer: seq<byte>, chunks: seq<seq<byte>>, cap: nat)
    requires LF !in buffer && Fits(buffer, chunks, cap)
    ensures BytesFit(buffer, Concat(chunks), cap)
    decreases |chunks|
  {
    if chunks != [] {
      var a, rest, s := chunks[0], Concat(chunks[1..]), Concat(chunks);
      var next := Residual(buffer + a);
      FittingBytesFit(next, chunks[1..], cap);
      forall k | 0 <= k < |s|
        ensures Open(buffer, s, k) < cap
      {
        if k < |a| {
          assert s[..k] == a[..k];
        } else {
          assert Open(next, rest, k - |a|) < cap;
          assert s[..k] == a + rest[..k - |a|];
          Regroup(buffer, a, rest[..k - |a|]);
          SplitResumes(buffer + a, rest[..k - |a|]);
        }
      }
    }
  }

  lemma OpenStep(buffer: seq<byte>, b: byte, s: seq<byte>, k: nat)
    requires k <= |s|
    ensures Open(Residual(buffer + [b]), s, k) == Open(buffer, [b] + s, k + 1)
  {
    assert ([b] + s)[..k + 1] == [b] + s[..k];
    Regroup(buffer, [b], s[..k]);
    SplitResumes(buffer + [b], s[..k]);
  }

  lemma {:induction false} BytesFitBytewise(buffer: seq<byte>, s: seq<byte>, cap: nat)
    requires LF !in buffer && BytesFit(buffer, s, cap)
    ensures Fits(buffer, Bytewise(s), cap)
    decreases |s|
  {
    if s != [] {
      var b, rest := s[0], s[1..];
      var next := Residual(buffer + [b]);
      assert s == [b] + rest;
      forall k | 0 <= k < |rest|
        ensures Open(next, rest, k) < cap
      {
        OpenStep(buffer, b, rest, k);
      }
      BytesFitBytewise(next, rest, cap);
      RoomForOne(buffer, s, cap);
      assert Bytewise(s)[0] == [b] && Bytewise(s)[1..] == Bytewise(rest);
    }
  }

  lemma RoomForOne(buffer: seq<byte>, s: seq<byte>, cap: nat)
    requires LF !in buffer && s != [] && BytesFit(buffer, s, cap)
    ensures |buffer| < cap
  {
    ResidualSelf(buffer);
    assert buffer + s[..0] == buffer && Open(buffer, s, 0) < cap;
  }

  /** Acceptance depends on the chunking; some chunking is accepted exactly
      when every line of the stream fits the cap with its terminator. */
  lemma SomeChunkingFitsIff(s: seq<byte>, cap: nat)
    ensures (exists chunks :: Concat(chunks) == s && Fits([], chunks, cap)) <==> LinesFit(s, cap)
  {
    BytesFitIff(s, cap);
    if LinesFit(s, cap) {
      BytesFitBytewise([], s, cap);
      BytewiseConcat(s);
    }
    forall chunks | Concat(chunks) == s && Fits([], chunks, cap)
      ensures LinesFit(s, cap)
    {
      FittingBytesFit([], chunks, cap);
    }
  }

  lemma {:induction false} SmallStreamFits(buffer: seq<byte>, chunks: seq<seq<byte>>, cap: nat)
    requires |buffer| + |Concat(chunks)| <= cap
    ensures Fits(buffer, chunks, cap)
    decreases |chunks|
  {
    if chunks != [] { SmallStreamFits(Residual(buffer + chunks[0]), chunks[1..], cap); }
  }

  lemma OneChunk(s: seq<byte>, cap: nat)
    ensures Concat([s]) == s && (Fits([], [s], cap) <==> |s| <= cap)
  {
    ConcatCons(s, []);
    assert [s] + [] == [s] && s + [] == s && [] + s == s && [s][1..] == [];
  }

  /** Every chunking of a stream is accepted exactly when the whole stream fits. */
  lemma AllChunkingsFitIff(s: seq<byte>, cap: nat)
    ensures (forall chunks :: Concat(chunks) == s ==> Fits([], chunks, cap)) <==> |s| <= cap
  {
    OneChunk(s, cap);
    forall chunks | Concat(chunks) == s && |s| <= cap
      ensures Fits([], chunks, cap)
    {
      SmallStreamFits([], chunks, cap);
    }
  }

  /** The chunking is irrelevant exactly when the whole stream fits, or some
      line does not fit on its own. */
  lemma ChunkingIrrelevantIff(s: seq<byte>, cap: nat)
    ensures (forall a, b :: Concat(a) == s && Concat(b) == s ==> Fits([], a, cap) == Fits([], b, cap)) <==>
            |s| <= cap || !LinesFit(s, cap)
  {
    AllChunkingsFitIff(s, cap);
    SomeChunkingFitsIff(s, cap);
    OneChunk(s, cap);
  }

  /** Two short lines under a cap of two: apart they fit, together they do not. */
  lemma ChunkingDecides(x: byte)
    requires x != LF
    ensures Concat([[x, LF], [x, LF]]) == Concat([[x, LF, x, LF]])
    ensures Fits([], [[x, LF], [x, LF]], 2) && !Fits([], [[x, LF, x, LF]], 2)
  {
    assert Concat([[x, LF]]) == [x, LF] + Concat([]);
    assert [[x, LF], [x, LF]][1..] == [[x, LF]] && [[x, LF]][1..] == [] && [[x, LF, x, LF]][1..] == [];
    assert [] + [x, LF] == [x] + [LF];
    Snoc([x], LF);
  }

  // One message per body.

  function ReadBody(buffer: seq<byte>, chunks: seq<seq<byte>>, cap: nat): (r: Result<seq<byte>, LineError>)
    requires LF !in buffer
    ensures r.Ok? ==> LF !in r.value
    decreases |chunks|
  {
    if chunks == [] then (if buffer == [] then Err(MissingBody) else Ok(buffer))
    else
      var whole := buffer + chunks[0];
      if |whole| > cap then Err(TooLong)
      else
        var lines := Terminated(whole);
        if |lines| == 0 then ReadBody(Residual(whole), chunks[1..], cap)
        else if |lines| == 1 then Ok(lines[0])
        else Err(MultipleMessages)
  }

  method ReadH2RequestBody(chunks: seq<seq<byte>>, cap: nat) returns (r: Result<seq<byte>, LineError>)
    ensures r == ReadBody([], chunks, cap)
  {
    var decoder := new H2LineDecoder(cap);
    for i := 0 to |chunks|
      invariant fresh(decoder) && decoder.maxMessageBytes == cap && LF !in decoder.buffer
      invariant ReadBody(decoder.buffer, chunks[i..], cap) == ReadBody([], chunks, cap)
    {
      assert chunks[i..][0] == chunks[i] && chunks[i..][1..] == chunks[i + 1..];
      var pushed := decoder.PushChunk(chunks[i]);
      if pushed.Err? {
        return Err(pushed.error);
      }
      if |pushed.value| == 1 {
        return Ok(pushed.value[0]);
      } else if |pushed.value| != 0 {
        return Err(MultipleMessages);
      }
    }
    var lines := decoder.Finish();
    r := if |lines| == 0 then Err(MissingBody) else Ok(lines[0]);
  }

  lemma LineEndIs(s: seq<byte>, i: nat)
    requires i < |s| && s[i] == LF && LF !in s[..i]
    ensures LineEnd(s) == i
  {
    NoneBefore(s, i);
    NoneBefore(s, LineEnd(s));
  }

  lemma NoneBefore(s: seq<byte>, i: nat)
    requires i <= |s| && LF !in s[..i]
    ensures forall k :: 0 <= k < i ==> s[k] != LF
  {
    forall k | 0 <= k < i
      ensures s[k] != LF
    {
      assert s[k] in s[..i];
    }
  }

  /** What comes later does not move the first line feed. */
  lemma LineEndStays(s: seq<byte>, t: seq<byte>)
    requires LF in s
    ensures LF in s + t && LineEnd(s + t) == LineEnd(s) && (s + t)[..LineEnd(s)] == s[..LineEnd(s)]
    ensures (s + t)[LineEnd(s) + 1..] == s[LineEnd(s) + 1..] + t
  {
    assert (s + t)[LineEnd(s)] == LF && (s + t)[..LineEnd(s)] == s[..LineEnd(s)];
    LineEndIs(s + t, LineEnd(s));
  }

  /** A chunk without a line feed only fills the buffer. */
  lemma FillsBuffer(buffer: seq<byte>, chunks: seq<seq<byte>>, cap: nat)
    requires chunks != [] && LF !in buffer && LF !in buffer + chunks[0]
    ensures ReadBody(buffer, chunks, cap) ==
            if |buffer + chunks[0]| > cap then Err(TooLong) else ReadBody(buffer + chunks[0], chunks[1..], cap)
    ensures buffer + Concat(chunks) == buffer + chunks[0] + Concat(chunks[1..])
  {
    ResidualSelf(buffer + chunks[0]);
    ConcatFrom(chunks, 0, buffer);
    assert chunks[0..] == chunks;
  }

  /** Without a line feed. */
  lemma {:induction false} UnterminatedBody(buffer: seq<byte>, chunks: seq<seq<byte>>, cap: nat)
    requires LF !in buffer + Concat(chunks) && |buffer| <= cap
    ensures var s := buffer + Concat(chunks);
            ReadBody(buffer, chunks, cap) ==
            if |s| > cap then Err(TooLong) else if s == [] then Err(MissingBody) else Ok(s)
    decreases |chunks|
  {
    if chunks == [] {
      assert buffer + [] == buffer;
    } else {
      ConcatFrom(chunks, 0, buffer);
      assert chunks[0..] == chunks;
      assert forall b :: b in buffer + chunks[0] ==> b in buffer + Concat(chunks);
      FillsBuffer(buffer, chunks, cap);
      if |buffer + chunks[0]| <= cap { UnterminatedBody(buffer + chunks[0], chunks[1..], cap); }
    }
  }

  /** With a first line that does not fit together with its terminator. */
  lemma {:induction false} FirstLineTooLong(buffer: seq<byte>, chunks: seq<seq<byte>>, cap: nat)
    requires LF !in buffer && LF in buffer + Concat(chunks) && LineEnd(buffer + Concat(chunks)) >= cap
    ensures ReadBody(buffer, chunks, cap) == Err(TooLong)
    decreases |chunks|
  {
    assert buffer + [] == buffer;
    if chunks != [] {
      var whole := buffer + chunks[0];
      ConcatFrom(chunks, 0, buffer);
      assert chunks[0..] == chunks;
      if LF in whole {
        LineEndStays(whole, Concat(chunks[1..]));
      } else {
        FillsBuffer(buffer, chunks, cap);
        if |whole| <= cap { FirstLineTooLong(whole, chunks[1..], cap); }
      }
    }
  }

  /** The chunk that brings the only line feed. */
  lemma LineArrives(whole: seq<byte>, rest: seq<byte>)
    requires LF in whole
    requires var s := whole + rest; LF !in s[LineEnd(s) + 1..]
    ensures LineEnd(whole + rest) == LineEnd(whole)
    ensures Terminated(whole) == [WithoutCr((whole + rest)[..LineEnd(whole)])]
  {
    LineEndStays(whole, rest);
    var after := whole[LineEnd(whole) + 1..];
    assert forall b :: b in after ==> b in after + rest;
    FirstLine(whole);
    ResidualSelf(after);
  }

  /** With one line feed, in a stream that fits. */
  lemma {:induction false} OneLineBody(buffer: seq<byte>, chunks: seq<seq<byte>>, cap: nat)
    requires LF !in buffer && LF in buffer + Concat(chunks) && |buffer + Concat(chunks)| <= cap
    requires var s := buffer + Concat(chunks); LF !in s[LineEnd(s) + 1..]
    ensures var s := buffer + Concat(chunks); ReadBody(buffer, chunks, cap) == Ok(WithoutCr(s[..LineEnd(s)]))
    decreases |chunks|
  {
    assert buffer + [] == buffer;
    if chunks != [] {
      ConcatFrom(chunks, 0, buffer);
      assert chunks[0..] == chunks;
      if LF in buffer + chunks[0] {
        LineArrives(buffer + chunks[0], Concat(chunks[1..]));
      } else {
        FillsBuffer(buffer, chunks, cap);
        OneLineBody(buffer + chunks[0], chunks[1..], cap);
      }
    }
  }

  /** The first line in a chunk of its own is read whatever follows. */
  lemma FirstLineAlone(s: seq<byte>, cap: nat)
    requires LF in s && LineEnd(s) < cap
    ensures var i := LineEnd(s);
            && Concat([s[..i + 1], s[i + 1..]]) == s
            && ReadBody([], [s[..i + 1], s[i + 1..]], cap) == Ok(WithoutCr(s[..i]))
  {
    var i := LineEnd(s);
    var first, rest := s[..i + 1], s[i + 1..];
    assert first == s[..i] + [LF] && [] + first == first && s == first + rest;
    OneChunk(rest, cap);
    ConcatCons(first, [rest]);
    assert [first] + [rest] == [first, rest];
    LineAlone(s[..i]);
  }

  lemma LineAlone(line: seq<byte>)
    requires LF !in line
    ensures Terminated(line + [LF]) == [WithoutCr(line)]
  {
    Snoc(line, LF);
    ResidualSelf(line);
  }

  /** All at once, the whole stream counts. */
  lemma AllAtOnce(s: seq<byte>, cap: nat)
    requires LF in s && (|s| > cap || LF in s[LineEnd(s) + 1..])
    ensures Concat([s]) == s && ReadBody([], [s], cap) == Err(if |s| > cap then TooLong else MultipleMessages)
  {
    OneChunk(s, cap);
    assert [] + s == s;
    if LF in s[LineEnd(s) + 1..] { TwoLines(s); }
  }

  lemma TwoLines(s: seq<byte>)
    requires LF in s && LF in s[LineEnd(s) + 1..]
    ensures |Terminated(s)| >= 2
  {
    FirstLine(s);
    FirstLine(s[LineEnd(s) + 1..]);
  }

  /** What the reader makes of a stream is the same for every chunking exactly
      when there is no line feed, the first line does not fit, or the whole
      stream fits and nothing in it is terminated after the first line. */
  lemma BodyChunkingIrrelevantIff(s: seq<byte>, cap: nat)
    ensures (forall a, b :: Concat(a) == s && Concat(b) == s ==> ReadBody([], a, cap) == ReadBody([], b, cap)) <==>
            LF !in s || LineEnd(s) >= cap || (|s| <= cap && LF !in s[LineEnd(s) + 1..])
  {
    if LF !in s || LineEnd(s) >= cap || (|s| <= cap && LF !in s[LineEnd(s) + 1..]) {
      forall a, b | Concat(a) == s && Concat(b) == s
        ensures ReadBody([], a, cap) == ReadBody([], b, cap)
      {
        SameOutcome(s, a, cap);
        SameOutcome(s, b, cap);
      }
    } else {
      FirstLineAlone(s, cap);
      AllAtOnce(s, cap);
    }
  }

  /** The outcome where the chunking does not matter. */
  lemma SameOutcome(s: seq<byte>, chunks: seq<seq<byte>>, cap: nat)
    requires Concat(chunks) == s
    requires LF !in s || LineEnd(s) >= cap || (|s| <= cap && LF !in s[LineEnd(s) + 1..])
    ensures ReadBody([], chunks, cap) ==
            if LF in s then (if LineEnd(s) >= cap then Err(TooLong) else Ok(WithoutCr(s[..LineEnd(s)])))
            else if |s| > cap then Err(TooLong) else if s == [] then Err(MissingBody) else Ok(s)
  {
    assert [] + Concat(chunks) == s;
    if LF !in s {
      UnterminatedBody([], chunks, cap);
    } else if LineEnd(s) >= cap {
      FirstLineTooLong([], chunks, cap);
    } else {
      OneLineBody([], chunks, cap);
    }
  }

  /** The client appends a line feed; the server recovers the message from any
      chunking exactly when it has no line feed, does not end in a carriage
      return, and fits the cap together with the terminator. */
  lemma BodyRecoveredIff(m: seq<byte>, chunks: seq<seq<byte>>, cap: nat)
    requires Concat(chunks) == m + [LF]
    ensures ReadBody([], chunks, cap) == Ok(m) <==>
            LF !in m && (m == [] || m[|m| - 1] != CR) && |m| < cap
  {
    if LF !in m {
      var s := m + [LF];
      assert s[|m|] == LF && s[..|m|] == m && s[|m| + 1..] == [];
      LineEndIs(s, |m|);
      SameOutcome(s, chunks, cap);
    }
  }
}
