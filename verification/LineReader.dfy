/** Buffered reads from a byte stream (tools/transport_bridge/src/main.rs):
    `read_line_message` and the capped read under it. */
module LineReader {
  import opened Basics
  import opened Lines

  datatype ReadError = TooLong | UnexpectedEof

  /** A result, and what is left of the stream. */
  datatype Outcome<T, E> = Outcome(result: Result<T, E>, rest: seq<byte>)

  /** `max_bytes + 1` in 64-bit arithmetic, wrapping at the largest cap. */
  function Limit(cap: usize): nat {
    if cap == U64_MAX then 0 else cap + 1
  }

  /** Up to and including the first line feed, the limit, or the end. */
  function LineLength(s: seq<byte>, limit: nat): (n: nat)
    ensures n <= |s| && n <= limit
  {
    var end := LineEnd(s);
    var n := if end < |s| then end + 1 else end;
    if n < limit then n else limit
  }

  function CappedLine(s: seq<byte>, cap: usize): Outcome<seq<byte>, ReadError> {
    var n := LineLength(s, Limit(cap));
    Outcome(if n > cap then Err(TooLong) else Ok(s[..n]), s[n..])
  }

  /** Without its line feed, then without a carriage return. */
  function Stripped(line: seq<byte>): seq<byte> {
    WithoutCr(if line != [] && line[|line| - 1] == LF then line[..|line| - 1] else line)
  }

  class ByteStream {
    var pending: seq<byte>

    constructor (bytes: seq<byte>)
      ensures pending == bytes
    {
      pending := bytes;
    }

    method ReadLineMessageWithCap(cap: usize) returns (r: Result<seq<byte>, ReadError>)
      modifies this
      ensures Outcome(r, pending) == CappedLine(old(pending), cap)
    {
      var n := LineLength(pending, Limit(cap));
      var line := pending[..n];
      pending := pending[n..];
      r := if |line| > cap then Err(TooLong) else Ok(line);
    }

    method ReadLineMessage(cap: usize) returns (r: Result<Option<seq<byte>>, ReadError>)
      modifies this
      ensures pending == CappedLine(old(pending), cap).rest
      ensures match CappedLine(old(pending), cap).result
              case Err(e) => r == Err(e)
              case Ok(line) => r == Ok(if line == [] then None else Some(Stripped(line)))
    {
      var read := ReadLineMessageWithCap(cap);
      if read.Err? {
        return Err(read.error);
      }
      var line := read.value;
      if |line| == 0 {
        return Ok(None);
      }
      if line[|line| - 1] == LF {
        line := line[..|line| - 1];
      }
      if line != [] && line[|line| - 1] == CR {
        line := line[..|line| - 1];
      }
      r := Ok(Some(line));
    }

    method ReadExact(count: nat) returns (r: Result<seq<byte>, ReadError>)
      modifies this
      ensures if count <= |old(pending)| then r == Ok(old(pending)[..count]) && pending == old(pending)[count..]
              else r == Err(UnexpectedEof) && pending == []
    {
      if count > |pending| {
        pending := [];
        return Err(UnexpectedEof);
      }
      r := Ok(pending[..count]);
      pending := pending[count..];
    }
  }

  /** Every message up to the end of the stream, as the bridge's stdin loop reads them. */
  method ReadMessages(stream: ByteStream, cap: usize) returns (r: Result<seq<seq<byte>>, ReadError>)
    modifies stream
    ensures r == Messages(old(stream.pending), cap)
  {
    var lines := [];
    AfterNothing(Messages(stream.pending, cap));
    while true
      invariant Messages(old(stream.pending), cap) == After(lines, Messages(stream.pending, cap))
      decreases |stream.pending|
    {
      ghost var before := stream.pending;
      var next := stream.ReadLineMessage(cap);
      if next.Err? {
        return Err(next.error);
      }
      if next.value.None? {
        assert lines + [] == lines;
        return Ok(lines);
      }
      AfterOneMore(lines, next.value.value, Messages(stream.pending, cap));
      lines := lines + [next.value.value];
    }
  }

  function After(lines: seq<seq<byte>>, more: Result<seq<seq<byte>>, ReadError>): Result<seq<seq<byte>>, ReadError> {
    match more
    case Err(e) => Err(e)
    case Ok(rest) => Ok(lines + rest)
  }

  lemma AfterNothing(more: Result<seq<seq<byte>>, ReadError>)
    ensures After([], more) == more
  {
    if more.Ok? { assert [] + more.value == more.value; }
  }

  lemma AfterOneMore(lines: seq<seq<byte>>, line: seq<byte>, more: Result<seq<seq<byte>>, ReadError>)
    ensures After(lines, After([line], more)) == After(lines + [line], more)
  {
    if more.Ok? { Regroup(lines, [line], more.value); }
  }

  function Messages(s: seq<byte>, cap: usize): Result<seq<seq<byte>>, ReadError>
    decreases |s|
  {
    var read := CappedLine(s, cap);
    match read.result
    case Err(e) => Err(e)
    case Ok(line) =>
      if line == [] then Ok([]) else After([Stripped(line)], Messages(read.rest, cap))
  }

  /** The reader succeeds exactly when every line fits; then it differs from the
      decoder's lines only in a carriage return at the very end of the stream. */
  lemma {:induction false} MessagesExact(s: seq<byte>, cap: usize)
    requires cap < U64_MAX
    ensures Messages(s, cap) == if LinesFit(s, cap) then Ok(Terminated(s) + Tail(s)) else Err(TooLong)
    decreases |s|
  {
    if LineEnd(s) == |s| {
      NoLineLeft(s, cap);
      assert [] + Tail(s) == Tail(s);
    } else {
      OneLineRead(s, cap);
      FirstLine(s);
      var i := LineEnd(s);
      if i < cap {
        var rest := s[i + 1..];
        MessagesExact(rest, cap);
        assert Tail(rest) == Tail(s);
        Regroup([WithoutCr(s[..i])], Terminated(rest), Tail(s));
      }
    }
  }

  /** The reader's view of the unterminated rest. */
  function Tail(s: seq<byte>): seq<seq<byte>> {
    if Residual(s) == [] then [] else [WithoutCr(Residual(s))]
  }

  lemma NoLineLeft(s: seq<byte>, cap: usize)
    requires cap < U64_MAX && LF !in s
    ensures Messages(s, cap) == if |s| > cap then Err(TooLong) else Ok(Tail(s))
    ensures Terminated(s) == [] && Residual(s) == s
  {
    ResidualSelf(s);
    assert s[..|s|] == s && s[|s|..] == [];
    if |s| <= cap {
      assert LineLength(s, Limit(cap)) == |s|;
      assert CappedLine(s, cap) == Outcome(Ok(s), []);
      assert Messages([], cap) == Ok([]);
      assert Stripped(s) == WithoutCr(s);
      assert [WithoutCr(s)] + [] == [WithoutCr(s)];
    }
  }

  lemma OneLineRead(s: seq<byte>, cap: usize)
    requires cap < U64_MAX && LF in s
    ensures var i := LineEnd(s);
            Messages(s, cap) == if i < cap then After([WithoutCr(s[..i])], Messages(s[i + 1..], cap)) else Err(TooLong)
  {
    var i := LineEnd(s);
    var line := s[..i + 1];
    if i < cap {
      assert CappedLine(s, cap) == Outcome(Ok(line), s[i + 1..]);
      assert line[..i] == s[..i] && Stripped(line) == WithoutCr(s[..i]);
    }
  }

  /** The two line readers agree on a whole stream exactly when it does not end
      in a bare carriage return. */
  lemma ReaderMatchesDecoderIff(s: seq<byte>, cap: usize)
    requires cap < U64_MAX && LinesFit(s, cap)
    ensures Messages(s, cap) == Ok(AllLines(s)) <==> s == [] || s[|s| - 1] != CR
  {
    MessagesExact(s, cap);
    LastOfResidual(s);
    var r, t := Residual(s), Terminated(s);
    if r != [] && WithoutCr(r) != r {
      var a, b := t + [WithoutCr(r)], t + [r];
      assert a[|t|] != b[|t|];
    }
  }

  lemma LastOfResidual(s: seq<byte>)
    ensures (s != [] && s[|s| - 1] == CR) <==> (Residual(s) != [] && Residual(s)[|Residual(s)| - 1] == CR)
  {
  }
}
