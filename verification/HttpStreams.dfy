/** What the HTTP readers take from a stream (tools/transport_bridge/src/main.rs):
    they never look past a message, never take a truncated one for a whole one,
    and accept no response but a 200. */
module HttpStreams {
  import opened Basics
  import opened Decimal
  import opened Lines
  import opened LineReader
  import opened Utf8
  import opened HttpText
  import opened Http

  // Status lines.

  lemma PrefixConcat<T>(a: seq<T>, b: seq<T>)
    requires a <= b
    ensures b == a + b[|a|..]
  {
  }

  /** A text line is decoded from the bytes it takes. */
  lemma LineIsPrefix(s: seq<byte>, cap: usize)
    requires TextLine(s, cap).result.Ok? && TextLine(s, cap).result.value.Some?
    ensures Encode(TextLine(s, cap).result.value.value) <= s
  {
    var line := CappedLine(s, cap).result.value;
    DecodeIff(line, TextLine(s, cap).result.value.value);
  }

  /** A body is read from a response only after a 200 status. */
  lemma OkMeansStatus200(s: seq<byte>, cap: usize)
    requires ResponseOf(s, cap).result.Ok?
    ensures Encode("HTTP/1.1 200") <= s
  {
    var line := TextLine(s, cap).result.value.value;
    LineIsPrefix(s, cap);
    PrefixConcat("HTTP/1.1 200", line);
    EncodeConcat("HTTP/1.1 200", line[|"HTTP/1.1 200"|..]);
  }

  /** What `write_http_error` prints. */
  function ErrorBytes(status: nat, message: string): seq<byte> {
    Encode("HTTP/1.1 " + ToDecimal(status) + " " + message + "\r\n" + KEEP_ALIVE + LengthLine(0) + BLANK)
  }

  lemma ThreeDigits(n: nat)
    requires 100 <= n < 1000
    ensures |ToDecimal(n)| == 3
  {
    assert |ToDecimal(n / 10 / 10)| == 1;
    assert |ToDecimal(n / 10)| == 2;
  }

  lemma {:induction false} AsciiEncodes(t: string)
    requires Ascii(t)
    ensures |Encode(t)| == |t| && forall i :: 0 <= i < |t| ==> Encode(t)[i] == t[i] as int
  {
    if t != "" { AsciiEncodes(t[1..]); }
  }

  lemma OtherwiseRefused(s: seq<byte>, cap: usize)
    requires !(Encode("HTTP/1.1 200") <= s)
    ensures ResponseOf(s, cap).result.Err?
  {
    if ResponseOf(s, cap).result.Ok? { OkMeansStatus200(s, cap); }
  }

  lemma OtherLine(line: string, wanted: string, more: seq<byte>)
    requires Ascii(line) && Ascii(wanted) && |line| == |wanted| && line != wanted
    ensures !(Encode(wanted) <= Encode(line) + more)
  {
    if Encode(wanted) <= Encode(line) + more { SameDigits(line, wanted, more); }
  }

  lemma StatusLines(digits: string)
    requires |digits| == 3 && Ascii(digits) && digits != "200"
    ensures Ascii("HTTP/1.1 " + digits) && Ascii("HTTP/1.1 200")
    ensures |"HTTP/1.1 " + digits| == |"HTTP/1.1 200"| && "HTTP/1.1 " + digits != "HTTP/1.1 200"
  {
    assert ("HTTP/1.1 " + digits)[9..] == digits && "HTTP/1.1 200"[9..] == "200";
  }

  /** A stream that begins with a status line of another code is refused. */
  lemma OtherStatusRefused(digits: string, more: seq<byte>, cap: usize)
    requires |digits| == 3 && Ascii(digits) && digits != "200"
    ensures ResponseOf(Encode("HTTP/1.1 " + digits) + more, cap).result.Err?
  {
    StatusLines(digits);
    OtherLine("HTTP/1.1 " + digits, "HTTP/1.1 200", more);
    OtherwiseRefused(Encode("HTTP/1.1 " + digits) + more, cap);
  }

  /** An error response never reads back as a body. */
  lemma ErrorReadsAsError(status: nat, message: string, rest: seq<byte>, cap: usize)
    requires 100 <= status < 1000 && status != 200
    ensures ResponseOf(ErrorBytes(status, message) + rest, cap).result.Err?
  {
    var start := "HTTP/1.1 " + ToDecimal(status);
    var tail := " " + message + "\r\n" + KEEP_ALIVE + LengthLine(0) + BLANK;
    ThreeDigits(status);
    Printed200();
    if ToDecimal(status) == "200" { ToDecimalInjective(status, 200); }
    assert "HTTP/1.1 " + ToDecimal(status) + " " + message + "\r\n" + KEEP_ALIVE + LengthLine(0) + BLANK == start + tail;
    EncodeConcat(start, tail);
    Regroup(Encode(start), Encode(tail), rest);
    OtherStatusRefused(ToDecimal(status), Encode(tail) + rest, cap);
  }

  lemma Printed200()
    ensures ToDecimal(200) == "200"
  {
    assert ToDecimal(2) == "2" && ToDecimal(20) == "20";
  }

  lemma SameDigits(a: string, b: string, rest: seq<byte>)
    requires Ascii(a) && Ascii(b) && |a| == |b| && Encode(b) <= Encode(a) + rest
    ensures a == b
  {
    AsciiEncodes(a);
    AsciiEncodes(b);
    forall i | 0 <= i < |a|
      ensures a[i] == b[i]
    {
      assert Encode(b)[i] == (Encode(a) + rest)[i] == Encode(a)[i];
    }
  }

  // Reading stops where the message ends.

  lemma LineEndStays(s: seq<byte>, t: seq<byte>)
    requires LF in s
    ensures LineEnd(s + t) == LineEnd(s)
  {
    var i := LineEnd(s);
    assert s + t == s[..i] + ([LF] + (s[i + 1..] + t));
    LineEndAt(s[..i], s[i + 1..] + t);
  }

  /** A terminated line is read the same whatever follows it. */
  lemma LineExtends(s: seq<byte>, t: seq<byte>, cap: usize)
    requires LF in s
    ensures TextLine(s + t, cap) == Outcome(TextLine(s, cap).result, TextLine(s, cap).rest + t)
  {
    LineEndStays(s, t);
    var n := LineLength(s, Limit(cap));
    assert (s + t)[..n] == s[..n] && (s + t)[n..] == s[n..] + t;
  }

  /** A line without a terminator is the end of the stream, and no blank line. */
  lemma UnterminatedLine(s: seq<byte>, cap: usize)
    requires LF !in s && TextLine(s, cap).result.Ok? && TextLine(s, cap).result.value.Some?
    ensures TextLine(s, cap).rest == [] && TextLine(s, cap).result.value.value != BLANK
  {
    LineIsPrefix(s, cap);
    InPrefix(Encode(TextLine(s, cap).result.value.value), s);
    BlankHasLineFeed();
  }

  lemma InPrefix<T>(a: seq<T>, b: seq<T>)
    requires a <= b
    ensures forall x :: x in a ==> x in b
  {
  }

  lemma BlankHasLineFeed()
    ensures LF in Encode(BLANK)
  {
    EncodeConcat("\r", "\n");
    assert BLANK == "\r" + "\n" && Encode("\n") == [LF];
  }

  lemma NothingAtEnd(cap: usize)
    ensures TextLine([], cap) == Outcome(Ok(None), [])
  {
  }

  lemma {:induction false} HeadersExtend(s: seq<byte>, t: seq<byte>, cap: usize, found: Option<usize>)
    requires Headers(s, cap, found).result.Ok?
    ensures Headers(s + t, cap, found) == Outcome(Headers(s, cap, found).result, Headers(s, cap, found).rest + t)
    decreases |s|
  {
    var read := TextLine(s, cap);
    if LF in s {
      LineExtends(s, t, cap);
      var line := read.result.value.value;
      if line != BLANK {
        var length := LengthHeader(line, cap);
        HeadersExtend(read.rest, t, cap, if length.None? then found else Some(length.value.value));
      }
    } else {
      UnterminatedLine(s, cap);
      NothingAtEnd(cap);
    }
  }

  lemma BodyExtends(s: seq<byte>, t: seq<byte>, cap: usize)
    requires Body(s, cap).result.Ok?
    ensures Body(s + t, cap) == Outcome(Body(s, cap).result, Body(s, cap).rest + t)
  {
    HeadersExtend(s, t, cap, None);
    SliceConcat(Headers(s, cap, None).rest, t, Headers(s, cap, None).result.value);
  }

  lemma SliceConcat<T>(a: seq<T>, b: seq<T>, n: nat)
    requires n <= |a|
    ensures (a + b)[..n] == a[..n] && (a + b)[n..] == a[n..] + b
  {
  }

  /** A request that is read at all is read the same whatever follows it, and
      what follows is left alone. */
  lemma {:induction false} RequestExtends(s: seq<byte>, t: seq<byte>, cap: usize)
    requires RequestOf(s, cap).result.Ok? && RequestOf(s, cap).result.value.Some?
    ensures RequestOf(s + t, cap) == Outcome(RequestOf(s, cap).result, RequestOf(s, cap).rest + t)
    decreases |s|
  {
    var read := TextLine(s, cap);
    if LF in s {
      LineExtends(s, t, cap);
      if read.result.value.value == BLANK {
        RequestExtends(read.rest, t, cap);
      } else {
        BodyExtends(read.rest, t, cap);
      }
    } else {
      UnterminatedLine(s, cap);
      NothingAtEnd(cap);
    }
  }

  lemma ResponseExtends(s: seq<byte>, t: seq<byte>, cap: usize)
    requires ResponseOf(s, cap).result.Ok?
    ensures ResponseOf(s + t, cap) == Outcome(ResponseOf(s, cap).result, ResponseOf(s, cap).rest + t)
  {
    var read := TextLine(s, cap);
    if LF in s {
      LineExtends(s, t, cap);
      BodyExtends(read.rest, t, cap);
    } else {
      UnterminatedLine(s, cap);
      NothingAtEnd(cap);
    }
  }

  // Truncated messages.

  lemma Cut<T>(s: seq<T>, k: nat)
    requires k < |s|
    ensures s[..k] + s[k..] == s && s[k..] != []
  {
  }

  lemma NoWrongRest(t: seq<byte>)
    requires t != []
    ensures forall s: seq<byte> :: s + t != []
  {
    assert forall s: seq<byte> :: |s + t| > 0;
  }

  /** No proper part of a written request is taken for a request: at its very
      beginning the stream is at its end, and anywhere later that is an error. */
  lemma TruncatedRequest(path: string, host: string, body: seq<byte>, cap: usize, k: nat)
    requires RequestFits(path, host, body, cap) && IsWord(path) && k < |RequestBytes(path, host, body)|
    ensures var read := RequestOf(RequestBytes(path, host, body)[..k], cap).result;
            if k == 0 then read == Ok(None) else read.Err?
  {
    var whole := RequestBytes(path, host, body);
    var part, tail := whole[..k], whole[k..];
    Cut(whole, k);
    if k == 0 {
      NothingAtEnd(cap);
      assert part == [];
    } else {
      StartsWithP(path, host, body, k);
      NotAtEnd(part, cap);
      RequestRoundTripIff(path, host, body, [], cap);
      assert whole + [] == whole;
      NoWrongRest(tail);
      if RequestOf(part, cap).result.Ok? { RequestExtends(part, tail, cap); }
    }
  }

  lemma StartsWithP(path: string, host: string, body: seq<byte>, k: nat)
    requires 0 < k <= |RequestBytes(path, host, body)|
    ensures RequestBytes(path, host, body)[..k][0] == 'P' as int
  {
    var head := RequestHead(path, host, |body|);
    assert head[0] == 'P' && EncodeChar('P') == ['P' as int];
  }

  /** A stream that does not begin a blank line is not at its end. */
  lemma NotAtEnd(s: seq<byte>, cap: usize)
    requires s != [] && s[0] == 'P' as int && cap < U64_MAX
    ensures RequestOf(s, cap).result != Ok(None)
  {
    var read := TextLine(s, cap);
    if read.result.Ok? && read.result.value.Some? {
      LineIsPrefix(s, cap);
      AsciiEncodes(BLANK);
      var line := Encode(read.result.value.value);
      assert line != [] ==> line[0] == s[0];
    }
  }

  /** Nor is a proper part of a written response. */
  lemma TruncatedResponse(body: seq<byte>, cap: usize, k: nat)
    requires CapFits(cap) && |body| <= cap && k < |ResponseBytes(body)|
    ensures ResponseOf(ResponseBytes(body)[..k], cap).result.Err?
  {
    var whole := ResponseBytes(body);
    Cut(whole, k);
    ResponseRoundTrip(body, [], cap);
    assert whole + [] == whole;
    NoWrongRest(whole[k..]);
    if ResponseOf(whole[..k], cap).result.Ok? { ResponseExtends(whole[..k], whole[k..], cap); }
  }

  // Lengths.

  /** The last length wins, and a head without one is refused. */
  lemma LastLengthWins(first: usize, last: usize, after: seq<byte>, cap: usize)
    requires CapFits(cap) && first <= cap && last <= cap
    ensures Headers(Encode(LengthLine(first) + (LengthLine(last) + BLANK)) + after, cap, None) == Outcome(Ok(last), after)
    ensures Headers(Encode(BLANK) + after, cap, None) == Outcome(Err(MissingLength), after)
  {
    LengthLineIsPlain(first, cap);
    PlainLineFits(LengthLine(first), cap);
    LengthLineIsPlain(last, cap);
    PlainLineFits(LengthLine(last), cap);
    PlainLineFits(BLANK, cap);
    EncodeTwo(LengthLine(first), LengthLine(last) + BLANK, after);
    EncodeTwo(LengthLine(last), BLANK, after);
    LengthLineParses(first, cap);
    LengthLineParses(last, cap);
    HeaderReads(LengthLine(first), Encode(LengthLine(last) + BLANK) + after, cap, None);
    HeaderReads(LengthLine(last), Encode(BLANK) + after, cap, Some(first));
    LineReads(BLANK, after, cap);
  }

  // What is written.

  lemma FixedLines()
    ensures STATUS_LINE == "HTTP/1.1 200 OK\r\n" && KEEP_ALIVE == "Connection: keep-alive\r\n"
    ensures CONTENT_TYPE == "Content-Type: application/json\r\n" && BLANK == "\r\n"
  {
  }

  lemma FromTheLeft(a: string, b: string, c: string, d: string, e: string, f: string)
    ensures a + (b + (c + (d + (e + f)))) == a + b + c + d + e + f
    ensures a + (c + (d + (e + f))) == a + c + d + e + f
  {
  }

  /** The whole head of a request and of a response, line by line. */
  lemma WrittenHeads(path: string, host: string, length: nat)
    ensures RequestHead(path, host, length) ==
            ("POST " + path + " HTTP/1.1\r\n") + ("Host: " + host + "\r\n") + "Connection: keep-alive\r\n" +
            "Content-Type: application/json\r\n" + ("Content-Length: " + ToDecimal(length) + "\r\n") + "\r\n"
    ensures STATUS_LINE + SharedHead(length) ==
            "HTTP/1.1 200 OK\r\n" + "Connection: keep-alive\r\n" + "Content-Type: application/json\r\n" +
            ("Content-Length: " + ToDecimal(length) + "\r\n") + "\r\n"
  {
    FixedLines();
    FromTheLeft(RequestLine(path), HostLine(host), KEEP_ALIVE, CONTENT_TYPE, LengthLine(length), BLANK);
    FromTheLeft(STATUS_LINE, "", KEEP_ALIVE, CONTENT_TYPE, LengthLine(length), BLANK);
  }
}
