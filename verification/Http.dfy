/** The bridge's HTTP/1.1 readers and writers (tools/transport_bridge/src/main.rs)
    over one byte stream, and their round trip with keep-alive. */
module Http {
  import opened Basics
  import opened Lines
  import opened LineReader
  import opened Utf8
  import opened Decimal
  import opened HttpText

  datatype HttpRequest = HttpRequest(path: string, body: seq<byte>)

  // What the readers compute.

  function TextLine(s: seq<byte>, cap: usize): (o: Outcome<Option<string>, HttpError>)
    ensures |o.rest| <= |s|
    ensures o.result.Ok? && o.result.value.Some? ==> |o.rest| < |s|
  {
    var read := CappedLine(s, cap);
    match read.result
    case Err(_) => Outcome(Err(LineTooLong), read.rest)
    case Ok(line) =>
      if line == [] then Outcome(Ok(None), read.rest)
      else
        match Decode(line)
        case None => Outcome(Err(NotUtf8), read.rest)
        case Some(text) => Outcome(Ok(Some(text)), read.rest)
  }

  /** Headers up to the blank line; the last length wins. */
  function Headers(s: seq<byte>, cap: usize, found: Option<usize>): (o: Outcome<usize, HttpError>)
    ensures |o.rest| <= |s|
    decreases |s|
  {
    var read := TextLine(s, cap);
    match read.result
    case Err(e) => Outcome(Err(e), read.rest)
    case Ok(None) => Outcome(Err(HeadersEnded), read.rest)
    case Ok(Some(line)) =>
      if line == BLANK then Outcome(if found.None? then Err(MissingLength) else Ok(found.value), read.rest)
      else
        match LengthHeader(line, cap)
        case None => Headers(read.rest, cap, found)
        case Some(Err(e)) => Outcome(Err(e), read.rest)
        case Some(Ok(n)) => Headers(read.rest, cap, Some(n))
  }

  function Body(s: seq<byte>, cap: usize): (o: Outcome<seq<byte>, HttpError>)
    ensures |o.rest| <= |s|
  {
    var head := Headers(s, cap, None);
    match head.result
    case Err(e) => Outcome(Err(e), head.rest)
    case Ok(n) =>
      if n <= |head.rest| then Outcome(Ok(head.rest[..n]), head.rest[n..]) else Outcome(Err(BodyEnded), [])
  }

  /** Blank lines before a request are skipped. */
  function RequestOf(s: seq<byte>, cap: usize): (o: Outcome<Option<HttpRequest>, HttpError>)
    ensures |o.rest| <= |s|
    ensures o.result.Ok? && o.result.value.Some? ==> |o.rest| < |s|
    decreases |s|
  {
    var read := TextLine(s, cap);
    match read.result
    case Err(e) => Outcome(Err(e), read.rest)
    case Ok(None) => Outcome(Ok(None), read.rest)
    case Ok(Some(line)) => if line == BLANK then RequestOf(read.rest, cap) else RequestAfter(line, read.rest, cap)
  }

  function RequestAfter(line: string, s: seq<byte>, cap: usize): (o: Outcome<Option<HttpRequest>, HttpError>)
    ensures |o.rest| <= |s|
  {
    match ParseRequestLine(line)
    case Err(e) => Outcome(Err(e), s)
    case Ok(path) =>
      var body := Body(s, cap);
      match body.result
      case Err(e) => Outcome(Err(e), body.rest)
      case Ok(bytes) => Outcome(Ok(Some(HttpRequest(path, bytes))), body.rest)
  }

  function ResponseOf(s: seq<byte>, cap: usize): Outcome<seq<byte>, HttpError> {
    var read := TextLine(s, cap);
    match read.result
    case Err(e) => Outcome(Err(e), read.rest)
    case Ok(None) => Outcome(Err(ResponseEnded), read.rest)
    case Ok(Some(line)) =>
      if "HTTP/1.1 200" <= line then Body(read.rest, cap) else Outcome(Err(BadStatus), read.rest)
  }

  // The readers.

  method ReadHttpLine(stream: ByteStream, cap: usize) returns (r: Result<Option<string>, HttpError>)
    modifies stream
    ensures Outcome(r, stream.pending) == TextLine(old(stream.pending), cap)
  {
    var read := stream.ReadLineMessageWithCap(cap);
    if read.Err? {
      return Err(LineTooLong);
    }
    if |read.value| == 0 {
      return Ok(None);
    }
    var text := Decode(read.value);
    r := if text.None? then Err(NotUtf8) else Ok(text);
  }

  method ReadHeaders(stream: ByteStream, cap: usize) returns (r: Result<usize, HttpError>)
    modifies stream
    ensures Outcome(r, stream.pending) == Headers(old(stream.pending), cap, None)
  {
    var contentLength: Option<usize> := None;
    while true
      invariant Headers(stream.pending, cap, contentLength) == Headers(old(stream.pending), cap, None)
      decreases |stream.pending|
    {
      var line := ReadHttpLine(stream, cap);
      if line.Err? {
        return Err(line.error);
      }
      if line.value.None? {
        return Err(HeadersEnded);
      }
      if line.value.value == BLANK {
        break;
      }
      var length := LengthHeader(line.value.value, cap);
      if length.Some? {
        if length.value.Err? {
          return Err(length.value.error);
        }
        contentLength := Some(length.value.value);
      }
    }
    r := if contentLength.None? then Err(MissingLength) else Ok(contentLength.value);
  }

  method ReadBody(stream: ByteStream, cap: usize) returns (r: Result<seq<byte>, HttpError>)
    modifies stream
    ensures Outcome(r, stream.pending) == Body(old(stream.pending), cap)
  {
    var length := ReadHeaders(stream, cap);
    if length.Err? {
      return Err(length.error);
    }
    var body := stream.ReadExact(length.value);
    r := if body.Err? then Err(BodyEnded) else Ok(body.value);
  }

  method ReadHttpRequest(stream: ByteStream, cap: usize) returns (r: Result<Option<HttpRequest>, HttpError>)
    modifies stream
    ensures Outcome(r, stream.pending) == RequestOf(old(stream.pending), cap)
  {
    var requestLine := BLANK;
    while requestLine == BLANK
      invariant if requestLine == BLANK then RequestOf(stream.pending, cap) == RequestOf(old(stream.pending), cap)
                else RequestAfter(requestLine, stream.pending, cap) == RequestOf(old(stream.pending), cap)
      decreases requestLine == BLANK, |stream.pending|
    {
      var line := ReadHttpLine(stream, cap);
      if line.Err? {
        return Err(line.error);
      }
      if line.value.None? {
        return Ok(None);
      }
      requestLine := line.value.value;
    }
    var path := ParseRequestLine(requestLine);
    if path.Err? {
      return Err(path.error);
    }
    var body := ReadBody(stream, cap);
    r := if body.Err? then Err(body.error) else Ok(Some(HttpRequest(path.value, body.value)));
  }

  method ReadHttpResponse(stream: ByteStream, cap: usize) returns (r: Result<seq<byte>, HttpError>)
    modifies stream
    ensures Outcome(r, stream.pending) == ResponseOf(old(stream.pending), cap)
  {
    var status := ReadHttpLine(stream, cap);
    if status.Err? {
      return Err(status.error);
    }
    if status.value.None? {
      return Err(ResponseEnded);
    }
    if !("HTTP/1.1 200" <= status.value.value) {
      return Err(BadStatus);
    }
    r := ReadBody(stream, cap);
  }

  // What the writers print.

  function RequestHead(path: string, host: string, length: nat): string {
    RequestLine(path) + (HostLine(host) + SharedHead(length))
  }

  function SharedHead(length: nat): string {
    KEEP_ALIVE + (CONTENT_TYPE + (LengthLine(length) + BLANK))
  }

  function RequestBytes(path: string, host: string, body: seq<byte>): seq<byte> {
    Encode(RequestHead(path, host, |body|)) + body
  }

  function ResponseBytes(body: seq<byte>): seq<byte> {
    Encode(STATUS_LINE + SharedHead(|body|)) + body
  }

  // Reading back.

  predicate IsLine(t: string) {
    t != "" && t[|t| - 1] == '\n' && '\n' !in t[..|t| - 1]
  }

  predicate LineFits(t: string, cap: nat) {
    IsLine(t) && |Encode(t)| <= cap
  }

  lemma {:induction false} LineEndAt(line: seq<byte>, rest: seq<byte>)
    requires LF !in line
    ensures LineEnd(line + ([LF] + rest)) == |line|
  {
    if line == [] {
      assert line + ([LF] + rest) == [LF] + rest;
    } else {
      assert (line + ([LF] + rest))[1..] == line[1..] + ([LF] + rest);
      LineEndAt(line[1..], rest);
    }
  }

  lemma LineBytes(t: string) returns (line: seq<byte>)
    requires IsLine(t)
    ensures LF !in line && Encode(t) == line + [LF]
  {
    var front := t[..|t| - 1];
    line := Encode(front);
    assert t == front + ['\n'] && Encode(['\n']) == [LF];
    EncodeConcat(front, ['\n']);
    EncodeLineFeed(front);
  }

  lemma LineReads(t: string, rest: seq<byte>, cap: usize)
    requires LineFits(t, cap) && cap < U64_MAX
    ensures TextLine(Encode(t) + rest, cap) == Outcome(Ok(Some(t)), rest)
  {
    var line := LineBytes(t);
    LineEndAt(line, rest);
    CappedLineIs(line + ([LF] + rest), |line| + 1, cap);
    CutLine(line, rest);
    Regroup(line, [LF], rest);
    EncodeDecodes(t);
  }

  lemma CappedLineIs(s: seq<byte>, n: nat, cap: usize)
    requires n == LineEnd(s) + 1 <= |s| && n <= cap < U64_MAX
    ensures CappedLine(s, cap) == Outcome(Ok(s[..n]), s[n..])
  {
  }

  lemma CutLine(line: seq<byte>, rest: seq<byte>)
    ensures (line + ([LF] + rest))[..|line| + 1] == line + [LF]
    ensures (line + ([LF] + rest))[|line| + 1..] == rest
  {
  }

  lemma HeaderReads(t: string, rest: seq<byte>, cap: usize, found: Option<usize>)
    requires LineFits(t, cap) && cap < U64_MAX && t != BLANK
    ensures LengthHeader(t, cap) == None ==> Headers(Encode(t) + rest, cap, found) == Headers(rest, cap, found)
    ensures LengthHeader(t, cap).Some? && LengthHeader(t, cap).value.Ok? ==>
              Headers(Encode(t) + rest, cap, found) == Headers(rest, cap, Some(LengthHeader(t, cap).value.value))
  {
    LineReads(t, rest, cap);
  }

  lemma EncodeTwo(a: string, b: string, rest: seq<byte>)
    ensures Encode(a + b) + rest == Encode(a) + (Encode(b) + rest)
  {
    EncodeConcat(a, b);
    Regroup(Encode(a), Encode(b), rest);
  }

  /** Room for the longest fixed header line. */
  predicate CapFits(cap: usize) { |CONTENT_TYPE| <= cap < U64_MAX }

  predicate Ascii(t: string) {
    forall i :: 0 <= i < |t| ==> t[i] < (0x80 as char)
  }

  predicate PlainLine(t: string, cap: nat) {
    IsLine(t) && Ascii(t) && |t| <= cap
  }

  lemma {:induction false} AsciiLength(t: string)
    requires Ascii(t)
    ensures |Encode(t)| == |t|
  {
    if t != "" { AsciiLength(t[1..]); }
  }

  lemma PlainLineFits(t: string, cap: nat)
    requires PlainLine(t, cap)
    ensures LineFits(t, cap)
  {
    AsciiLength(t);
  }

  lemma LengthLineIsPlain(n: usize, cap: usize)
    requires CapFits(cap) && n <= cap
    ensures PlainLine(LengthLine(n), cap)
  {
    DecimalLength(n);
    var digits := ToDecimal(n);
    assert LengthLine(n)[..|LengthLine(n)| - 1] == "Content-Length: " + digits + "\r";
  }

  lemma LengthReads(n: usize, after: seq<byte>, cap: usize)
    requires CapFits(cap) && n <= cap
    ensures Headers(Encode(LengthLine(n) + BLANK) + after, cap, None) == Outcome(Ok(n), after)
  {
    LengthLineIsPlain(n, cap);
    PlainLineFits(LengthLine(n), cap);
    PlainLineFits(BLANK, cap);
    EncodeTwo(LengthLine(n), BLANK, after);
    LengthLineParses(n, cap);
    HeaderReads(LengthLine(n), Encode(BLANK) + after, cap, None);
    LineReads(BLANK, after, cap);
  }

  lemma HeaderSkipped(t: string, shared: string, after: seq<byte>, cap: usize)
    requires PlainLine(t, cap) && cap < U64_MAX && t != BLANK && LengthHeader(t, cap) == None
    ensures Headers(Encode(t + shared) + after, cap, None) == Headers(Encode(shared) + after, cap, None)
  {
    PlainLineFits(t, cap);
    EncodeTwo(t, shared, after);
    HeaderReads(t, Encode(shared) + after, cap, None);
  }

  lemma KeepAliveSkipped(shared: string, after: seq<byte>, cap: usize)
    requires CapFits(cap)
    ensures Headers(Encode(KEEP_ALIVE + shared) + after, cap, None) == Headers(Encode(shared) + after, cap, None)
  {
    var name, value := "Connection", " keep-alive\r\n";
    OtherHeader(name, value, cap);
    HeaderSkipped(name + ":" + value, shared, after, cap);
  }

  lemma ContentTypeSkipped(shared: string, after: seq<byte>, cap: usize)
    requires CapFits(cap)
    ensures Headers(Encode(CONTENT_TYPE + shared) + after, cap, None) == Headers(Encode(shared) + after, cap, None)
  {
    var name, value := "Content-Type", " application/json\r\n";
    OtherHeader(name, value, cap);
    HeaderSkipped(name + ":" + value, shared, after, cap);
  }

  lemma SharedHeadReads(body: seq<byte>, rest: seq<byte>, cap: usize)
    requires CapFits(cap) && |body| <= cap
    ensures Headers(Encode(SharedHead(|body|)) + (body + rest), cap, None) == Outcome(Ok(|body|), body + rest)
  {
    var after, last := body + rest, LengthLine(|body|) + BLANK;
    KeepAliveSkipped(CONTENT_TYPE + last, after, cap);
    ContentTypeSkipped(last, after, cap);
    LengthReads(|body|, after, cap);
  }

  lemma HostPassed(host: string, cap: usize)
    ensures LengthHeader(HostLine(host), cap) == None
  {
    OtherHeader("Host", " " + host + "\r\n", cap);
    assert HostLine(host) == "Host" + ":" + (" " + host + "\r\n");
  }

  lemma BodyReads(s: seq<byte>, body: seq<byte>, rest: seq<byte>, cap: usize)
    requires Headers(s, cap, None) == Outcome(Ok(|body|), body + rest)
    ensures Body(s, cap) == Outcome(Ok(body), rest)
  {
    assert (body + rest)[..|body|] == body && (body + rest)[|body|..] == rest;
  }

  predicate RequestFits(path: string, host: string, body: seq<byte>, cap: usize) {
    && CapFits(cap) && |body| <= cap && '\n' !in host
    && |Encode(RequestLine(path))| <= cap && |Encode(HostLine(host))| <= cap
  }

  lemma HeadReads(line: string, header: string, shared: string, body: seq<byte>, rest: seq<byte>, cap: usize)
    requires cap < U64_MAX && LineFits(line, cap) && LineFits(header, cap) && line != BLANK && header != BLANK
    requires LengthHeader(header, cap) == None
    requires Headers(Encode(shared) + (body + rest), cap, None) == Outcome(Ok(|body|), body + rest)
    ensures var read := RequestOf(Encode(line + (header + shared)) + body + rest, cap);
            match ParseRequestLine(line)
            case Ok(path) => read == Outcome(Ok(Some(HttpRequest(path, body))), rest)
            case Err(e) => read.result == Err(e)
  {
    var after := body + rest;
    var s := Encode(shared) + after;
    Regroup(Encode(line + (header + shared)), body, rest);
    EncodeTwo(line, header + shared, after);
    EncodeTwo(header, shared, after);
    LineReads(line, Encode(header) + s, cap);
    HeaderReads(header, s, cap, None);
    BodyReads(Encode(header) + s, body, rest, cap);
  }

  lemma {:induction false} PathsAreWords(s: seq<byte>, cap: usize)
    ensures var r := RequestOf(s, cap).result; r.Ok? && r.value.Some? ==> IsWord(r.value.value.path)
    decreases |s|
  {
    var read := TextLine(s, cap);
    if read.result == Ok(Some(BLANK)) { PathsAreWords(read.rest, cap); }
  }

  lemma LinesAreLines(path: string, host: string)
    requires '\n' !in path && '\n' !in host
    ensures IsLine(RequestLine(path)) && IsLine(HostLine(host))
  {
    assert RequestLine(path)[..|RequestLine(path)| - 1] == "POST " + path + " HTTP/1.1\r";
    assert HostLine(host)[..|HostLine(host)| - 1] == "Host: " + host + "\r";
  }

  /** One request, followed by anything: it is read back with its path and body,
      consuming exactly its bytes, if and only if the path is one word. */
  lemma RequestRoundTripIff(path: string, host: string, body: seq<byte>, rest: seq<byte>, cap: usize)
    requires RequestFits(path, host, body, cap)
    ensures RequestOf(RequestBytes(path, host, body) + rest, cap) == Outcome(Ok(Some(HttpRequest(path, body))), rest)
            <==> IsWord(path)
  {
    PathsAreWords(RequestBytes(path, host, body) + rest, cap);
    if IsWord(path) {
      assert '\n' !in path;
      LinesAreLines(path, host);
      HostPassed(host, cap);
      SharedHeadReads(body, rest, cap);
      NotBlank(path, host);
      HeadReads(RequestLine(path), HostLine(host), SharedHead(|body|), body, rest, cap);
      RequestLineIff(path);
    }
  }

  lemma NotBlank(path: string, host: string)
    ensures RequestLine(path) != BLANK && HostLine(host) != BLANK
  {
    assert RequestLine(path)[0] == 'P' && HostLine(host)[0] == 'H' && BLANK[0] == '\r';
  }

  lemma ResponseReads(line: string, shared: string, body: seq<byte>, rest: seq<byte>, cap: usize)
    requires cap < U64_MAX && PlainLine(line, cap) && "HTTP/1.1 200" <= line
    requires Headers(Encode(shared) + (body + rest), cap, None) == Outcome(Ok(|body|), body + rest)
    ensures ResponseOf(Encode(line + shared) + body + rest, cap) == Outcome(Ok(body), rest)
  {
    var after := body + rest;
    PlainLineFits(line, cap);
    Regroup(Encode(line + shared), body, rest);
    EncodeTwo(line, shared, after);
    LineReads(line, Encode(shared) + after, cap);
    BodyReads(Encode(shared) + after, body, rest, cap);
  }

  lemma StatusLineIsPlain(cap: usize)
    requires CapFits(cap)
    ensures PlainLine(STATUS_LINE, cap) && "HTTP/1.1 200" <= STATUS_LINE
  {
  }

  lemma ResponseRoundTrip(body: seq<byte>, rest: seq<byte>, cap: usize)
    requires CapFits(cap) && |body| <= cap
    ensures ResponseOf(ResponseBytes(body) + rest, cap) == Outcome(Ok(body), rest)
  {
    StatusLineIsPlain(cap);
    SharedHeadReads(body, rest, cap);
    ResponseReads(STATUS_LINE, SharedHead(|body|), body, rest, cap);
  }

  // Keep-alive: many messages on one connection.

  datatype Sent = Sent(path: string, host: string, body: seq<byte>)

  function WriteRequests(sent: seq<Sent>): seq<byte> {
    if sent == [] then []
    else RequestBytes(sent[0].path, sent[0].host, sent[0].body) + WriteRequests(sent[1..])
  }

  /** Reading requests until the stream ends. */
  function ReadRequests(s: seq<byte>, cap: usize): Result<seq<HttpRequest>, HttpError>
    decreases |s|
  {
    var read := RequestOf(s, cap);
    match read.result
    case Err(e) => Err(e)
    case Ok(None) => Ok([])
    case Ok(Some(request)) =>
      match ReadRequests(read.rest, cap)
      case Err(e) => Err(e)
      case Ok(more) => Ok([request] + more)
  }

  function Received(sent: seq<Sent>): seq<HttpRequest> {
    if sent == [] then [] else [HttpRequest(sent[0].path, sent[0].body)] + Received(sent[1..])
  }

  lemma ReadOne(s: seq<byte>, request: HttpRequest, rest: seq<byte>, more: seq<HttpRequest>, cap: usize)
    requires RequestOf(s, cap) == Outcome(Ok(Some(request)), rest)
    requires ReadRequests(rest, cap) == Ok(more)
    ensures ReadRequests(s, cap) == Ok([request] + more)
  {
  }

  lemma OneMore(r: Sent, rest: seq<byte>, more: seq<HttpRequest>, cap: usize)
    requires IsWord(r.path) && RequestFits(r.path, r.host, r.body, cap)
    requires ReadRequests(rest, cap) == Ok(more)
    ensures ReadRequests(RequestBytes(r.path, r.host, r.body) + rest, cap) == Ok([HttpRequest(r.path, r.body)] + more)
  {
    RequestRoundTripIff(r.path, r.host, r.body, rest, cap);
    ReadOne(RequestBytes(r.path, r.host, r.body) + rest, HttpRequest(r.path, r.body), rest, more, cap);
  }

  /** Requests written back to back are read back as the same list. */
  lemma {:induction false} RequestsRoundTrip(sent: seq<Sent>, cap: usize)
    requires forall r :: r in sent ==> IsWord(r.path) && RequestFits(r.path, r.host, r.body, cap)
    ensures ReadRequests(WriteRequests(sent), cap) == Ok(Received(sent))
    decreases |sent|
  {
    if sent == [] {
      NothingLeft(cap);
    } else {
      var r := sent[0];
      assert r in sent;
      RequestsRoundTrip(sent[1..], cap);
      OneMore(r, WriteRequests(sent[1..]), Received(sent[1..]), cap);
    }
  }

  lemma {:induction false} ReadPathsAreWords(s: seq<byte>, cap: usize, request: HttpRequest)
    requires ReadRequests(s, cap).Ok? && request in ReadRequests(s, cap).value
    ensures IsWord(request.path)
    decreases |s|
  {
    var read := RequestOf(s, cap);
    PathsAreWords(s, cap);
    if request != read.result.value.value {
      ReadPathsAreWords(read.rest, cap, request);
    }
  }

  lemma {:induction false} ReceivedHas(sent: seq<Sent>, r: Sent)
    requires r in sent
    ensures HttpRequest(r.path, r.body) in Received(sent)
  {
    if r != sent[0] { ReceivedHas(sent[1..], r); }
  }

  /** Requests written back to back are read back as the same list if and only
      if every path is one word. */
  lemma RequestsRoundTripIff(sent: seq<Sent>, cap: usize)
    requires forall r :: r in sent ==> RequestFits(r.path, r.host, r.body, cap)
    ensures ReadRequests(WriteRequests(sent), cap) == Ok(Received(sent)) <==> forall r :: r in sent ==> IsWord(r.path)
  {
    if forall r :: r in sent ==> IsWord(r.path) {
      RequestsRoundTrip(sent, cap);
    } else if ReadRequests(WriteRequests(sent), cap) == Ok(Received(sent)) {
      var r :| r in sent && !IsWord(r.path);
      ReceivedHas(sent, r);
      ReadPathsAreWords(WriteRequests(sent), cap, HttpRequest(r.path, r.body));
      assert false;
    }
  }

  lemma NothingLeft(cap: usize)
    ensures ReadRequests([], cap) == Ok([])
  {
    assert TextLine([], cap) == Outcome(Ok(None), []);
  }

  /** Responses back to back, then whatever follows them. */
  function WriteResponses(bodies: seq<seq<byte>>, after: seq<byte>): seq<byte> {
    if bodies == [] then after else ResponseBytes(bodies[0]) + WriteResponses(bodies[1..], after)
  }

  function ReadResponses(s: seq<byte>, count: nat, cap: usize): Outcome<seq<seq<byte>>, HttpError>
    decreases count
  {
    if count == 0 then Outcome(Ok([]), s)
    else
      var read := ResponseOf(s, cap);
      match read.result
      case Err(e) => Outcome(Err(e), read.rest)
      case Ok(body) => Prepend(body, ReadResponses(read.rest, count - 1, cap))
  }

  function Prepend(body: seq<byte>, more: Outcome<seq<seq<byte>>, HttpError>): Outcome<seq<seq<byte>>, HttpError> {
    match more.result
    case Err(e) => more
    case Ok(bodies) => Outcome(Ok([body] + bodies), more.rest)
  }

  lemma OneMoreResponse(body: seq<byte>, bodies: seq<seq<byte>>, bytes: seq<byte>, after: seq<byte>, cap: usize)
    requires CapFits(cap) && |body| <= cap
    requires ReadResponses(bytes, |bodies|, cap) == Outcome(Ok(bodies), after)
    ensures ReadResponses(ResponseBytes(body) + bytes, |bodies| + 1, cap) == Outcome(Ok([body] + bodies), after)
  {
    ResponseRoundTrip(body, bytes, cap);
  }

  /** 200 responses written back to back are read back as the same bodies,
      leaving exactly what follows them. */
  lemma {:induction false} ResponsesRoundTrip(bodies: seq<seq<byte>>, after: seq<byte>, cap: usize)
    requires CapFits(cap) && forall body :: body in bodies ==> |body| <= cap
    ensures ReadResponses(WriteResponses(bodies, after), |bodies|, cap) == Outcome(Ok(bodies), after)
    decreases |bodies|
  {
    if bodies != [] {
      var rest := bodies[1..];
      assert bodies[0] in bodies && forall body :: body in rest ==> body in bodies;
      ResponsesRoundTrip(rest, after, cap);
      OneMoreResponse(bodies[0], rest, WriteResponses(rest, after), after, cap);
      HeadTail(bodies);
    }
  }
}
