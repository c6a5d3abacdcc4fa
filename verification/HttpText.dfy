/** The text of HTTP/1.1 heads (tools/transport_bridge/src/main.rs): Rust's
    string operations on a request line and on headers. */
module HttpText {
  import opened Basics
  import opened Decimal

  datatype HttpError =
    | LineTooLong | NotUtf8 | BodyEnded | HeadersEnded | ResponseEnded
    | MissingMethod | MissingPath | MissingVersion | UnsupportedRequest | BadStatus
    | InvalidLength | BodyTooLong | MissingLength

  /** Unicode's White_Space property. */
  predicate IsSpace(c: char) {
    var n := c as int;
    0x09 <= n <= 0x0D || n == 0x20 || n == 0x85 || n == 0xA0 || n == 0x1680 || 0x2000 <= n <= 0x200A
    || n == 0x2028 || n == 0x2029 || n == 0x202F || n == 0x205F || n == 0x3000
  }

  predicate IsWord(s: string) {
    s != "" && forall c :: c in s ==> !IsSpace(c)
  }

  function TrimEnd(s: string): (t: string)
    ensures t <= s
  {
    if s != "" && IsSpace(s[|s| - 1]) then TrimEnd(s[..|s| - 1]) else s
  }

  function TrimStart(s: string): string {
    if s != "" && IsSpace(s[0]) then TrimStart(s[1..]) else s
  }

  function Trim(s: string): string { TrimStart(TrimEnd(s)) }

  function WordLength(s: string): (n: nat)
    ensures n <= |s| && forall c :: c in s[..n] ==> !IsSpace(c)
  {
    if s == "" || IsSpace(s[0]) then 0
    else
      var n := WordLength(s[1..]);
      assert s[..1 + n] == [s[0]] + s[1..][..n];
      1 + n
  }

  /** `split_whitespace`. */
  function Words(s: string): (w: seq<string>)
    ensures forall x :: x in w ==> IsWord(x)
  {
    if s == "" then []
    else if IsSpace(s[0]) then Words(s[1..])
    else [s[..WordLength(s)]] + Words(s[WordLength(s)..])
  }

  /** Where the first colon is, or the length when there is none. */
  function ColonAt(s: string): (i: nat)
    ensures i <= |s|
  {
    if s == "" || s[0] == ':' then 0 else 1 + ColonAt(s[1..])
  }

  function Lower(s: string): (t: string)
    ensures |t| == |s|
  {
    seq(|s|, i requires 0 <= i < |s| => if 'A' <= s[i] <= 'Z' then (s[i] as int + 32) as char else s[i])
  }

  function ParseContentLength(value: string, cap: usize): Result<usize, HttpError> {
    match RustParseUsize(value)
    case None => Err(InvalidLength)
    case Some(n) => if n > cap then Err(BodyTooLong) else Ok(n)
  }

  /** What a header line says about the length, if anything. */
  function LengthHeader(line: string, cap: usize): Option<Result<usize, HttpError>> {
    var i := ColonAt(line);
    if i < |line| && Lower(line[..i]) == "content-length" then Some(ParseContentLength(Trim(line[i + 1..]), cap))
    else None
  }

  /** The path of a request line. */
  function ParseRequestLine(line: string): (r: Result<string, HttpError>)
    ensures r.Ok? ==> IsWord(r.value)
  {
    var parts := Words(TrimEnd(line));
    if |parts| == 0 then Err(MissingMethod)
    else if |parts| == 1 then Err(MissingPath)
    else if |parts| == 2 then Err(MissingVersion)
    else if parts[0] != "POST" || !("HTTP/1.1" <= parts[2]) then Err(UnsupportedRequest)
    else Ok(parts[1])
  }

  // What the writers print.

  function RequestLine(path: string): string { "POST " + path + " HTTP/1.1\r\n" }

  function HostLine(host: string): string { "Host: " + host + "\r\n" }

  function LengthLine(n: nat): string { "Content-Length: " + ToDecimal(n) + "\r\n" }

  const STATUS_LINE := "HTTP/1.1 200" + " OK\r\n"
  const KEEP_ALIVE := "Connection" + ":" + " keep-alive\r\n"
  const CONTENT_TYPE := "Content-Type" + ":" + " application/json\r\n"
  const BLANK := "\r\n"

  lemma {:induction false} WordLengthOf(w: string, rest: string)
    requires forall c :: c in w ==> !IsSpace(c)
    requires rest == "" || IsSpace(rest[0])
    ensures WordLength(w + rest) == |w|
  {
    if w == "" {
      assert w + rest == rest;
    } else {
      assert (w + rest)[1..] == w[1..] + rest;
      WordLengthOf(w[1..], rest);
    }
  }

  lemma FirstWord(w: string, rest: string)
    requires IsWord(w) && (rest == "" || IsSpace(rest[0]))
    ensures Words(w + rest) == [w] + Words(rest)
  {
    WordLengthOf(w, rest);
    assert (w + rest)[0] == w[0] && w[0] in w;
    assert (w + rest)[..|w|] == w && (w + rest)[|w|..] == rest;
  }

  lemma TrimEndSpace(s: string, c: char)
    requires IsSpace(c)
    ensures TrimEnd(s + [c]) == TrimEnd(s)
  {
    assert (s + [c])[..|s|] == s;
  }

  lemma TrimEndLine(s: string)
    requires s != "" && !IsSpace(s[|s| - 1])
    ensures TrimEnd(s + "\r\n") == s
  {
    assert s + "\r\n" == s + "\r" + "\n";
    TrimEndSpace(s + "\r", '\n');
    TrimEndSpace(s, '\r');
  }

  lemma NextWord(w: string, rest: string)
    requires IsWord(w)
    ensures Words(w + (" " + rest)) == [w] + Words(rest)
  {
    FirstWord(w, " " + rest);
    assert (" " + rest)[1..] == rest;
  }

  lemma ThreeWords(a: string, b: string, c: string)
    requires IsWord(a) && IsWord(b) && IsWord(c)
    ensures Words(a + (" " + (b + (" " + c)))) == [a, b, c]
  {
    FirstWord(c, "");
    assert c + "" == c;
    NextWord(b, c);
    NextWord(a, b + (" " + c));
    assert [a] + ([b] + [c]) == [a, b, c];
  }

  /** A request line reads back as its path exactly when the path is one word. */
  lemma RequestLineIff(path: string)
    ensures ParseRequestLine(RequestLine(path)) == Ok(path) <==> IsWord(path)
  {
    if IsWord(path) {
      var version := "HTTP/1.1";
      var text := "POST" + (" " + (path + (" " + version)));
      assert RequestLine(path) == text + "\r\n";
      assert text[|text| - 1] == '1';
      TrimEndLine(text);
      ThreeWords("POST", path, version);
    }
  }

  lemma ColonAfter(name: string, rest: string)
    requires ':' !in name
    ensures ColonAt(name + ":" + rest) == |name|
  {
    if name == "" {
      assert name + ":" + rest == ":" + rest;
    } else {
      assert (name + ":" + rest)[1..] == name[1..] + ":" + rest;
      ColonAfter(name[1..], rest);
    }
  }

  /** A header whose name has another length is passed over. */
  lemma OtherHeader(name: string, rest: string, cap: usize)
    requires ':' !in name && |name| != |"content-length"|
    ensures LengthHeader(name + ":" + rest, cap) == None
  {
    ColonAfter(name, rest);
  }

  lemma TrimDigits(digits: string)
    requires IsWord(digits)
    ensures Trim(" " + digits + "\r\n") == digits
  {
    var text := " " + digits;
    assert digits[|digits| - 1] in digits && digits[0] in digits;
    assert text[|text| - 1] == digits[|digits| - 1];
    TrimEndLine(text);
    assert text[0] == ' ' && text[1..] == digits;
    assert TrimStart(text) == TrimStart(digits) == digits;
  }

  lemma LengthLineParses(n: usize, cap: usize)
    requires n <= cap
    ensures LengthHeader(LengthLine(n), cap) == Some(Ok(n))
  {
    var name, digits := "Content-Length", ToDecimal(n);
    var rest := " " + digits + "\r\n";
    assert LengthLine(n) == name + ":" + rest;
    ColonAfter(name, rest);
    assert (name + ":" + rest)[..|name|] == name && (name + ":" + rest)[|name| + 1..] == rest;
    assert Lower(name) == "content-length";
    TrimDigits(digits);
    DecimalRoundTrip(n);
  }

  // What is accepted.

  /** The line's end is trimmed off after a last word. */
  lemma TrimAfterWord(text: string, w: string)
    requires IsWord(w)
    ensures TrimEnd(text + w + "\r\n") == text + w
  {
    assert w[|w| - 1] in w && (text + w)[|text + w| - 1] == w[|w| - 1];
    TrimEndLine(text + w);
  }

  lemma LastWord(w: string)
    requires IsWord(w)
    ensures Words(w) == [w]
  {
    FirstWord(w, "");
    assert w + "" == w;
  }

  lemma OneWordLine(a: string)
    requires IsWord(a)
    ensures Words(TrimEnd(a + "\r\n")) == [a]
  {
    TrimAfterWord("", a);
    assert "" + a == a;
    LastWord(a);
  }

  lemma TwoWordLine(a: string, b: string)
    requires IsWord(a) && IsWord(b)
    ensures Words(TrimEnd(a + " " + b + "\r\n")) == [a, b]
  {
    TrimAfterWord(a + " ", b);
    LastWord(b);
    NextWord(a, b);
    assert a + " " + b == a + (" " + b);
  }

  lemma ThreeWordLine(a: string, b: string, c: string)
    requires IsWord(a) && IsWord(b) && IsWord(c)
    ensures Words(TrimEnd(a + " " + b + " " + c + "\r\n")) == [a, b, c]
  {
    TrimAfterWord(a + " " + b + " ", c);
    ThreeWords(a, b, c);
    FromTheRight(a, " ", b, c);
  }

  lemma FromTheRight(a: string, space: string, b: string, c: string)
    ensures a + space + b + space + c == a + (space + (b + (space + c)))
  {
  }

  /** Of three words on a request line the second is the path, if the first is
      the method and the third begins with the version; otherwise, as with fewer
      words, the line is refused. */
  lemma RequestLineExact(a: string, b: string, c: string)
    requires IsWord(a) && IsWord(b) && IsWord(c)
    ensures ParseRequestLine(a + " " + b + " " + c + "\r\n") ==
            if a == "POST" && "HTTP/1.1" <= c then Ok(b) else Err(UnsupportedRequest)
    ensures ParseRequestLine(a + " " + b + "\r\n") == Err(MissingVersion)
    ensures ParseRequestLine(a + "\r\n") == Err(MissingPath)
  {
    ThreeWordLine(a, b, c);
    TwoWordLine(a, b);
    OneWordLine(a);
  }

  /** Equal but for upper-case letters in the first. */
  predicate SameButCase(a: string, b: string) {
    && |a| == |b|
    && forall i :: 0 <= i < |a| ==> a[i] == b[i] || ('a' <= b[i] <= 'z' && a[i] as int + 32 == b[i] as int)
  }

  lemma LowerIff(name: string)
    ensures Lower(name) == "content-length" <==> SameButCase(name, "content-length")
  {
    var wanted := "content-length";
    assert forall i :: 0 <= i < |wanted| ==> 'a' <= wanted[i] <= 'z' || wanted[i] == '-';
    if SameButCase(name, wanted) {
      assert forall i :: 0 <= i < |name| ==> Lower(name)[i] == wanted[i];
    }
    if Lower(name) == wanted {
      forall i | 0 <= i < |name|
        ensures name[i] == wanted[i] || ('a' <= wanted[i] <= 'z' && name[i] as int + 32 == wanted[i] as int)
      {
        assert Lower(name)[i] == wanted[i];
      }
    }
  }

  /** A header gives the length exactly when its name is right in any case; the
      number counts up to the cap and is an error beyond. */
  lemma LengthHeaderExact(name: string, n: nat, cap: usize)
    requires ':' !in name
    ensures LengthHeader(name + ":" + (" " + ToDecimal(n) + "\r\n"), cap) ==
            if !SameButCase(name, "content-length") then None
            else Some(if n > U64_MAX then Err(InvalidLength) else if n > cap then Err(BodyTooLong) else Ok(n))
  {
    var rest := " " + ToDecimal(n) + "\r\n";
    ColonAfter(name, rest);
    assert (name + ":" + rest)[..|name|] == name && (name + ":" + rest)[|name| + 1..] == rest;
    LowerIff(name);
    TrimDigits(ToDecimal(n));
    DecimalRoundTrip(n);
  }
}
