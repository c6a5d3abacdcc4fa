/** UTF-8 as Rust's `String::from_utf8` and `as_bytes` see it (RFC 3629). */
module Utf8 {
  import opened Basics
  import opened Lines

  function EncodeChar(c: char): (b: seq<byte>)
    ensures 1 <= |b| <= 4
  {
    var n := c as int;
    if n < 0x80 then [n]
    else if n < 0x800 then [0xC0 + n / 0x40, 0x80 + n % 0x40]
    else if n < 0x10000 then [0xE0 + n / 0x1000, 0x80 + n / 0x40 % 0x40, 0x80 + n % 0x40]
    else [0xF0 + n / 0x40000, 0x80 + n / 0x1000 % 0x40, 0x80 + n / 0x40 % 0x40, 0x80 + n % 0x40]
  }

  function Encode(s: string): seq<byte> {
    if s == [] then [] else EncodeChar(s[0]) + Encode(s[1..])
  }

  predicate Continues(b: seq<byte>, k: nat) {
    k < |b| && 0x80 <= b[k] < 0xC0
  }

  /** The scalar value at the front: shortest form only, no surrogates, at most U+10FFFF. */
  function DecodeFirst(b: seq<byte>): Option<char> {
    if b == [] then None
    else
      var lead: int := b[0];
      if lead < 0x80 then Some(lead as char)
      else if 0xC2 <= lead < 0xE0 && Continues(b, 1) then
        Some(Two(lead - 0xC0, Low(b, 1)) as char)
      else if 0xE0 <= lead < 0xF0 && Continues(b, 1) && Continues(b, 2) then
        var n := Three(lead - 0xE0, Low(b, 1), Low(b, 2));
        if n < 0x800 || 0xD800 <= n < 0xE000 then None else Some(n as char)
      else if 0xF0 <= lead < 0xF8 && Continues(b, 1) && Continues(b, 2) && Continues(b, 3) then
        var n := Four(lead - 0xF0, Low(b, 1), Low(b, 2), Low(b, 3));
        if n < 0x10000 || n > 0x10FFFF then None else Some(n as char)
      else None
  }

  /** The six low bits of a continuation byte. */
  function Low(b: seq<byte>, k: nat): (n: nat)
    requires Continues(b, k)
    ensures n < 0x40
  {
    var low: int := b[k];
    low - 0x80
  }

  function Two(a: nat, b: nat): nat { a * 0x40 + b }

  function Three(a: nat, b: nat, c: nat): nat { a * 0x1000 + b * 0x40 + c }

  function Four(a: nat, b: nat, c: nat, d: nat): nat { a * 0x40000 + b * 0x1000 + c * 0x40 + d }

  lemma TwoDigits(a: nat, b: nat)
    requires b < 0x40
    ensures Two(a, b) / 0x40 == a && Two(a, b) % 0x40 == b
  {
  }

  lemma ThreeDigits(a: nat, b: nat, c: nat)
    requires b < 0x40 && c < 0x40
    ensures Three(a, b, c) / 0x1000 == a && Three(a, b, c) / 0x40 % 0x40 == b && Three(a, b, c) % 0x40 == c
  {
    TwoDigits(Two(a, b), c);
    TwoDigits(a, b);
  }

  lemma FourDigits(a: nat, b: nat, c: nat, d: nat)
    requires b < 0x40 && c < 0x40 && d < 0x40
    ensures Four(a, b, c, d) / 0x40000 == a && Four(a, b, c, d) / 0x1000 % 0x40 == b
    ensures Four(a, b, c, d) / 0x40 % 0x40 == c && Four(a, b, c, d) % 0x40 == d
  {
    TwoDigits(Three(a, b, c), d);
    ThreeDigits(a, b, c);
  }

  function Decode(b: seq<byte>): Option<string>
    decreases |b|
  {
    if b == [] then Some("")
    else
      match DecodeFirst(b)
      case None => None
      case Some(c) =>
        var k := |EncodeChar(c)|;
        if k > |b| then None
        else
          match Decode(b[k..])
          case None => None
          case Some(s) => Some([c] + s)
  }

  lemma SplitThree(n: nat)
    ensures n == Three(n / 0x1000, n / 0x40 % 0x40, n % 0x40)
  {
    assert n / 0x1000 == n / 0x40 / 0x40;
  }

  lemma SplitFour(n: nat)
    ensures n == Four(n / 0x40000, n / 0x1000 % 0x40, n / 0x40 % 0x40, n % 0x40)
  {
    SplitThree(n / 0x40);
    assert n / 0x40000 == n / 0x40 / 0x1000;
    assert n / 0x1000 == n / 0x40 / 0x40;
  }

  lemma FirstDecodes(c: char, rest: seq<byte>)
    ensures DecodeFirst(EncodeChar(c) + rest) == Some(c)
  {
    var n := c as int;
    if n < 0x80 {
    } else if n < 0x800 {
      TwoByteDecodes(c, rest);
    } else if n < 0x10000 {
      ThreeByteDecodes(c, rest);
    } else {
      FourByteDecodes(c, rest);
    }
  }

  lemma TwoByteDecodes(c: char, rest: seq<byte>)
    requires 0x80 <= c as int < 0x800
    ensures DecodeFirst(EncodeChar(c) + rest) == Some(c)
  {
    var n := c as int;
    DecodesTwo(n / 0x40, n % 0x40, rest);
  }

  lemma ThreeByteDecodes(c: char, rest: seq<byte>)
    requires 0x800 <= c as int < 0x10000
    ensures DecodeFirst(EncodeChar(c) + rest) == Some(c)
  {
    var n := c as int;
    SplitThree(n);
    DecodesThree(n / 0x1000, n / 0x40 % 0x40, n % 0x40, rest);
  }

  lemma FourByteDecodes(c: char, rest: seq<byte>)
    requires 0x10000 <= c as int
    ensures DecodeFirst(EncodeChar(c) + rest) == Some(c)
  {
    var n := c as int;
    SplitFour(n);
    DecodesFour(n / 0x40000, n / 0x1000 % 0x40, n / 0x40 % 0x40, n % 0x40, rest);
  }

  lemma DecodesTwo(x: nat, y: nat, rest: seq<byte>)
    requires 2 <= x < 0x20 && y < 0x40
    ensures DecodeFirst([0xC0 + x, 0x80 + y] + rest) == Some(Two(x, y) as char)
  {
    var b := [0xC0 + x, 0x80 + y] + rest;
    assert Continues(b, 1) && Low(b, 1) == y;
  }

  lemma DecodesThree(x: nat, y: nat, z: nat, rest: seq<byte>)
    requires x < 0x10 && y < 0x40 && z < 0x40 && 0x800 <= Three(x, y, z) && !(0xD800 <= Three(x, y, z) < 0xE000)
    ensures DecodeFirst([0xE0 + x, 0x80 + y, 0x80 + z] + rest) == Some(Three(x, y, z) as char)
  {
    var b := [0xE0 + x, 0x80 + y, 0x80 + z] + rest;
    assert Continues(b, 1) && Continues(b, 2) && Low(b, 1) == y && Low(b, 2) == z;
  }

  lemma DecodesFour(x: nat, y: nat, z: nat, w: nat, rest: seq<byte>)
    requires x < 8 && y < 0x40 && z < 0x40 && w < 0x40 && 0x10000 <= Four(x, y, z, w) <= 0x10FFFF
    ensures DecodeFirst([0xF0 + x, 0x80 + y, 0x80 + z, 0x80 + w] + rest) == Some(Four(x, y, z, w) as char)
  {
    var b := [0xF0 + x, 0x80 + y, 0x80 + z, 0x80 + w] + rest;
    assert Continues(b, 1) && Continues(b, 2) && Continues(b, 3);
    assert Low(b, 1) == y && Low(b, 2) == z && Low(b, 3) == w;
  }

  lemma FirstEncodes(b: seq<byte>)
    requires DecodeFirst(b).Some?
    ensures EncodeChar(DecodeFirst(b).value) <= b
  {
    var lead: int := b[0];
    if 0xC2 <= lead < 0xE0 {
      TwoDigits(lead - 0xC0, Low(b, 1));
    } else if 0xE0 <= lead < 0xF0 {
      ThreeDigits(lead - 0xE0, Low(b, 1), Low(b, 2));
    } else if 0xF0 <= lead < 0xF8 {
      FourDigits(lead - 0xF0, Low(b, 1), Low(b, 2), Low(b, 3));
    }
  }

  lemma {:induction false} EncodeDecodes(s: string)
    ensures Decode(Encode(s)) == Some(s)
  {
    if s != [] {
      var head, rest := EncodeChar(s[0]), Encode(s[1..]);
      FirstDecodes(s[0], rest);
      assert (head + rest)[|head|..] == rest;
      EncodeDecodes(s[1..]);
      assert [s[0]] + s[1..] == s;
    }
  }

  lemma EncodeCons(c: char, s: string, head: seq<byte>, rest: seq<byte>)
    requires EncodeChar(c) == head && Encode(s) == rest
    ensures Encode([c] + s) == head + rest
  {
    assert ([c] + s)[1..] == s;
  }

  lemma {:induction false} DecodeEncodes(b: seq<byte>)
    requires Decode(b).Some?
    ensures Encode(Decode(b).value) == b
    decreases |b|
  {
    if b != [] {
      var c := DecodeFirst(b).value;
      var head := EncodeChar(c);
      var rest := b[|head|..];
      FirstEncodes(b);
      DecodeEncodes(rest);
      EncodeCons(c, Decode(rest).value, head, rest);
      assert head + rest == b;
    }
  }

  /** Decoding accepts exactly the encodings, each as the text it encodes. */
  lemma DecodeIff(b: seq<byte>, s: string)
    ensures Decode(b) == Some(s) <==> b == Encode(s)
  {
    EncodeDecodes(s);
    if Decode(b).Some? { DecodeEncodes(b); }
  }

  lemma {:induction false} EncodeConcat(s: string, t: string)
    ensures Encode(s + t) == Encode(s) + Encode(t)
  {
    if s == [] {
      assert s + t == t;
    } else {
      assert (s + t)[1..] == s[1..] + t;
      EncodeConcat(s[1..], t);
      Regroup(EncodeChar(s[0]), Encode(s[1..]), Encode(t));
    }
  }

  lemma {:induction false} EncodeLineFeed(s: string)
    ensures LF in Encode(s) <==> '\n' in s
  {
    if s != [] {
      EncodeLineFeed(s[1..]);
      assert s == [s[0]] + s[1..];
    }
  }

  /** RFC 3629, section 3: the length by range, and the bits by place. */
  lemma EncodingBits(c: char)
    ensures var n, b := c as int, EncodeChar(c);
            && (|b| == 1 <==> n < 0x80) && (|b| == 2 <==> 0x80 <= n < 0x800)
            && (|b| == 3 <==> 0x800 <= n < 0x10000) && (|b| == 4 <==> 0x10000 <= n)
            && (forall i :: 0 < i < |b| ==> 0x80 <= b[i] < 0xC0)
            && n == match |b|
                    case 1 => b[0] as int
                    case 2 => (b[0] as int - 0xC0) * 0x40 + (b[1] as int - 0x80)
                    case 3 => (b[0] as int - 0xE0) * 0x1000 + (b[1] as int - 0x80) * 0x40 + (b[2] as int - 0x80)
                    case _ =>
                      (b[0] as int - 0xF0) * 0x40000 + (b[1] as int - 0x80) * 0x1000 + (b[2] as int - 0x80) * 0x40
                      + (b[3] as int - 0x80)
  {
    if 0x800 <= c as int < 0x10000 {
      SplitThree(c as int);
    } else if 0x10000 <= c as int {
      SplitFour(c as int);
    }
  }
}
