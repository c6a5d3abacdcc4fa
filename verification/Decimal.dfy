/** Decimal text: printing, and the two integer parsers the repository calls. */
module Decimal {
  import opened Basics

  predicate IsDigit(c: char) { '0' <= c <= '9' }

  function DigitChar(n: nat): (c: char)
    requires n < 10
    ensures IsDigit(c) && c as int - '0' as int == n
  {
    ('0' as int + n) as char
  }

  /** What `{d}` (Zig) and `{}` (Rust) print for an unsigned integer. */
  function ToDecimal(n: nat): (s: string)
    ensures s != [] && forall i :: 0 <= i < |s| ==> IsDigit(s[i])
  {
    if n < 10 then [DigitChar(n)] else ToDecimal(n / 10) + [DigitChar(n % 10)]
  }

  /** Left-to-right accumulation with an overflow check at every digit;
      `skip` says whether an underscore is passed over. */
  function Accumulate(s: string, acc: nat, skip: bool): (r: Option<nat>)
    decreases |s|
  {
    if s == [] then Some(acc)
    else if skip && s[0] == '_' then Accumulate(s[1..], acc, skip)
    else if !IsDigit(s[0]) then None
    else
      var v := acc * 10 + (s[0] as int - '0' as int);
      if v > U64_MAX then None else Accumulate(s[1..], v, skip)
  }

  predicate AllZeros(s: string) {
    forall i :: 0 <= i < |s| ==> s[i] == '0' || s[i] == '_'
  }

  /** Zig's `std.fmt.parseInt(u64, s, 10)`: one optional sign, underscores
      inside the digits, and only zeros after a minus sign. */
  function ZigParseU64(s: string): Option<nat> {
    if s == [] then None
    else
      var body := if s[0] == '+' || s[0] == '-' then s[1..] else s;
      if body == [] || body[0] == '_' || body[|body| - 1] == '_' then None
      else if s[0] == '-' then (if AllZeros(body) then Some(0) else None)
      else Accumulate(body, 0, true)
  }

  /** Rust's `str::parse::<usize>`: an optional plus sign and digits only. */
  function RustParseUsize(s: string): Option<nat> {
    if s == [] then None
    else
      var body := if s[0] == '+' then s[1..] else s;
      if body == [] then None else Accumulate(body, 0, false)
  }

  lemma {:induction false} AccumulateConcat(s: string, t: string, acc: nat, skip: bool)
    ensures Accumulate(s + t, acc, skip) ==
            (var r := Accumulate(s, acc, skip);
             if r.None? then None else Accumulate(t, r.value, skip))
    decreases |s|
  {
    if s == [] {
      assert s + t == t;
    } else {
      assert (s + t)[1..] == s[1..] + t;
      if skip && s[0] == '_' {
        AccumulateConcat(s[1..], t, acc, skip);
      } else if IsDigit(s[0]) {
        var v := acc * 10 + (s[0] as int - '0' as int);
        if v <= U64_MAX { AccumulateConcat(s[1..], t, v, skip); }
      }
    }
  }

  lemma {:induction false} AccumulateDecimal(n: nat, skip: bool)
    ensures Accumulate(ToDecimal(n), 0, skip) == if n <= U64_MAX then Some(n) else None
  {
    if n >= 10 {
      AccumulateDecimal(n / 10, skip);
      AccumulateConcat(ToDecimal(n / 10), [DigitChar(n % 10)], 0, skip);
    }
  }

  /** Both parsers read back what was printed, and refuse what does not fit 64 bits. */
  lemma DecimalRoundTrip(n: nat)
    ensures ZigParseU64(ToDecimal(n)) == if n <= U64_MAX then Some(n) else None
    ensures RustParseUsize(ToDecimal(n)) == if n <= U64_MAX then Some(n) else None
  {
    AccumulateDecimal(n, true);
    AccumulateDecimal(n, false);
    var s := ToDecimal(n);
    assert IsDigit(s[0]) && IsDigit(s[|s| - 1]);
  }

  lemma {:induction false} AccumulateZeroIff(s: string, acc: nat)
    requires acc <= U64_MAX
    ensures Accumulate(s, acc, true) == Some(0) <==> acc == 0 && AllZeros(s)
    decreases |s|
  {
    if s != [] {
      assert s == [s[0]] + s[1..];
      assert AllZeros(s) <==> (s[0] == '0' || s[0] == '_') && AllZeros(s[1..]);
      if s[0] == '_' {
        AccumulateZeroIff(s[1..], acc);
      } else if IsDigit(s[0]) {
        var v := acc * 10 + (s[0] as int - '0' as int);
        if v <= U64_MAX { AccumulateZeroIff(s[1..], v); }
      }
    }
  }

  /** Zero is written with zeros only, after any sign. */
  lemma ZigParsesZeroIff(s: string)
    ensures ZigParseU64(s) == Some(0) <==>
            ZigParseU64(s).Some? && AllZeros(if s[0] == '+' || s[0] == '-' then s[1..] else s)
  {
    if s != [] {
      AccumulateZeroIff(if s[0] == '+' || s[0] == '-' then s[1..] else s, 0);
    }
  }

  lemma {:induction false} ToDecimalInjective(m: nat, n: nat)
    requires ToDecimal(m) == ToDecimal(n)
    ensures m == n
    decreases m
  {
    var a, b := ToDecimal(m), ToDecimal(n);
    assert a[|a| - 1] == b[|b| - 1];
    assert |a| == 1 <==> m < 10;
    assert |b| == 1 <==> n < 10;
    if m >= 10 {
      assert a[..|a| - 1] == ToDecimal(m / 10);
      assert b[..|b| - 1] == ToDecimal(n / 10);
      ToDecimalInjective(m / 10, n / 10);
    }
  }

  lemma {:induction false} DecimalLength(n: nat)
    ensures |ToDecimal(n)| <= 1 + n / 10
  {
    if n >= 10 { DecimalLength(n / 10); }
  }
}
