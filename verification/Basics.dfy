/** Shared datatypes, fixed-width integer types and sequence lemmas. */
module Basics {
  datatype Option<+T> = None | Some(value: T)

  datatype Result<+T, +E> = Ok(value: T) | Err(error: E)

  const U16_MAX: int := 0xFFFF
  const U64_MAX: int := 0xFFFF_FFFF_FFFF_FFFF

  type u16 = n: int | 0 <= n <= U16_MAX

  // Zig's and Rust's `usize` on the 64-bit targets the repository supports.
  type usize = n: int | 0 <= n <= U64_MAX

  ghost predicate NoDup<T>(s: seq<T>) {
    s == [] || (s[0] !in s[1..] && NoDup(s[1..]))
  }

  lemma {:induction false} NoDupIff<T>(s: seq<T>)
    ensures NoDup(s) <==> forall i, j :: 0 <= i < j < |s| ==> s[i] != s[j]
  {
    if s != [] {
      var t := s[1..];
      NoDupIff(t);
      assert forall i :: 0 <= i < |t| ==> t[i] == s[i + 1];
      if NoDup(s) {
        forall i, j | 0 <= i < j < |s|
          ensures s[i] != s[j]
        {
          assert s[j] == t[j - 1];
        }
      }
    }
  }

  function Rev<T>(s: seq<T>): (r: seq<T>)
    ensures |r| == |s|
  {
    if s == [] then [] else Rev(s[1..]) + [s[0]]
  }

  lemma {:induction false} RevSnoc<T>(s: seq<T>, x: T)
    ensures Rev(s + [x]) == [x] + Rev(s)
  {
    if s == [] {
      assert s + [x] == [x];
    } else {
      assert (s + [x])[1..] == s[1..] + [x];
      RevSnoc(s[1..], x);
    }
  }

  lemma RevOf<T>(s: seq<T>, rest: seq<T>, top: T)
    requires s == rest + [top]
    ensures Rev(s) == [top] + Rev(rest)
    ensures Rev(s)[0] == top && Rev(s)[1..] == Rev(rest)
  {
    RevSnoc(rest, top);
  }

  lemma LastSplits<T>(s: seq<T>)
    requires s != []
    ensures s == s[..|s| - 1] + [s[|s| - 1]]
  {
  }

  /** Reading a stack from its top: the popped entry comes first. */
  lemma RevPop<T>(s: seq<T>)
    requires s != []
    ensures Rev(s) == [s[|s| - 1]] + Rev(s[..|s| - 1])
    ensures Rev(s)[0] == s[|s| - 1] && Rev(s)[1..] == Rev(s[..|s| - 1])
  {
    LastSplits(s);
    RevOf(s, s[..|s| - 1], s[|s| - 1]);
  }

  /** In a duplicate-free sequence every element has multiplicity one. */
  lemma {:induction false} NoDupCounts<T>(s: seq<T>)
    ensures NoDup(s) <==> forall x :: x in s ==> multiset(s)[x] == 1
  {
    if s != [] {
      var t := s[1..];
      assert s == [s[0]] + t;
      NoDupCounts(t);
      assert multiset(s) == multiset{s[0]} + multiset(t);
      if NoDup(s) {
        assert forall x :: x in t ==> x != s[0];
      } else if s[0] in t {
        assert s[0] in s && multiset(t)[s[0]] >= 1;
      } else {
        var x :| x in t && multiset(t)[x] != 1;
        assert x in s;
      }
    }
  }

  /** Two duplicate-free sequences with the same elements are permutations. */
  lemma SameElementsSameMultiset<T>(s: seq<T>, t: seq<T>)
    requires NoDup(s) && NoDup(t)
    requires forall x :: x in s <==> x in t
    ensures multiset(s) == multiset(t) && |s| == |t|
  {
    NoDupCounts(s);
    NoDupCounts(t);
    assert forall x :: multiset(s)[x] == if x in s then 1 else 0;
    assert forall x :: multiset(t)[x] == if x in t then 1 else 0;
    assert forall x :: multiset(s)[x] == multiset(t)[x];
    assert |multiset(s)| == |s| && |multiset(t)| == |t|;
  }

  lemma NoDupFromMultiset<T>(s: seq<T>, t: seq<T>)
    requires multiset(s) == multiset(t) && NoDup(s)
    ensures NoDup(t)
  {
    NoDupCounts(s);
    NoDupCounts(t);
    assert forall x :: x in t ==> x in multiset(s) && x in s;
  }

  lemma NoDupCons<T>(x: T, s: seq<T>)
    ensures NoDup([x] + s) <==> x !in s && NoDup(s)
  {
    assert ([x] + s)[1..] == s;
  }

  lemma {:induction false} NoDupConcat<T>(s: seq<T>, t: seq<T>)
    ensures NoDup(s + t) <==> NoDup(s) && NoDup(t) && forall x :: x in s ==> x !in t
  {
    if s == [] {
      assert s + t == t;
    } else {
      assert (s + t)[1..] == s[1..] + t;
      assert s == [s[0]] + s[1..];
      NoDupConcat(s[1..], t);
    }
  }

  /** Distinct elements drawn from `t` are no more than `t` has entries. */
  lemma {:induction false} Pigeonhole<T>(s: seq<T>, t: seq<T>)
    requires NoDup(s)
    requires forall x :: x in s ==> x in t
    ensures |s| <= |t|
  {
    if s != [] {
      var last := s[|s| - 1];
      assert last in s;
      var j :| 0 <= j < |t| && t[j] == last;
      var rest := t[..j] + t[j + 1..];
      var front := s[..|s| - 1];
      assert s == front + [last];
      NoDupConcat(front, [last]);
      forall x | x in front
        ensures x in rest
      {
        var i :| 0 <= i < |front| && front[i] == x;
        assert s[i] == x;
        assert x in t;
        var k :| 0 <= k < |t| && t[k] == x;
        if k < j { assert rest[k] == x; } else { assert rest[k - 1] == x; }
      }
      Pigeonhole(front, rest);
    }
  }

  /** `s` is obtained from `t` by deleting entries. */
  ghost predicate Subsequence<T>(s: seq<T>, t: seq<T>)
    decreases |t|
  {
    if s == [] then true
    else if t == [] then false
    else (s[0] == t[0] && Subsequence(s[1..], t[1..])) || Subsequence(s, t[1..])
  }

  lemma {:induction false} SubsequenceRefl<T>(s: seq<T>)
    ensures Subsequence(s, s)
  {
    if s != [] { SubsequenceRefl(s[1..]); }
  }

  lemma {:induction false} SubsequencePrepend<T>(p: seq<T>, s: seq<T>, t: seq<T>)
    requires Subsequence(s, t)
    ensures Subsequence(s, p + t)
  {
    if p == [] {
      assert p + t == t;
    } else {
      SubsequencePrepend(p[1..], s, t);
      assert (p + t)[1..] == p[1..] + t;
    }
  }

  lemma {:induction false} SubsequenceConcat<T>(s1: seq<T>, t1: seq<T>, s2: seq<T>, t2: seq<T>)
    requires Subsequence(s1, t1) && Subsequence(s2, t2)
    ensures Subsequence(s1 + s2, t1 + t2)
    decreases |t1|
  {
    if s1 == [] {
      assert s1 + s2 == s2;
      SubsequencePrepend(t1, s2, t2);
    } else {
      assert (t1 + t2)[1..] == t1[1..] + t2;
      if s1[0] == t1[0] && Subsequence(s1[1..], t1[1..]) {
        SubsequenceConcat(s1[1..], t1[1..], s2, t2);
        assert (s1 + s2)[1..] == s1[1..] + s2;
      } else {
        SubsequenceConcat(s1, t1[1..], s2, t2);
      }
    }
  }

  lemma {:induction false} SubsequenceElements<T>(s: seq<T>, t: seq<T>)
    requires Subsequence(s, t)
    ensures forall x :: x in s ==> x in t
    ensures NoDup(t) ==> NoDup(s)
    decreases |t|
  {
    if s != [] {
      if s[0] == t[0] && Subsequence(s[1..], t[1..]) {
        SubsequenceElements(s[1..], t[1..]);
        assert s == [s[0]] + s[1..] && t == [t[0]] + t[1..];
      } else {
        SubsequenceElements(s, t[1..]);
        assert t == [t[0]] + t[1..];
      }
    }
  }
}
