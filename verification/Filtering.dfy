/** Order-preserving selection from a sequence. */
module Filtering {

  ghost predicate Distinct<T>(s: seq<T>)
  {
    forall i, j :: 0 <= i < j < |s| ==> s[i] != s[j]
  }

  /** The elements of `s` that satisfy `p`, in order. */
  function Select<T>(s: seq<T>, p: T -> bool): (r: seq<T>)
    ensures |r| <= |s|
  {
    if s == [] then [] else
      var r := Select(s[..|s| - 1], p);
      if p(s[|s| - 1]) then r + [s[|s| - 1]] else r
  }

  function Without<T(==)>(s: seq<T>, x: T): seq<T>
  {
    Select(s, y => y != x)
  }

  lemma {:induction false} SelectMember<T>(s: seq<T>, p: T -> bool, x: T)
    ensures x in Select(s, p) <==> x in s && p(x)
  {
    if s != [] { SelectMember(s[..|s| - 1], p, x); }
  }

  lemma SelectMembers<T(!new)>(s: seq<T>, p: T -> bool)
    ensures forall x :: x in Select(s, p) <==> x in s && p(x)
  {
    forall x ensures x in Select(s, p) <==> x in s && p(x) { SelectMember(s, p, x); }
  }

  lemma SelectDistinct<T>(s: seq<T>, p: T -> bool)
    requires Distinct(s)
    ensures Distinct(Select(s, p))
  {
    if s != [] {
      SelectDistinct(s[..|s| - 1], p);
      SelectMember(s[..|s| - 1], p, s[|s| - 1]);
    }
  }

  lemma {:induction false} SelectConcat<T>(a: seq<T>, b: seq<T>, p: T -> bool)
    ensures Select(a + b, p) == Select(a, p) + Select(b, p)
    decreases |b|
  {
    if b == [] {
      assert a + b == a;
      assert Select(a, p) + [] == Select(a, p);
    } else {
      var c, x := b[..|b| - 1], b[|b| - 1];
      var last := if p(x) then [x] else [];
      calc {
        Select(a + b, p);
        { assert a + b == (a + c) + [x]; }
        Select((a + c) + [x], p);
        Select(a + c, p) + last;
        { SelectConcat(a, c, p); }
        Select(a, p) + Select(c, p) + last;
        { assert c + [x] == b; }
        Select(a, p) + Select(b, p);
      }
    }
  }

  /** How many of the first `n` elements satisfy `p`. */
  function Rank<T>(s: seq<T>, p: T -> bool, n: nat): nat
    requires n <= |s|
  {
    if n == 0 then 0 else Rank(s, p, n - 1) + (if p(s[n - 1]) then 1 else 0)
  }

  lemma {:induction false} RankPrefix<T>(s: seq<T>, p: T -> bool, m: nat, n: nat)
    requires n <= m <= |s|
    ensures Rank(s[..m], p, n) == Rank(s, p, n)
  {
    if n > 0 { RankPrefix(s, p, m, n - 1); }
  }

  lemma {:induction false} SelectSize<T>(s: seq<T>, p: T -> bool)
    ensures |Select(s, p)| == Rank(s, p, |s|)
  {
    if s != [] {
      SelectSize(s[..|s| - 1], p);
      RankPrefix(s, p, |s| - 1, |s| - 1);
    }
  }

  /** A selected element stands behind those selected before it. */
  lemma {:induction false} SelectAt<T>(s: seq<T>, p: T -> bool, i: nat)
    requires i < |s| && p(s[i])
    ensures Rank(s, p, i) < |Select(s, p)| && Select(s, p)[Rank(s, p, i)] == s[i]
  {
    var before := s[..|s| - 1];
    SelectSize(before, p);
    RankPrefix(s, p, |s| - 1, i);
    if i < |before| { SelectAt(before, p, i); }
  }

  /** As many elements are selected as there are places that satisfy `p`. */
  lemma {:induction false} SelectCount<T>(s: seq<T>, p: T -> bool, at: set<int>)
    requires forall i {:trigger i in at} :: i in at ==> 0 <= i < |s| && p(s[i])
    requires forall i :: 0 <= i < |s| && p(s[i]) ==> i in at
    ensures |Select(s, p)| == |at|
  {
    if s == [] {
      assert at == {};
    } else {
      var n := |s| - 1;
      SelectCount(s[..n], p, at - {n});
    }
  }

  lemma {:induction false} SelectTwice<T>(s: seq<T>, p: T -> bool, q: T -> bool, both: T -> bool)
    requires forall x :: x in s ==> both(x) == (p(x) && q(x))
    ensures Select(Select(s, p), q) == Select(s, both)
  {
    if s != [] {
      var before := s[..|s| - 1];
      SelectTwice(before, p, q, both);
      SelectConcat(Select(before, p), if p(s[|s| - 1]) then [s[|s| - 1]] else [], q);
    }
  }

  lemma SelectAll<T>(s: seq<T>, p: T -> bool)
    requires forall x :: x in s ==> p(x)
    ensures Select(s, p) == s
  {
    if s != [] { SelectAll(s[..|s| - 1], p); }
  }

  lemma WithoutLaw<T(!new)>(s: seq<T>, x: T)
    ensures forall y :: y in Without(s, x) <==> y in s && y != x
    ensures Distinct(s) ==> Distinct(Without(s, x))
    ensures Distinct(s) ==> |Without(s, x)| == if x in s then |s| - 1 else |s|
  {
    SelectMembers(s, y => y != x);
    if Distinct(s) {
      SelectDistinct(s, y => y != x);
      WithoutLength(s, x);
    }
  }

  lemma WithoutLength<T>(s: seq<T>, x: T)
    requires Distinct(s)
    ensures |Without(s, x)| == if x in s then |s| - 1 else |s|
  {
    if s != [] {
      var c := s[..|s| - 1];
      WithoutLength(c, x);
      assert s[|s| - 1] !in c;
      assert x in s <==> x in c || x == s[|s| - 1];
    }
  }

  /** Dropping the first unprocessed key while a prefix is already filtered. */
  lemma WithoutNext<T>(keys: seq<T>, i: nat, p: T -> bool)
    requires Distinct(keys) && i < |keys|
    ensures Without(Select(keys[..i], p) + keys[i..], keys[i]) == Select(keys[..i], p) + keys[i + 1..]
  {
    var done, x, rest := Select(keys[..i], p), keys[i], keys[i + 1..];
    SelectMember(keys[..i], p, x);
    WithoutAround(done, x, rest);
    assert done + keys[i..] == done + [x] + rest;
  }

  lemma WithoutAround<T>(done: seq<T>, x: T, rest: seq<T>)
    requires x !in done && x !in rest
    ensures Without(done + [x] + rest, x) == done + rest
  {
    SelectConcat(done + [x], rest, y => y != x);
    SelectConcat(done, [x], y => y != x);
    SelectAll(done, y => y != x);
    SelectAll(rest, y => y != x);
  }

  /** The filtered prefix grows by one key, which stays where it is or is dropped. */
  lemma SelectNext<T>(keys: seq<T>, i: nat, p: T -> bool)
    requires Distinct(keys) && i < |keys|
    ensures var now := Select(keys[..i], p) + keys[i..];
      (if p(keys[i]) then now else Without(now, keys[i])) == Select(keys[..i + 1], p) + keys[i + 1..]
  {
    assert keys[..i + 1][..i] == keys[..i];
    var done := Select(keys[..i], p);
    assert done + keys[i..] == done + [keys[i]] + keys[i + 1..];
    WithoutNext(keys, i, p);
  }
}
