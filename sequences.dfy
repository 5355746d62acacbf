/** Generic sequence helpers shared by the session list and the provider list. */
module Sequences {

  /** No element occurs twice. */
  predicate NoDuplicates<T(==)>(s: seq<T>)
  {
    forall i, j :: 0 <= i < j < |s| ==> s[i] != s[j]
  }

  /** Index of the first occurrence of `x` in `s`. */
  function FirstIndex<T(==)>(s: seq<T>, x: T): (k: nat)
    requires x in s
    ensures k < |s| && s[k] == x
    ensures forall j :: 0 <= j < k ==> s[j] != x
  {
    if s[0] == x then 0 else 1 + FirstIndex(s[1..], x)
  }

  /** The distinct elements of `s`, each at the place it first appears: the
      iteration order of a JavaScript `Set` or `Map` filled from `s`. */
  function Distinct<T(==)>(s: seq<T>): (d: seq<T>)
  {
    if s == [] then []
    else
      var d := Distinct(s[..|s| - 1]);
      if s[|s| - 1] in d then d else d + [s[|s| - 1]]
  }

  /** The first `n` elements, or all of them when there are fewer
      (JavaScript `slice(0, n)`, SQL `limit n`). */
  function Take<T>(s: seq<T>, n: nat): (r: seq<T>)
    ensures |r| == if n < |s| then n else |s|
    ensures forall i :: 0 <= i < |r| ==> r[i] == s[i]
  {
    if n < |s| then s[..n] else s
  }

  function Reverse<T>(s: seq<T>): (r: seq<T>)
    ensures |r| == |s|
    ensures forall i :: 0 <= i < |s| ==> r[i] == s[|s| - 1 - i]
  {
    if s == [] then [] else Reverse(s[1..]) + [s[0]]
  }

  lemma {:induction false} DistinctHasNoDuplicates<T>(s: seq<T>)
    ensures NoDuplicates(Distinct(s))
  {
    if s != [] {
      DistinctHasNoDuplicates(s[..|s| - 1]);
    }
  }

  lemma {:induction false} DistinctSameElements<T>(s: seq<T>)
    ensures forall x :: x in Distinct(s) ==> x in s
    ensures forall x :: x in s ==> x in Distinct(s)
  {
    if s != [] {
      var prefix := s[..|s| - 1];
      DistinctSameElements(prefix);
      assert s == prefix + [s[|s| - 1]];
    }
  }

  lemma FirstIndexOfExtended<T>(s: seq<T>, x: T, y: T)
    requires y in s
    ensures y in s + [x] && FirstIndex(s + [x], y) == FirstIndex(s, y)
  {
    var k := FirstIndex(s, y);
    var k' := FirstIndex(s + [x], y);
    assert (s + [x])[k] == y;
  }

  /** Every element of `d` occurs in `s`, and `d` lists them in the order of
      their first occurrence in `s`. */
  ghost predicate InFirstAppearanceOrder<T>(d: seq<T>, s: seq<T>)
  {
    forall i, j :: 0 <= i < j < |d| ==>
      d[i] in s && d[j] in s && FirstIndex(s, d[i]) < FirstIndex(s, d[j])
  }

  /** Elements of `Distinct(s)` are listed in the order of their first
      appearance in `s`. */
  lemma {:induction false} DistinctFirstAppearanceOrder<T>(s: seq<T>)
    ensures InFirstAppearanceOrder(Distinct(s), s)
  {
    if s != [] {
      var prefix, x := s[..|s| - 1], s[|s| - 1];
      assert s == prefix + [x];
      var d := Distinct(prefix);
      DistinctFirstAppearanceOrder(prefix);
      DistinctSameElements(prefix);
      var D := Distinct(s);
      assert D == if x in d then d else d + [x];
      forall i, j | 0 <= i < j < |D|
        ensures D[i] in s && D[j] in s && FirstIndex(s, D[i]) < FirstIndex(s, D[j])
      {
        assert D[i] == d[i] && D[i] in prefix;
        FirstIndexOfExtended(prefix, x, D[i]);
        if j < |d| {
          assert D[j] == d[j] && D[j] in prefix;
          FirstIndexOfExtended(prefix, x, D[j]);
        } else {
          assert D[j] == x && x !in prefix;
          assert FirstIndex(s, x) == |prefix|;
        }
      }
    }
  }

  lemma {:induction false} ReverseReverse<T>(s: seq<T>)
    ensures Reverse(Reverse(s)) == s
  {
    assert |Reverse(Reverse(s))| == |s|;
    forall i | 0 <= i < |s| ensures Reverse(Reverse(s))[i] == s[i] {
    }
  }

  /** Adding an element at the end adds it to the distinct elements unless
      it is already there. */
  lemma DistinctSnoc<T>(s: seq<T>, x: T)
    ensures Distinct(s + [x]) == if x in s then Distinct(s) else Distinct(s) + [x]
  {
    assert (s + [x])[..|s|] == s;
    DistinctSameElements(s);
  }

  /** `n` copies of `x`. */
  function Repeat<T>(x: T, n: nat): (r: seq<T>)
    ensures |r| == n && forall i :: 0 <= i < n ==> r[i] == x
  {
    seq(n, _ => x)
  }

  /** A run of an element not seen before adds it once. */
  lemma {:induction false} DistinctRun<T>(s: seq<T>, x: T, n: nat)
    requires n >= 1
    ensures Distinct(s + Repeat(x, n)) == if x in s then Distinct(s) else Distinct(s) + [x]
  {
    if n == 1 {
      assert Repeat(x, 1) == [x];
      DistinctSnoc(s, x);
    } else {
      DistinctRun(s, x, n - 1);
      assert s + Repeat(x, n) == (s + Repeat(x, n - 1)) + [x];
      DistinctSnoc(s + Repeat(x, n - 1), x);
      DistinctSameElements(s + Repeat(x, n - 1));
      assert x in Distinct(s + Repeat(x, n - 1));
    }
  }

  /** A run of a new element, stated against the distinct elements so far. */
  lemma DistinctRunNew<T>(s: seq<T>, d: seq<T>, x: T, n: nat)
    requires n >= 1 && Distinct(s) == d && x !in d
    ensures Distinct(s + Repeat(x, n)) == d + [x]
  {
    DistinctSameElements(s);
    DistinctRun(s, x, n);
  }
}
