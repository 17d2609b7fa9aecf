/** Sequence operations that model JavaScript's `Array.prototype.filter` and
    the first-occurrence order of `Array.from(new Set(xs))`. */
module Seqs {

  /** `xs.filter(p)`: the elements of `s` that satisfy `p`, in their order. */
  function Filter<T(==,!new)>(s: seq<T>, p: T -> bool): (r: seq<T>)
    ensures |r| <= |s|
    ensures forall x :: x in r <==> x in s && p(x)
  {
    if s == [] then []
    else (if p(s[0]) then [s[0]] else []) + Filter(s[1..], p)
  }

  /** `r` can be obtained from `s` by deleting elements (order is kept). */
  predicate IsSubseq<T(==)>(r: seq<T>, s: seq<T>)
  {
    if r == [] then true
    else if s == [] then false
    else (r[0] == s[0] && IsSubseq(r[1..], s[1..])) || IsSubseq(r, s[1..])
  }

  /** Filtering keeps the survivors in their original relative order. */
  lemma {:induction false} FilterIsSubseq<T(!new)>(s: seq<T>, p: T -> bool)
    ensures IsSubseq(Filter(s, p), s)
  {
    if s != [] {
      FilterIsSubseq(s[1..], p);
      if p(s[0]) {
        var r := Filter(s, p);
        assert r == [s[0]] + Filter(s[1..], p);
        assert r[0] == s[0] && r[1..] == Filter(s[1..], p);
      } else {
        assert Filter(s, p) == Filter(s[1..], p);
      }
    }
  }

  /** A filter every element passes returns the sequence itself. */
  lemma {:induction false} FilterAll<T(!new)>(s: seq<T>, p: T -> bool)
    requires forall i :: 0 <= i < |s| ==> p(s[i])
    ensures Filter(s, p) == s
  {
    if s != [] {
      FilterAll(s[1..], p);
    }
  }

  /** Filtering distributes over concatenation. */
  lemma {:induction false} FilterConcat<T(!new)>(a: seq<T>, b: seq<T>, p: T -> bool)
    ensures Filter(a + b, p) == Filter(a, p) + Filter(b, p)
  {
    if a != [] {
      FilterConcat(a[1..], b, p);
      assert (a + b)[1..] == a[1..] + b;
    } else {
      assert a + b == b;
    }
  }

  /** The number of elements of `s` that satisfy `p`. */
  function Count<T>(s: seq<T>, p: T -> bool): nat
  {
    if s == [] then 0 else (if p(s[0]) then 1 else 0) + Count(s[1..], p)
  }

  /** Filtering keeps exactly the counted elements. */
  lemma {:induction false} FilterLength<T(!new)>(s: seq<T>, p: T -> bool)
    ensures |Filter(s, p)| == Count(s, p)
  {
    if s != [] {
      FilterLength(s[1..], p);
    }
  }

  /** Filtering keeps every copy of a kept element and no copy of a dropped one. */
  lemma {:induction false} FilterMultiplicity<T(!new)>(s: seq<T>, p: T -> bool)
    ensures forall x :: multiset(Filter(s, p))[x] == if p(x) then multiset(s)[x] else 0
  {
    if s != [] {
      FilterMultiplicity(s[1..], p);
      assert s == [s[0]] + s[1..];
      assert multiset(s) == multiset{s[0]} + multiset(s[1..]);
    }
  }

  /** A subsequence made only of elements satisfying `p` is no longer than their count. */
  lemma {:induction false} SubseqCountBound<T(!new)>(r: seq<T>, t: seq<T>, p: T -> bool)
    requires forall x :: x in r ==> p(x)
    ensures IsSubseq(r, t) ==> |r| <= Count(t, p)
    decreases |t|
  {
    if t != [] {
      SubseqCountBound(r, t[1..], p);
      if r != [] {
        assert forall x :: x in r[1..] ==> x in r;
        SubseqCountBound(r[1..], t[1..], p);
        assert r[0] in r;
      }
    }
  }

  /** A filter's result is the only subsequence of `s` that holds only elements satisfying
      `p` and has as many elements as `s` has such elements. */
  lemma {:induction false} FilterUnique<T(!new)>(s: seq<T>, p: T -> bool, r: seq<T>)
    requires IsSubseq(r, s) && (forall x :: x in r ==> p(x)) && |r| == Count(s, p)
    ensures r == Filter(s, p)
    decreases |s|
  {
    if s != [] {
      if p(s[0]) {
        assert |r| >= 1;
        assert forall x :: x in r[1..] ==> x in r;
        SubseqCountBound(r, s[1..], p);
        FilterUnique(s[1..], p, r[1..]);
        assert r == [r[0]] + r[1..];
      } else {
        assert r != [] ==> r[0] in r && r[0] != s[0];
        FilterUnique(s[1..], p, r);
      }
    }
  }

  /** Filters by two predicates that agree everywhere give the same result. */
  lemma {:induction false} FilterCongruent<T(!new)>(s: seq<T>, p: T -> bool, q: T -> bool)
    requires forall x :: p(x) == q(x)
    ensures Filter(s, p) == Filter(s, q)
  {
    if s != [] {
      FilterCongruent(s[1..], p, q);
    }
  }

  /** No element occurs twice. */
  predicate NoDup<T(==)>(s: seq<T>)
  {
    forall i, j :: 0 <= i < j < |s| ==> s[i] != s[j]
  }

  /** The position of the first occurrence of `x` in `s`. */
  function FirstIndex<T(==)>(s: seq<T>, x: T): (k: nat)
    requires x in s
    ensures k < |s| && s[k] == x && x !in s[..k]
  {
    if s[0] == x then 0
    else
      assert s == [s[0]] + s[1..];
      1 + FirstIndex(s[1..], x)
  }

  /** The first occurrence in a sequence with a known head. */
  lemma FirstIndexCons<T>(h: T, t: seq<T>, x: T)
    requires x in [h] + t
    ensures FirstIndex([h] + t, x) == if h == x then 0 else 1 + FirstIndex(t, x)
  {
    assert ([h] + t)[1..] == t;
  }

  /** Appending to a sequence does not move the first occurrence of an element already in it. */
  lemma FirstIndexAppend<T>(s: seq<T>, y: T, x: T)
    requires x in s
    ensures x in s + [y] && FirstIndex(s + [y], x) == FirstIndex(s, x)
  {
    var k := FirstIndex(s, x);
    var k' := FirstIndex(s + [y], x);
    assert (s + [y])[k] == x;
    assert forall m :: 0 <= m < k ==> (s + [y])[m] != x by {
      assert forall m :: 0 <= m < k ==> s[..k][m] == s[m];
    }
    assert forall m :: 0 <= m < k' ==> (s + [y])[m] != x by {
      assert forall m :: 0 <= m < k' ==> (s + [y])[..k'][m] == (s + [y])[m];
    }
  }

  /** `Array.from(new Set(s))`: each distinct element once, in first-appearance order. */
  function Dedup<T(==,!new)>(s: seq<T>): (r: seq<T>)
    ensures forall x :: x in r <==> x in s
    ensures NoDup(r)
  {
    if s == [] then []
    else
      var rest := Dedup(s[..|s| - 1]);
      var last := s[|s| - 1];
      assert forall x :: x in s <==> x in s[..|s| - 1] || x == last by {
        assert s == s[..|s| - 1] + [last];
      }
      if last in rest then rest else rest + [last]
  }

  /** The elements of `Dedup(s)` appear in the order of their first occurrence in `s`. */
  lemma {:induction false} DedupFirstAppearance<T(!new)>(s: seq<T>)
    ensures forall i, j :: 0 <= i < j < |Dedup(s)| ==>
      FirstIndex(s, Dedup(s)[i]) < FirstIndex(s, Dedup(s)[j])
  {
    if s != [] {
      var init := s[..|s| - 1];
      var last := s[|s| - 1];
      assert s == init + [last];
      DedupFirstAppearance(init);
      var rest := Dedup(init);
      forall x | x in init
        ensures FirstIndex(s, x) == FirstIndex(init, x) < |init|
      {
        FirstIndexAppend(init, last, x);
      }
      if last !in rest {
        assert last !in init;
        assert FirstIndex(s, last) == |init|;
      }
    }
  }
}
