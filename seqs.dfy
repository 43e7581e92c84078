/** Array.prototype.filter over sequences, with the facts the aggregations rely on. */
module Seqs {

  /** The elements of `s` that satisfy `p`, in their original order. Defined on the
      last element, so that it lines up with a left-to-right `reduce`. */
  function Filter<T>(s: seq<T>, p: T -> bool): (r: seq<T>)
    ensures |r| <= |s|
    decreases |s|
  {
    if s == [] then []
    else
      var init := Filter(s[..|s| - 1], p);
      if p(s[|s| - 1]) then init + [s[|s| - 1]] else init
  }

  /** Filtering one more element at the end. */
  lemma FilterSnoc<T>(s: seq<T>, x: T, p: T -> bool)
    ensures Filter(s + [x], p) == if p(x) then Filter(s, p) + [x] else Filter(s, p)
  {
    assert (s + [x])[..|s|] == s;
  }

  /** Filtering distributes over concatenation, so it keeps the original order. */
  lemma {:induction false} FilterAppend<T>(s: seq<T>, t: seq<T>, p: T -> bool)
    ensures Filter(s + t, p) == Filter(s, p) + Filter(t, p)
    decreases |t|
  {
    if t == [] {
      assert s + t == s;
    } else {
      var t', x := t[..|t| - 1], t[|t| - 1];
      assert t == t' + [x];
      assert s + t == (s + t') + [x];
      FilterAppend(s, t', p);
      FilterSnoc(s + t', x, p);
      FilterSnoc(t', x, p);
    }
  }

  /** An element survives the filter exactly when it is in `s` and satisfies `p`. */
  lemma {:induction false} FilterMembership<T>(s: seq<T>, p: T -> bool, x: T)
    ensures x in Filter(s, p) <==> x in s && p(x)
    decreases |s|
  {
    if s != [] {
      var s', y := s[..|s| - 1], s[|s| - 1];
      assert s == s' + [y];
      FilterMembership(s', p, x);
      FilterSnoc(s', y, p);
    }
  }

  /** The elements of the filtered sequence are exactly those of `s` that satisfy `p`. */
  lemma FilterMembers<T>(s: seq<T>, p: T -> bool)
    ensures forall x :: x in Filter(s, p) <==> x in s && p(x)
  {
    forall x ensures x in Filter(s, p) <==> x in s && p(x) {
      FilterMembership(s, p, x);
    }
  }

  /** Every element of a filtered sequence satisfies the predicate. */
  lemma FilterSatisfies<T>(s: seq<T>, p: T -> bool)
    ensures forall x :: x in Filter(s, p) ==> p(x)
  {
    forall x | x in Filter(s, p) ensures p(x) {
      FilterMembership(s, p, x);
    }
  }

  /** A filter that no element of `s` passes gives the empty sequence. */
  lemma {:induction false} FilterNone<T>(s: seq<T>, p: T -> bool)
    requires forall x :: x in s ==> !p(x)
    ensures Filter(s, p) == []
    decreases |s|
  {
    if s != [] {
      FilterNone(s[..|s| - 1], p);
    }
  }

  /** Two predicates that agree on the elements of `s` filter it alike. */
  lemma {:induction false} FilterExt<T>(s: seq<T>, p: T -> bool, q: T -> bool)
    requires forall x :: x in s ==> p(x) == q(x)
    ensures Filter(s, p) == Filter(s, q)
    decreases |s|
  {
    if s != [] {
      FilterExt(s[..|s| - 1], p, q);
    }
  }

  /** Filtering twice is filtering once by the conjunction. */
  lemma {:induction false} FilterFilter<T>(s: seq<T>, p: T -> bool, q: T -> bool, pq: T -> bool)
    requires forall x :: pq(x) == (p(x) && q(x))
    ensures Filter(Filter(s, p), q) == Filter(s, pq)
    decreases |s|
  {
    if s != [] {
      var s', x := s[..|s| - 1], s[|s| - 1];
      FilterFilter(s', p, q, pq);
      if p(x) {
        FilterSnoc(Filter(s', p), x, q);
      }
    }
  }

  /** Taking the same element out of two arrangements of the same elements leaves
      arrangements of the same elements. */
  lemma MultisetRemove<T>(s: seq<T>, x: T, t1: seq<T>, t2: seq<T>)
    requires multiset(s + [x]) == multiset(t1 + [x] + t2)
    ensures multiset(s) == multiset(t1 + t2)
  {
    assert multiset(s + [x]) == multiset(s) + multiset{x};
    assert multiset(t1 + [x] + t2) == multiset(t1) + multiset{x} + multiset(t2);
    assert multiset(t1 + t2) == multiset(t1) + multiset(t2);
    assert multiset(s) == multiset(s + [x]) - multiset{x};
    assert multiset(t1 + t2) == multiset(t1 + [x] + t2) - multiset{x};
  }

  /** A nonempty arrangement of the elements of `t` has its last element somewhere in `t`. */
  lemma PermutationSplit<T>(s: seq<T>, t: seq<T>) returns (k: nat)
    requires multiset(s) == multiset(t) && s != []
    ensures k < |t| && t[k] == s[|s| - 1]
    ensures t == t[..k] + [s[|s| - 1]] + t[k + 1..]
  {
    assert s[|s| - 1] in multiset(s);
    k :| 0 <= k < |t| && t[k] == s[|s| - 1];
    assert t == t[..k] + [t[k]] + t[k + 1..];
  }
}
