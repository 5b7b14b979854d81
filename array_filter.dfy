/** `Array.prototype.filter` over a callback without side effects, and subsequences. */
module ArrayFilter {

  /**
   * `sub` can be obtained from `s` by deleting elements: what is kept
   * keeps its relative order, and nothing is added or repeated.
   */
  predicate IsSubsequence<T(==, !new)>(sub: seq<T>, s: seq<T>) {
    sub == [] || (s != [] && ((sub[0] == s[0] && IsSubsequence(sub[1..], s[1..])) || IsSubsequence(sub, s[1..])))
  }

  /** `xs.filter(keep)`: the elements for which `keep` holds, in their order. */
  function FilterBy<T(==, !new)>(xs: seq<T>, keep: T -> bool): (r: seq<T>)
    ensures |r| <= |xs|
    ensures forall x :: x in r ==> x in xs && keep(x)
  {
    if xs == [] then [] else (if keep(xs[0]) then [xs[0]] else []) + FilterBy(xs[1..], keep)
  }

  /** Each kept value appears exactly as often as in `xs`; the others not at all. */
  lemma {:induction false} FilterByCount<T(!new)>(xs: seq<T>, keep: T -> bool, x: T)
    ensures multiset(FilterBy(xs, keep))[x] == if keep(x) then multiset(xs)[x] else 0
  {
    if xs != [] {
      FilterByCount(xs[1..], keep, x);
      assert xs == [xs[0]] + xs[1..];
      var head := if keep(xs[0]) then [xs[0]] else [];
      assert FilterBy(xs, keep) == head + FilterBy(xs[1..], keep);
      assert multiset(xs) == multiset([xs[0]]) + multiset(xs[1..]);
    }
  }

  lemma FilterByMembership<T(!new)>(xs: seq<T>, keep: T -> bool, x: T)
    ensures x in FilterBy(xs, keep) <==> x in xs && keep(x)
  {
    FilterByCount(xs, keep, x);
  }

  lemma {:induction false} FilterBySubsequence<T(!new)>(xs: seq<T>, keep: T -> bool)
    ensures IsSubsequence(FilterBy(xs, keep), xs)
  {
    if xs != [] {
      FilterBySubsequence(xs[1..], keep);
      var r := FilterBy(xs, keep);
      if keep(xs[0]) {
        assert r[0] == xs[0] && r[1..] == FilterBy(xs[1..], keep);
      } else {
        assert r == FilterBy(xs[1..], keep);
      }
    }
  }

  /** A weaker callback keeps a superset, in the same order. */
  lemma {:induction false} FilterByMonotone<T(!new)>(xs: seq<T>, strong: T -> bool, weak: T -> bool)
    requires forall x :: x in xs && strong(x) ==> weak(x)
    ensures IsSubsequence(FilterBy(xs, strong), FilterBy(xs, weak))
  {
    if xs != [] {
      FilterByMonotone(xs[1..], strong, weak);
      var s, w := FilterBy(xs, strong), FilterBy(xs, weak);
      var s', w' := FilterBy(xs[1..], strong), FilterBy(xs[1..], weak);
      if strong(xs[0]) {
        assert s[0] == w[0] && s[1..] == s' && w[1..] == w';
      } else if weak(xs[0]) {
        assert s == s' && w[1..] == w';
      } else {
        assert s == s' && w == w';
      }
    }
  }

  /** Callbacks that agree on the elements give the same result. */
  lemma {:induction false} FilterByCongruent<T(!new)>(xs: seq<T>, p: T -> bool, q: T -> bool)
    requires forall x :: x in xs ==> p(x) == q(x)
    ensures FilterBy(xs, p) == FilterBy(xs, q)
  {
    if xs != [] {
      FilterByCongruent(xs[1..], p, q);
    }
  }

  /** A callback that accepts everything keeps the array as it is. */
  lemma {:induction false} FilterByAll<T(!new)>(xs: seq<T>)
    ensures FilterBy(xs, _ => true) == xs
  {
    if xs != [] {
      FilterByAll(xs[1..]);
    }
  }

  lemma {:induction false} FilterByIdempotent<T(!new)>(xs: seq<T>, keep: T -> bool)
    ensures FilterBy(FilterBy(xs, keep), keep) == FilterBy(xs, keep)
  {
    if xs != [] {
      FilterByIdempotent(xs[1..], keep);
      var r, r' := FilterBy(xs, keep), FilterBy(xs[1..], keep);
      if keep(xs[0]) {
        assert r == [xs[0]] + r' && r[0] == xs[0] && r[1..] == r';
        assert FilterBy(r, keep) == [xs[0]] + FilterBy(r', keep);
      } else {
        assert r == r';
      }
    }
  }
}
