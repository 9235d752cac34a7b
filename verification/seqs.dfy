/** `Array.prototype.filter` and the order-preservation facts the list utilities rely on. */
module Seqs {

  /** `s` with exactly the elements that satisfy `keep`, in their original order. */
  function Filter<T(!new)>(s: seq<T>, keep: T -> bool): (r: seq<T>)
    ensures |r| <= |s|
    ensures forall x :: x in r <==> x in s && keep(x)
  {
    if s == [] then []
    else
      var rest := Filter(s[1..], keep);
      assert s == [s[0]] + s[1..];
      (if keep(s[0]) then [s[0]] else []) + rest
  }

  /** Filtering keeps each element's multiplicity when it qualifies and drops it otherwise. */
  lemma {:induction false} FilterMultiset<T(!new)>(s: seq<T>, keep: T -> bool)
    ensures forall x :: multiset(Filter(s, keep))[x] == if keep(x) then multiset(s)[x] else 0
  {
    if s != [] {
      FilterMultiset(s[1..], keep);
      assert s == [s[0]] + s[1..];
    }
  }

  /** `r` can be obtained from `s` by deleting elements (greedy matching from the left). */
  ghost predicate SubsequenceOf<T>(r: seq<T>, s: seq<T>)
    decreases |s|
  {
    r == [] || (s != [] && if r[0] == s[0] then SubsequenceOf(r[1..], s[1..]) else SubsequenceOf(r, s[1..]))
  }

  lemma {:induction false} FilterIsSubsequence<T(!new)>(s: seq<T>, keep: T -> bool)
    ensures SubsequenceOf(Filter(s, keep), s)
  {
    if s != [] {
      FilterIsSubsequence(s[1..], keep);
      var r, rest := Filter(s, keep), Filter(s[1..], keep);
      if keep(s[0]) {
        assert r[0] == s[0] && r[1..] == rest;
      } else if r != [] {
        assert r == rest;
        assert keep(r[0]) by { assert r[0] in r; }
        assert r[0] != s[0];
      }
    }
  }

  /** Filtering twice by the same condition changes nothing the second time. */
  lemma {:induction false} FilterIdempotent<T(!new)>(s: seq<T>, keep: T -> bool)
    ensures Filter(Filter(s, keep), keep) == Filter(s, keep)
  {
    if s != [] {
      FilterIdempotent(s[1..], keep);
      var rest := Filter(s[1..], keep);
      if keep(s[0]) {
        var r := [s[0]] + rest;
        assert r[0] == s[0] && r[1..] == rest;
        assert Filter(s, keep) == r;
        assert Filter(r, keep) == [s[0]] + Filter(rest, keep);
      } else {
        assert Filter(s, keep) == rest;
      }
    }
  }

  /** Filtering by a condition every element meets returns the input. */
  lemma {:induction false} FilterKeepsAll<T(!new)>(s: seq<T>, keep: T -> bool)
    requires forall i :: 0 <= i < |s| ==> keep(s[i])
    ensures Filter(s, keep) == s
  {
    if s != [] {
      FilterKeepsAll(s[1..], keep);
      assert s == [s[0]] + s[1..];
    }
  }

  /** Filtering commutes with appending one element on the right. */
  /** Nothing is kept when no element passes. */
  lemma FilterNoneKept<T(!new)>(s: seq<T>, keep: T -> bool)
    requires forall z :: z in s ==> !keep(z)
    ensures Filter(s, keep) == []
  {
  }

  /** Rearranges `h + (d + e)` as `(h + d) + e` between named sequences. */
  lemma PrependThenAppend<T>(a: seq<T>, b: seq<T>, c: seq<T>, d: seq<T>, h: seq<T>, e: seq<T>)
    requires a == h + c && c == d + e && b == h + d
    ensures a == b + e
  {
    assert h + (d + e) == (h + d) + e;
  }

  /** Filtering a sequence with a known head. */
  lemma FilterCons<T(!new)>(a: T, rest: seq<T>, keep: T -> bool)
    ensures Filter([a] + rest, keep) == (if keep(a) then [a] else []) + Filter(rest, keep)
  {
    assert ([a] + rest)[1..] == rest;
  }

  lemma {:induction false} FilterSnoc<T(!new)>(s: seq<T>, x: T, keep: T -> bool)
    ensures Filter(s + [x], keep) == Filter(s, keep) + if keep(x) then [x] else []
  {
    if s == [] {
      assert [x][1..] == [];
    } else {
      var h, t := s[0], s[1..];
      assert s + [x] == [h] + (t + [x]) && s == [h] + t;
      FilterCons(h, t + [x], keep);
      FilterCons(h, t, keep);
      FilterSnoc(t, x, keep);
      PrependThenAppend(Filter(s + [x], keep), Filter(s, keep), Filter(t + [x], keep), Filter(t, keep),
        if keep(h) then [h] else [], if keep(x) then [x] else []);
    }
  }

  /** `Array.prototype.map`: one result per element, in order. */
  function Map<A, B>(s: seq<A>, f: A -> B): (r: seq<B>)
    ensures |r| == |s|
    ensures forall i :: 0 <= i < |s| ==> r[i] == f(s[i])
  {
    seq(|s|, i requires 0 <= i < |s| => f(s[i]))
  }

  /** Mapping by `f` and then by a left inverse of `f` on the elements gives the input back. */
  lemma MapThenInverse<A, B>(s: seq<A>, f: A -> B, g: B -> A)
    requires forall i :: 0 <= i < |s| ==> g(f(s[i])) == s[i]
    ensures Map(Map(s, f), g) == s
  {
  }
}
