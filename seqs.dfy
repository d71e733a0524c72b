/** Generic sequence operations on which the document-store model is built:
    filtering in order, finding the first element that satisfies a predicate,
    and removing that first element. */
module Seqs {

  /** The elements of `s` that satisfy `p`, in their order in `s`. */
  function Filter<T(!new)>(s: seq<T>, p: T -> bool): (r: seq<T>)
    ensures |r| <= |s|
    ensures forall x :: x in r <==> x in s && p(x)
    ensures forall k :: 0 <= k < |r| ==> p(r[k])
  {
    if s == [] then [] else (if p(s[0]) then [s[0]] else []) + Filter(s[1..], p)
  }

  /** The index of the first element of `s` satisfying `p`, or `|s|` if there is none. */
  function Find<T>(s: seq<T>, p: T -> bool): (i: nat)
    ensures i <= |s|
    ensures i < |s| ==> p(s[i])
    ensures forall j :: 0 <= j < i ==> !p(s[j])
  {
    if s == [] then 0 else if p(s[0]) then 0 else 1 + Find(s[1..], p)
  }

  /** `s` without its first element satisfying `p` (unchanged if there is none). */
  function RemoveFirst<T>(s: seq<T>, p: T -> bool): (r: seq<T>)
    ensures Find(s, p) == |s| ==> r == s
    ensures Find(s, p) < |s| ==> |r| == |s| - 1
  {
    if s == [] then []
    else if p(s[0]) then s[1..]
    else
      assert s == [s[0]] + s[1..];
      [s[0]] + RemoveFirst(s[1..], p)
  }

  /** Some element satisfies `p` exactly when `Find` stops inside the sequence. */
  lemma FindExists<T>(s: seq<T>, p: T -> bool)
    ensures Find(s, p) < |s| <==> exists x :: x in s && p(x)
  {
    if exists x :: x in s && p(x) {
      var x :| x in s && p(x);
      var k :| 0 <= k < |s| && s[k] == x;
    }
  }

  /** Appending an element does not move an existing first match; otherwise
      the new element is the first match exactly when it satisfies `p`. */
  lemma {:induction false} FindAppend<T>(s: seq<T>, x: T, p: T -> bool)
    ensures Find(s + [x], p) == if Find(s, p) < |s| then Find(s, p) else if p(x) then |s| else |s| + 1
  {
    if s == [] {
      assert [] + [x] == [x];
    } else {
      assert (s + [x])[1..] == s[1..] + [x];
      if !p(s[0]) {
        FindAppend(s[1..], x, p);
      }
    }
  }

  /** Removing the first match cuts exactly that element out of the sequence. */
  lemma {:induction false} RemoveFirstSlices<T>(s: seq<T>, p: T -> bool)
    ensures Find(s, p) < |s| ==> RemoveFirst(s, p) == s[..Find(s, p)] + s[Find(s, p) + 1..]
  {
    if s != [] && !p(s[0]) {
      RemoveFirstSlices(s[1..], p);
      var i := Find(s[1..], p);
      if i < |s| - 1 {
        assert s[..i + 1] == [s[0]] + s[1..][..i];
        assert s[i + 2..] == s[1..][i + 1..];
      }
    }
  }

  /** Removing the first match takes exactly that one element out of the multiset. */
  lemma {:induction false} RemoveFirstMultiset<T>(s: seq<T>, p: T -> bool)
    ensures Find(s, p) < |s| ==> multiset(RemoveFirst(s, p)) == multiset(s) - multiset{s[Find(s, p)]}
  {
    if s != [] {
      assert s == [s[0]] + s[1..];
      if !p(s[0]) {
        RemoveFirstMultiset(s[1..], p);
      }
    }
  }

  /** The first element satisfying `p` exists exactly when the filter is non-empty,
      and it is the filter's head. */
  lemma {:induction false} FindFilter<T(!new)>(s: seq<T>, p: T -> bool)
    ensures Find(s, p) == |s| <==> Filter(s, p) == []
    ensures Find(s, p) < |s| ==> Filter(s, p)[0] == s[Find(s, p)]
  {
    if s != [] && !p(s[0]) {
      FindFilter(s[1..], p);
    }
  }

  lemma {:induction false} FilterConcat<T(!new)>(a: seq<T>, b: seq<T>, p: T -> bool)
    ensures Filter(a + b, p) == Filter(a, p) + Filter(b, p)
  {
    if a == [] {
      assert a + b == b;
    } else {
      assert (a + b)[1..] == a[1..] + b;
      FilterConcat(a[1..], b, p);
    }
  }

  /** Appending one element adds it to the filter exactly when it satisfies the predicate. */
  lemma FilterAppend<T(!new)>(s: seq<T>, x: T, p: T -> bool)
    ensures Filter(s + [x], p) == Filter(s, p) + (if p(x) then [x] else [])
  {
    FilterConcat(s, [x], p);
  }

  /** One more step of a loop that filters `s` from left to right. */
  lemma PrefixStep<T(!new)>(s: seq<T>, i: nat, p: T -> bool)
    requires i < |s|
    ensures Filter(s[..i + 1], p) == Filter(s[..i], p) + (if p(s[i]) then [s[i]] else [])
  {
    assert s[..i + 1] == s[..i] + [s[i]];
    FilterAppend(s[..i], s[i], p);
  }

  /** Removing the first match removes exactly the head of the filter. */
  lemma {:induction false} FilterRemoveFirst<T(!new)>(s: seq<T>, p: T -> bool)
    ensures Filter(RemoveFirst(s, p), p) == if Filter(s, p) == [] then [] else Filter(s, p)[1..]
  {
    if s != [] && !p(s[0]) {
      FilterRemoveFirst(s[1..], p);
      assert RemoveFirst(s, p) == [s[0]] + RemoveFirst(s[1..], p);
      FilterConcat([s[0]], RemoveFirst(s[1..], p), p);
    }
  }

  /** Removing the first `p`-match leaves the `q`-filter alone when no element satisfies both. */
  lemma {:induction false} FilterRemoveFirstOther<T(!new)>(s: seq<T>, p: T -> bool, q: T -> bool)
    requires forall x :: x in s && p(x) ==> !q(x)
    ensures Filter(RemoveFirst(s, p), q) == Filter(s, q)
  {
    if s != [] && !p(s[0]) {
      FilterRemoveFirstOther(s[1..], p, q);
      assert RemoveFirst(s, p) == [s[0]] + RemoveFirst(s[1..], p);
      FilterConcat([s[0]], RemoveFirst(s[1..], p), q);
    }
  }

  /** Removing the first `p`-match commutes with filtering by `q` when `p` implies `q`. */
  lemma {:induction false} FilterRemoveFirstInner<T(!new)>(s: seq<T>, p: T -> bool, q: T -> bool)
    requires forall x :: x in s && p(x) ==> q(x)
    ensures Filter(RemoveFirst(s, p), q) == RemoveFirst(Filter(s, q), p)
  {
    if s != [] {
      var t := Filter(s, q);
      var u := Filter(s[1..], q);
      if p(s[0]) {
        assert t == [s[0]] + u;
        assert RemoveFirst(t, p) == u;
      } else {
        FilterRemoveFirstInner(s[1..], p, q);
        var r := RemoveFirst(s[1..], p);
        assert RemoveFirst(s, p) == [s[0]] + r;
        FilterConcat([s[0]], r, q);
        if q(s[0]) {
          assert t == [s[0]] + u;
          assert RemoveFirst(t, p) == [s[0]] + RemoveFirst(u, p);
        } else {
          assert t == u;
        }
      }
    }
  }

  /** Two predicates that agree on every element of `s` select the same subsequence. */
  lemma {:induction false} FilterExt<T(!new)>(s: seq<T>, p: T -> bool, q: T -> bool)
    requires forall x :: x in s ==> p(x) == q(x)
    ensures Filter(s, p) == Filter(s, q)
  {
    if s != [] {
      FilterExt(s[1..], p, q);
    }
  }

  /** Two predicates that agree on every element of `s` remove the same element. */
  lemma {:induction false} RemoveFirstExt<T>(s: seq<T>, p: T -> bool, q: T -> bool)
    requires forall x :: x in s ==> p(x) == q(x)
    ensures RemoveFirst(s, p) == RemoveFirst(s, q)
  {
    if s != [] {
      RemoveFirstExt(s[1..], p, q);
    }
  }

  /** A filter is empty when no element satisfies the predicate. */
  lemma {:induction false} FilterNone<T(!new)>(s: seq<T>, p: T -> bool)
    requires forall x :: x in s ==> !p(x)
    ensures Filter(s, p) == []
  {
    if s != [] {
      FilterNone(s[1..], p);
    }
  }

  /** Two predicates that agree on every element of `s` have the same first match. */
  lemma {:induction false} FindExt<T>(s: seq<T>, p: T -> bool, q: T -> bool)
    requires forall x :: x in s ==> p(x) == q(x)
    ensures Find(s, p) == Find(s, q)
  {
    if s != [] {
      FindExt(s[1..], p, q);
    }
  }

  /** Every element of the result of `RemoveFirst` was in the sequence. */
  lemma RemoveFirstSubset<T>(s: seq<T>, p: T -> bool)
    ensures forall x :: x in RemoveFirst(s, p) ==> x in s
  {
    RemoveFirstMultiset(s, p);
    forall x | x in RemoveFirst(s, p) ensures x in s {
      assert x in multiset(RemoveFirst(s, p));
    }
  }

  /** `r` holds of every pair of elements in sequence order. */
  ghost predicate Pairwise<T>(s: seq<T>, r: (T, T) -> bool) {
    forall i, j :: 0 <= i < j < |s| ==> r(s[i], s[j])
  }

  lemma PairwiseAppend<T>(s: seq<T>, x: T, r: (T, T) -> bool)
    requires Pairwise(s, r)
    requires forall y :: y in s ==> r(y, x)
    ensures Pairwise(s + [x], r)
  {
    var t := s + [x];
    forall i, j | 0 <= i < j < |t| ensures r(t[i], t[j]) {
      assert t[i] == s[i];
    }
  }

  lemma PairwiseCons<T>(x: T, s: seq<T>, r: (T, T) -> bool)
    requires Pairwise(s, r)
    requires forall y :: y in s ==> r(x, y)
    ensures Pairwise([x] + s, r)
  {
    var t := [x] + s;
    forall i, j | 0 <= i < j < |t| ensures r(t[i], t[j]) {
      assert t[j] == s[j - 1];
      if i > 0 {
        assert t[i] == s[i - 1];
      }
    }
  }

  lemma PairwiseTail<T>(s: seq<T>, r: (T, T) -> bool)
    requires Pairwise(s, r) && s != []
    ensures Pairwise(s[1..], r)
    ensures forall y :: y in s[1..] ==> r(s[0], y)
  {
    forall i, j | 0 <= i < j < |s| - 1 ensures r(s[1..][i], s[1..][j]) {
      assert s[1..][i] == s[i + 1] && s[1..][j] == s[j + 1];
    }
    forall y | y in s[1..] ensures r(s[0], y) {
      var k :| 0 <= k < |s[1..]| && s[1..][k] == y;
      assert s[k + 1] == y;
    }
  }

  /** Removing an element keeps a pairwise property. */
  lemma {:induction false} PairwiseRemoveFirst<T>(s: seq<T>, p: T -> bool, r: (T, T) -> bool)
    requires Pairwise(s, r)
    ensures Pairwise(RemoveFirst(s, p), r)
  {
    if s == [] {
    } else if p(s[0]) {
      PairwiseTail(s, r);
    } else {
      PairwiseTail(s, r);
      PairwiseRemoveFirst(s[1..], p, r);
      RemoveFirstSubset(s[1..], p);
      PairwiseCons(s[0], RemoveFirst(s[1..], p), r);
    }
  }

  /** Filtering keeps a pairwise property. */
  lemma {:induction false} PairwiseFilter<T(!new)>(s: seq<T>, p: T -> bool, r: (T, T) -> bool)
    requires Pairwise(s, r)
    ensures Pairwise(Filter(s, p), r)
  {
    if s != [] {
      PairwiseTail(s, r);
      PairwiseFilter(s[1..], p, r);
      if p(s[0]) {
        PairwiseCons(s[0], Filter(s[1..], p), r);
      }
    }
  }

  /** Filtering by `q` after `p` is filtering by `q` alone when `q` implies `p`. */
  lemma {:induction false} FilterFilter<T(!new)>(s: seq<T>, p: T -> bool, q: T -> bool)
    requires forall x :: x in s && q(x) ==> p(x)
    ensures Filter(Filter(s, p), q) == Filter(s, q)
  {
    if s != [] {
      FilterFilter(s[1..], p, q);
      FilterConcat(if p(s[0]) then [s[0]] else [], Filter(s[1..], p), q);
    }
  }

  /** The sequence in reverse order. */
  function Reverse<T>(s: seq<T>): (r: seq<T>)
    ensures |r| == |s|
    ensures forall k :: 0 <= k < |s| ==> r[k] == s[|s| - 1 - k]
  {
    if s == [] then [] else Reverse(s[1..]) + [s[0]]
  }

  /** Reversing keeps exactly the same elements. */
  lemma ReverseMembers<T>(s: seq<T>)
    ensures forall x :: x in Reverse(s) <==> x in s
  {
    var r := Reverse(s);
    forall x ensures x in r <==> x in s {
      if x in s {
        var k :| 0 <= k < |s| && s[k] == x;
        assert r[|s| - 1 - k] == x;
      }
    }
  }
}
