/**
 * Sequence helpers shared by the model: the ORM's `filter(...)` over a table
 * kept in insertion order, and "every earlier row relates to every later row".
 */
module Seqs {

  /** The rows of `s` that satisfy `keep`, in their original order. */
  function Filter<T(!new)>(s: seq<T>, keep: T -> bool): (r: seq<T>)
    ensures |r| <= |s|
    ensures forall x :: x in r <==> x in s && keep(x)
  {
    if s == [] then []
    else
      var init := Filter(s[..|s| - 1], keep);
      var last := s[|s| - 1];
      assert s == s[..|s| - 1] + [last];
      init + (if keep(last) then [last] else [])
  }

  /** Every earlier element is related by `rel` to every later one. */
  ghost predicate Pairwise<T>(s: seq<T>, rel: (T, T) -> bool)
  {
    forall i, j :: 0 <= i < j < |s| ==> rel(s[i], s[j])
  }

  /** Appending `x` keeps a pairwise order when every element already there relates to `x`. */
  lemma {:induction false} PairwiseAppend<T>(s: seq<T>, x: T, rel: (T, T) -> bool)
    requires Pairwise(s, rel)
    requires forall y :: y in s ==> rel(y, x)
    ensures Pairwise(s + [x], rel)
  {
    var t := s + [x];
    forall i, j | 0 <= i < j < |t| ensures rel(t[i], t[j]) {
      if j == |s| {
        assert t[i] in s;
      } else {
        assert t[i] == s[i] && t[j] == s[j];
      }
    }
  }

  /** Removing rows never breaks an order that held between all rows. */
  lemma {:induction false} FilterPairwise<T(!new)>(s: seq<T>, keep: T -> bool, rel: (T, T) -> bool)
    requires Pairwise(s, rel)
    ensures Pairwise(Filter(s, keep), rel)
  {
    if s != [] {
      var init, last := s[..|s| - 1], s[|s| - 1];
      assert Pairwise(init, rel) by {
        forall i, j | 0 <= i < j < |init| ensures rel(init[i], init[j]) {
          assert init[i] == s[i] && init[j] == s[j];
        }
      }
      FilterPairwise(init, keep, rel);
      if keep(last) {
        forall y | y in Filter(init, keep) ensures rel(y, last) {
          var k :| 0 <= k < |init| && init[k] == y;
          assert s[k] == y;
        }
        PairwiseAppend(Filter(init, keep), last, rel);
      } else {
        assert Filter(s, keep) == Filter(init, keep) + [];
      }
    }
  }

  /** How many elements of `s` satisfy `p`. */
  function Count<T(!new)>(s: seq<T>, p: T -> bool): (n: nat)
    ensures n <= |s|
    ensures n == 0 <==> forall x :: x in s ==> !p(x)
  {
    if s == [] then 0
    else
      var init := s[..|s| - 1];
      assert s == init + [s[|s| - 1]];
      Count(init, p) + (if p(s[|s| - 1]) then 1 else 0)
  }

  /** Appending one element adds one to the count exactly when it matches. */
  lemma {:induction false} CountAppend<T(!new)>(s: seq<T>, x: T, p: T -> bool)
    ensures Count(s + [x], p) == Count(s, p) + (if p(x) then 1 else 0)
  {
    assert (s + [x])[..|s|] == s;
  }

  /** The rows a filter keeps are as many as the rows its predicate counts. */
  lemma {:induction false} FilterLength<T(!new)>(s: seq<T>, keep: T -> bool)
    ensures |Filter(s, keep)| == Count(s, keep)
  {
    if s != [] {
      var init, last := s[..|s| - 1], s[|s| - 1];
      FilterLength(init, keep);
      assert Count(s, keep) == Count(init, keep) + (if keep(last) then 1 else 0);
    }
  }

  /** Filtering out rows that `p` never matches leaves the count of `p` as it was. */
  lemma {:induction false} FilterKeepsCount<T(!new)>(s: seq<T>, keep: T -> bool, p: T -> bool)
    requires forall x :: p(x) ==> keep(x)
    ensures Count(Filter(s, keep), p) == Count(s, p)
  {
    if s != [] {
      var init, last := s[..|s| - 1], s[|s| - 1];
      FilterKeepsCount(init, keep, p);
      assert Count(s, p) == Count(init, p) + (if p(last) then 1 else 0);
      if keep(last) {
        assert Filter(s, keep) == Filter(init, keep) + [last];
        CountAppend(Filter(init, keep), last, p);
      } else {
        assert Filter(s, keep) == Filter(init, keep);
      }
    }
  }
}
