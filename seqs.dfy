/** Sequence combinators that stand for pandas' row-wise operations: applying a
    function to every row (a column assignment such as `data[c] = data[c].map(...)`)
    and keeping the rows a predicate selects (boolean indexing, `dropna`).
    Both recurse on the last element, so every index of a prefix is an index of
    the whole sequence. */
module Seqs {

  /** Applies `g` to every element, keeping the order. */
  function Map<S, T>(g: S -> T, s: seq<S>): (r: seq<T>)
    ensures |r| == |s|
    ensures forall i :: 0 <= i < |s| ==> r[i] == g(s[i])
  {
    if s == [] then [] else Map(g, s[..|s| - 1]) + [g(s[|s| - 1])]
  }

  /** Keeps the elements that satisfy `p`, in their original order. */
  function Filter<T(!new)>(p: T -> bool, s: seq<T>): (r: seq<T>)
    ensures |r| <= |s|
    ensures forall x :: x in r <==> x in s && p(x)
  {
    if s == [] then []
    else
      assert s == s[..|s| - 1] + [s[|s| - 1]];
      Filter(p, s[..|s| - 1]) + (if p(s[|s| - 1]) then [s[|s| - 1]] else [])
  }

  /** The indices at which `p` holds, in increasing order: an independent
      description of which elements `Filter` keeps. */
  function Positions<T>(p: T -> bool, s: seq<T>): (idx: seq<nat>)
    ensures forall k :: 0 <= k < |idx| ==> idx[k] < |s| && p(s[idx[k]])
    ensures forall k, l :: 0 <= k < l < |idx| ==> idx[k] < idx[l]
    ensures forall i :: 0 <= i < |s| && p(s[i]) ==> i in idx
  {
    if s == [] then []
    else
      var front := Positions(p, s[..|s| - 1]);
      assert forall k :: 0 <= k < |front| ==> s[..|s| - 1][front[k]] == s[front[k]];
      front + (if p(s[|s| - 1]) then [|s| - 1] else [])
  }

  /** The set of indices at which `p` holds. */
  function Matching<T>(p: T -> bool, s: seq<T>): set<nat>
  {
    set i: nat | i < |s| && p(s[i])
  }

  /** `Filter` is the order-preserving subsequence picked out by `Positions`:
      its k-th element is the element at the k-th matching index. */
  lemma {:induction false} FilterAtPositions<T(!new)>(p: T -> bool, s: seq<T>)
    ensures |Filter(p, s)| == |Positions(p, s)|
    ensures forall k :: 0 <= k < |Filter(p, s)| ==> Filter(p, s)[k] == s[Positions(p, s)[k]]
  {
    if s != [] {
      var n := |s| - 1;
      var front := s[..n];
      FilterAtPositions(p, front);
      var kept, idx := Filter(p, front), Positions(p, front);
      assert Filter(p, s) == kept + (if p(s[n]) then [s[n]] else []);
      assert Positions(p, s) == idx + (if p(s[n]) then [n] else []);
      forall k | 0 <= k < |Filter(p, s)| ensures Filter(p, s)[k] == s[Positions(p, s)[k]] {
        if k < |kept| {
          assert Filter(p, s)[k] == kept[k] && Positions(p, s)[k] == idx[k];
          assert front[idx[k]] == s[idx[k]];
        }
      }
    }
  }

  /** The matching indices of a sequence are those of its prefix, plus the last
      index when the last element matches. */
  lemma MatchingSnoc<T>(p: T -> bool, s: seq<T>)
    requires s != []
    ensures Matching(p, s) == Matching(p, s[..|s| - 1]) + (if p(s[|s| - 1]) then {|s| - 1} else {})
  {
    var n := |s| - 1;
    forall i: nat ensures i in Matching(p, s) <==> i in Matching(p, s[..n]) + (if p(s[n]) then {n} else {}) {
      if i < n {
        assert s[..n][i] == s[i];
      }
    }
  }

  /** `Filter` keeps exactly as many elements as there are matching indices. */
  lemma {:induction false} FilterCount<T(!new)>(p: T -> bool, s: seq<T>)
    ensures |Filter(p, s)| == |Matching(p, s)|
  {
    if s != [] {
      var n := |s| - 1;
      FilterCount(p, s[..n]);
      MatchingSnoc(p, s);
      assert n !in Matching(p, s[..n]);
    }
  }

  /** An element that fails `p` makes the filtered sequence shorter. */
  lemma {:induction false} FilterDropsRejected<T(!new)>(p: T -> bool, s: seq<T>, i: nat)
    requires i < |s| && !p(s[i])
    ensures |Filter(p, s)| < |s|
  {
    var front := s[..|s| - 1];
    if i < |s| - 1 {
      assert front[i] == s[i];
      FilterDropsRejected(p, front, i);
    }
  }

  /** Filtering a second time with the same predicate changes nothing. */
  lemma {:induction false} FilterIdempotent<T(!new)>(p: T -> bool, s: seq<T>)
    ensures Filter(p, Filter(p, s)) == Filter(p, s)
  {
    if s != [] {
      var front := s[..|s| - 1];
      FilterIdempotent(p, front);
      var r := Filter(p, s);
      if p(s[|s| - 1]) {
        assert r[..|r| - 1] == Filter(p, front);
      } else {
        assert r == Filter(p, front);
      }
    }
  }

  /** A map whose function never changes the outcome of `p` commutes with
      filtering by `p`. */
  lemma {:induction false} FilterMapCommute<S(!new)>(p: S -> bool, g: S -> S, s: seq<S>)
    requires forall x :: p(g(x)) == p(x)
    ensures Filter(p, Map(g, s)) == Map(g, Filter(p, s))
  {
    if s != [] {
      var front := s[..|s| - 1];
      FilterMapCommute(p, g, front);
      assert Map(g, s)[..|s| - 1] == Map(g, front);
      var r := Filter(p, s);
      if p(s[|s| - 1]) {
        assert r[..|r| - 1] == Filter(p, front);
      }
    }
  }

  /** Mapping with a function twice is mapping with it once when the function
      is idempotent. */
  lemma MapIdempotent<S>(g: S -> S, s: seq<S>)
    requires forall x :: g(g(x)) == g(x)
    ensures Map(g, Map(g, s)) == Map(g, s)
  {
  }
}
