/** The two array built-ins the portfolio uses on its project list:
    `Array.prototype.filter` and `Array.prototype.slice`. */
module JsArray {

  /** `xs.filter(keep)`: the elements for which `keep` holds, in their order. */
  function Filter<T>(xs: seq<T>, keep: T -> bool): (r: seq<T>)
    ensures |r| <= |xs|
    decreases |xs|
  {
    if xs == [] then []
    else (if keep(xs[0]) then [xs[0]] else []) + Filter(xs[1..], keep)
  }

  /** `r` holds the elements of `xs` at the strictly increasing positions `idx`,
      and those positions are exactly the ones whose element satisfies `keep`. */
  ghost predicate SelectedBy<T>(r: seq<T>, xs: seq<T>, idx: seq<nat>, keep: T -> bool)
  {
    && |idx| == |r|
    && (forall k :: 0 <= k < |idx| ==> idx[k] < |xs| && r[k] == xs[idx[k]])
    && (forall k, l :: 0 <= k < l < |idx| ==> idx[k] < idx[l])
    && (forall i :: 0 <= i < |xs| ==> (keep(xs[i]) <==> i in idx))
  }

  /** The filtered list is the order-preserving selection of the elements that satisfy `keep`. */
  lemma {:induction false} FilterSelects<T>(xs: seq<T>, keep: T -> bool)
    ensures exists idx :: SelectedBy(Filter(xs, keep), xs, idx, keep)
    decreases |xs|
  {
    if xs == [] {
      assert SelectedBy(Filter(xs, keep), xs, [], keep);
    } else {
      FilterSelects(xs[1..], keep);
      var idx' :| SelectedBy(Filter(xs[1..], keep), xs[1..], idx', keep);
      assert xs == [xs[0]] + xs[1..];
      var idx := SelectCons(xs[0], xs[1..], Filter(xs[1..], keep), keep, idx');
      assert SelectedBy(Filter(xs, keep), xs, idx, keep);
    }
  }

  /** The positions selected from `[x] + rest`, given those selected from `rest`. */
  function ConsIndices(takeHead: bool, idx': seq<nat>): (idx: seq<nat>)
    ensures |idx| == |idx'| + (if takeHead then 1 else 0)
  {
    (if takeHead then [0] else []) + seq(|idx'|, k requires 0 <= k < |idx'| => idx'[k] + 1)
  }

  /** The inductive step of FilterSelects: a selection from the tail extends to
      one from the whole list, the head taken when it satisfies `keep`. */
  lemma SelectCons<T>(x: T, rest: seq<T>, tail: seq<T>, keep: T -> bool, idx': seq<nat>)
    returns (idx: seq<nat>)
    requires SelectedBy(tail, rest, idx', keep)
    ensures SelectedBy((if keep(x) then [x] else []) + tail, [x] + rest, idx, keep)
  {
    idx := ConsIndices(keep(x), idx');
    ConsPositions(x, rest, tail, keep, idx');
    ConsIncreasing(keep(x), idx');
    ConsKept(x, rest, tail, keep, idx');
  }

  lemma ConsPositions<T>(x: T, rest: seq<T>, tail: seq<T>, keep: T -> bool, idx': seq<nat>)
    requires SelectedBy(tail, rest, idx', keep)
    ensures var idx, r := ConsIndices(keep(x), idx'), (if keep(x) then [x] else []) + tail;
      forall k :: 0 <= k < |idx| ==> idx[k] < |[x] + rest| && r[k] == ([x] + rest)[idx[k]]
  {
    var xs := [x] + rest;
    var r := (if keep(x) then [x] else []) + tail;
    var h := if keep(x) then 1 else 0;
    var idx := ConsIndices(keep(x), idx');
    forall k | 0 <= k < |idx|
      ensures idx[k] < |xs| && r[k] == xs[idx[k]]
    {
      if k >= h {
        assert idx[k] == idx'[k - h] + 1;
        assert r[k] == tail[k - h];
        assert xs[idx[k]] == rest[idx'[k - h]];
      }
    }
  }

  lemma ConsIncreasing(takeHead: bool, idx': seq<nat>)
    requires forall k, l :: 0 <= k < l < |idx'| ==> idx'[k] < idx'[l]
    ensures var idx := ConsIndices(takeHead, idx');
      forall k, l :: 0 <= k < l < |idx| ==> idx[k] < idx[l]
  {
    var h := if takeHead then 1 else 0;
    var idx := ConsIndices(takeHead, idx');
    forall k, l | 0 <= k < l < |idx|
      ensures idx[k] < idx[l]
    {
      if k >= h {
        assert idx[k] == idx'[k - h] + 1 && idx[l] == idx'[l - h] + 1;
      }
    }
  }

  lemma ConsKept<T>(x: T, rest: seq<T>, tail: seq<T>, keep: T -> bool, idx': seq<nat>)
    requires SelectedBy(tail, rest, idx', keep)
    ensures var idx := ConsIndices(keep(x), idx');
      forall i :: 0 <= i < |[x] + rest| ==> (keep(([x] + rest)[i]) <==> i in idx)
  {
    var xs := [x] + rest;
    var h := if keep(x) then 1 else 0;
    var idx := ConsIndices(keep(x), idx');
    forall i | 0 <= i < |xs|
      ensures keep(xs[i]) <==> i in idx
    {
      if i > 0 {
        assert xs[i] == rest[i - 1];
        if i - 1 in idx' {
          var k :| 0 <= k < |idx'| && idx'[k] == i - 1;
          assert idx[k + h] == i;
        }
        if i in idx {
          var k :| 0 <= k < |idx| && idx[k] == i;
          assert k >= h;
          assert idx'[k - h] == i - 1;
        }
      }
    }
  }

  /** Membership form: an element is kept iff it is in the list and satisfies `keep`. */
  lemma {:induction false} FilterMembership<T>(xs: seq<T>, keep: T -> bool, x: T)
    ensures x in Filter(xs, keep) <==> x in xs && keep(x)
    decreases |xs|
  {
    if xs != [] {
      FilterMembership(xs[1..], keep, x);
      assert xs == [xs[0]] + xs[1..];
    }
  }

  /** When every element satisfies `keep`, filtering gives back the list unchanged. */
  lemma {:induction false} FilterKeepsAll<T>(xs: seq<T>, keep: T -> bool)
    requires forall i :: 0 <= i < |xs| ==> keep(xs[i])
    ensures Filter(xs, keep) == xs
    decreases |xs|
  {
    if xs != [] {
      FilterKeepsAll(xs[1..], keep);
      assert xs == [xs[0]] + xs[1..];
    }
  }

  ghost predicate Distinct<T>(s: seq<T>)
  {
    forall i, j :: 0 <= i < j < |s| ==> s[i] != s[j]
  }

  /** A list without repeated elements filters to a list without repeated elements. */
  lemma {:induction false} FilterKeepsDistinct<T>(xs: seq<T>, keep: T -> bool)
    requires Distinct(xs)
    ensures Distinct(Filter(xs, keep))
    decreases |xs|
  {
    if xs != [] {
      assert Distinct(xs[1..]);
      FilterKeepsDistinct(xs[1..], keep);
      if keep(xs[0]) {
        FilterMembership(xs[1..], keep, xs[0]);
        assert xs[0] !in xs[1..];
      }
    }
  }

  function Min(a: int, b: int): int
  {
    if a <= b then a else b
  }

  /** `xs.slice(start, end)` for non-negative bounds: both are clamped to the
      length, and an empty list comes back when `start` is not below `end`. */
  function Slice<T>(xs: seq<T>, start: nat, end: nat): (r: seq<T>)
    ensures |r| == if Min(start, |xs|) <= Min(end, |xs|) then Min(end, |xs|) - Min(start, |xs|) else 0
    ensures forall k :: 0 <= k < |r| ==> start + k < |xs| && r[k] == xs[start + k]
  {
    var lo := Min(start, |xs|);
    var hi := Min(end, |xs|);
    if lo <= hi then xs[lo..hi] else []
  }

  /** A slice is empty exactly when it starts at or past the end of the list (for `start <= end`). */
  lemma SliceEmptyIff<T>(xs: seq<T>, start: nat, end: nat)
    requires start < end
    ensures Slice(xs, start, end) == [] <==> start >= |xs|
  {
  }
}
