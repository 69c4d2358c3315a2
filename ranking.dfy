/**
  Top-k selection by coefficient, shared by `top_global_features` (app.py) and
  `top_global_ngrams` (utils.py): `np.argsort(w)[-k:][::-1]` picks the largest
  weights in descending order and `np.argsort(w)[:k]` the smallest in ascending
  order. Both are stated for every argsort, so no tie order is promised.
 */
module Ranking {
  import opened PySeq

  /** `idx` lists distinct indices of `w` by non-increasing weight, and every index
      left out weighs no more than any index chosen. */
  ghost predicate SelectsLargest(w: seq<real>, idx: seq<nat>) {
    && InRange(idx, |w|)
    && Distinct(idx)
    && (forall s, t :: 0 <= s < t < |idx| ==> w[idx[s]] >= w[idx[t]])
    && (forall x, t :: 0 <= x < |w| && x !in idx && 0 <= t < |idx| ==> w[x] <= w[idx[t]])
  }

  /** `idx` lists distinct indices of `w` by non-decreasing weight, and every index
      left out weighs at least as much as any index chosen. */
  ghost predicate SelectsSmallest(w: seq<real>, idx: seq<nat>) {
    && InRange(idx, |w|)
    && Distinct(idx)
    && (forall s, t :: 0 <= s < t < |idx| ==> w[idx[s]] <= w[idx[t]])
    && (forall x, t :: 0 <= x < |w| && x !in idx && 0 <= t < |idx| ==> w[x] >= w[idx[t]])
  }

  /** `order[-k:][::-1]` for an argsort `order` of `w`. With `k == 0` Python's slice
      `[-0:]` is the whole array, so every index is returned. */
  function TopPositive(w: seq<real>, order: seq<nat>, k: int): (idx: seq<nat>)
    requires IsArgsort(w, order)
    ensures SelectsLargest(w, idx)
    ensures k >= 1 ==> |idx| == Min(k, |w|)
    ensures k == 0 ==> |idx| == |w|
  {
    SuffixSelectsLargest(w, order, SliceBound(-k, |order|));
    Reverse(From(order, -k))
  }

  /** `order[:k]` for an argsort `order` of `w`; empty when `k == 0`. */
  function TopNegative(w: seq<real>, order: seq<nat>, k: int): (idx: seq<nat>)
    requires IsArgsort(w, order)
    ensures SelectsSmallest(w, idx)
    ensures k >= 0 ==> |idx| == Min(k, |w|)
  {
    PrefixSelectsSmallest(w, order, SliceBound(k, |order|));
    To(order, k)
  }

  lemma {:induction false} SuffixSelectsLargest(w: seq<real>, order: seq<nat>, b: nat)
    requires IsArgsort(w, order) && b <= |order|
    ensures SelectsLargest(w, Reverse(order[b..]))
  {
    var n := |order|;
    var idx := Reverse(order[b..]);
    assert forall t :: 0 <= t < |idx| ==> idx[t] == order[n - 1 - t];
    assert forall q :: b <= q < n ==> order[q] in idx by {
      forall q | b <= q < n ensures order[q] in idx {
        assert idx[n - 1 - q] == order[q];
      }
    }
    forall x, t | 0 <= x < |w| && x !in idx && 0 <= t < |idx|
      ensures w[x] <= w[idx[t]]
    {
      assert x in order;
      var q :| 0 <= q < n && order[q] == x;
      assert q < b;
    }
  }

  lemma {:induction false} PrefixSelectsSmallest(w: seq<real>, order: seq<nat>, b: nat)
    requires IsArgsort(w, order) && b <= |order|
    ensures SelectsSmallest(w, order[..b])
  {
    var idx := order[..b];
    assert forall q :: 0 <= q < b ==> order[q] in idx by {
      forall q | 0 <= q < b ensures order[q] in idx {
        assert idx[q] == order[q];
      }
    }
    forall x, t | 0 <= x < |w| && x !in idx && 0 <= t < |idx|
      ensures w[x] >= w[idx[t]]
    {
      assert x in order;
      var q :| 0 <= q < |order| && order[q] == x;
      assert q >= b;
    }
  }

  /** The `t`-th chosen index carries the largest weight among all indices not chosen
      before it. */
  lemma LargestInTurn(w: seq<real>, idx: seq<nat>, t: nat)
    requires SelectsLargest(w, idx) && t < |idx|
    ensures forall x :: 0 <= x < |w| && x !in idx[..t] ==> w[x] <= w[idx[t]]
  {
    forall x | 0 <= x < |w| && x !in idx[..t] ensures w[x] <= w[idx[t]] {
      if x in idx {
        var s :| 0 <= s < |idx| && idx[s] == x;
        assert s >= t;
      }
    }
  }

  /** The `t`-th chosen index carries the smallest weight among all indices not chosen
      before it. */
  lemma SmallestInTurn(w: seq<real>, idx: seq<nat>, t: nat)
    requires SelectsSmallest(w, idx) && t < |idx|
    ensures forall x :: 0 <= x < |w| && x !in idx[..t] ==> w[x] >= w[idx[t]]
  {
    forall x | 0 <= x < |w| && x !in idx[..t] ensures w[x] >= w[idx[t]] {
      if x in idx {
        var s :| 0 <= s < |idx| && idx[s] == x;
        assert s >= t;
      }
    }
  }

  /** Every weight multiplied by the same factor `c`. */
  function Scale(w: seq<real>, c: real): (r: seq<real>)
    ensures |r| == |w|
  {
    seq(|w|, i requires 0 <= i < |w| => c * w[i])
  }

  /** Every weight negated, as when the two class labels trade places. */
  function Negate(w: seq<real>): (r: seq<real>)
    ensures |r| == |w|
  {
    seq(|w|, i requires 0 <= i < |w| => -w[i])
  }

  lemma ScaleMonotone(c: real, a: real, b: real)
    requires c > 0.0 && a <= b
    ensures c * a <= c * b
  {
    assert c * b - c * a == c * (b - a);
  }

  /** Scaling every coefficient by a positive constant keeps a selection of the
      largest weights a selection of the largest weights. */
  lemma {:induction false} ScalingPreservesLargest(w: seq<real>, idx: seq<nat>, c: real)
    requires c > 0.0 && SelectsLargest(w, idx)
    ensures SelectsLargest(Scale(w, c), idx)
  {
    var v := Scale(w, c);
    forall s, t | 0 <= s < t < |idx| ensures v[idx[s]] >= v[idx[t]] {
      ScaleMonotone(c, w[idx[t]], w[idx[s]]);
    }
    forall x, t | 0 <= x < |v| && x !in idx && 0 <= t < |idx| ensures v[x] <= v[idx[t]] {
      ScaleMonotone(c, w[x], w[idx[t]]);
    }
  }

  /** Scaling every coefficient by a positive constant keeps a selection of the
      smallest weights a selection of the smallest weights. */
  lemma {:induction false} ScalingPreservesSmallest(w: seq<real>, idx: seq<nat>, c: real)
    requires c > 0.0 && SelectsSmallest(w, idx)
    ensures SelectsSmallest(Scale(w, c), idx)
  {
    var v := Scale(w, c);
    forall s, t | 0 <= s < t < |idx| ensures v[idx[s]] <= v[idx[t]] {
      ScaleMonotone(c, w[idx[s]], w[idx[t]]);
    }
    forall x, t | 0 <= x < |v| && x !in idx && 0 <= t < |idx| ensures v[x] >= v[idx[t]] {
      ScaleMonotone(c, w[idx[t]], w[x]);
    }
  }

  /** Negating the coefficients turns a selection of the largest weights into a
      selection of the smallest and back. */
  lemma NegationSwapsSelections(w: seq<real>, idx: seq<nat>)
    ensures SelectsLargest(w, idx) <==> SelectsSmallest(Negate(w), idx)
  {
  }
}
