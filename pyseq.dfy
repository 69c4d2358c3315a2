/**
  Sequence operations of Python and NumPy that the explanation code relies on:
  slicing with Python's bound normalisation, reversal with `[::-1]`, and
  `np.argsort`, specified by what every correct argsort returns.
 */
module PySeq {

  function Min(a: int, b: int): int {
    if a <= b then a else b
  }

  /** Python's normalisation of a slice bound `i` against a sequence of length `n`:
      a negative bound counts from the end, and every bound is clamped to `0..n`. */
  function SliceBound(i: int, n: nat): (b: nat)
    ensures b <= n
    ensures i >= 0 ==> b == Min(i, n)
    ensures i < 0 ==> b == n - Min(-i, n)
  {
    if i < 0 then (if i + n < 0 then 0 else i + n)
    else if i > n then n
    else i
  }

  /** `s[start:]`: a suffix of `s`; `s[-k:]` keeps the last `min(k, |s|)` elements. */
  function From<T>(s: seq<T>, start: int): (r: seq<T>)
    ensures |r| <= |s| && r == s[|s| - |r|..]
    ensures start < 0 ==> |r| == Min(-start, |s|)
    ensures start >= 0 ==> |r| == |s| - Min(start, |s|)
  {
    s[SliceBound(start, |s|)..]
  }

  /** `s[:stop]`: a prefix of `s`; `s[:k]` keeps the first `min(k, |s|)` elements. */
  function To<T>(s: seq<T>, stop: int): (r: seq<T>)
    ensures |r| <= |s| && r == s[..|r|]
    ensures stop >= 0 ==> |r| == Min(stop, |s|)
    ensures stop < 0 ==> |r| == |s| - Min(-stop, |s|)
  {
    s[..SliceBound(stop, |s|)]
  }

  /** `s[:i] + s[i:] == s` for every bound `i`. */
  lemma SlicesPartition<T>(s: seq<T>, i: int)
    ensures To(s, i) + From(s, i) == s
  {
    var b := SliceBound(i, |s|);
    assert s == s[..b] + s[b..];
  }

  /** `s[::-1]`: the elements of `s` last to first. */
  function Reverse<T>(s: seq<T>): (r: seq<T>)
    ensures |r| == |s|
    ensures forall i :: 0 <= i < |s| ==> r[i] == s[|s| - 1 - i]
  {
    seq(|s|, i requires 0 <= i < |s| => s[|s| - 1 - i])
  }

  /** Reversing twice gives the sequence back. */
  lemma ReverseReverse<T>(s: seq<T>)
    ensures Reverse(Reverse(s)) == s
  {
  }

  /** Every element of `p` is an index into a sequence of length `n`. */
  predicate InRange(p: seq<nat>, n: nat) {
    forall t :: 0 <= t < |p| ==> p[t] < n
  }

  predicate Distinct<T(==)>(p: seq<T>) {
    forall s, t :: 0 <= s < t < |p| ==> p[s] != p[t]
  }

  /** `perm` lists each index `0..n` exactly once. */
  ghost predicate IsPermutation(perm: seq<nat>, n: nat) {
    |perm| == n && InRange(perm, n) && Distinct(perm) && forall x :: 0 <= x < n ==> x in perm
  }

  /** `s[order]`: the entries of `s` at the positions `order`, in that order. */
  function Permute<T>(s: seq<T>, order: seq<nat>): (r: seq<T>)
    requires InRange(order, |s|)
    ensures |r| == |order|
  {
    seq(|order|, t requires 0 <= t < |order| => s[order[t]])
  }

  /** The indices `p` list their weights in non-decreasing order. */
  predicate SortedBy(w: seq<real>, p: seq<nat>)
    requires InRange(p, |w|)
  {
    forall s, t :: 0 <= s < t < |p| ==> w[p[s]] <= w[p[t]]
  }

  /** `p` is an argsort of `w`: a permutation of `0..|w|` that lists the weights in
      non-decreasing order. Nothing is said about the order of equal weights, since
      NumPy's default sort is not stable. */
  ghost predicate IsArgsort(w: seq<real>, p: seq<nat>) {
    && |p| == |w|
    && InRange(p, |w|)
    && (forall x :: 0 <= x < |w| ==> x in p)
    && Distinct(p)
    && SortedBy(w, p)
  }

  /** Inserts index `i` into the sorted index list `p`, before the first index whose
      weight is at least `w[i]`. */
  function Insert(w: seq<real>, p: seq<nat>, i: nat): (r: seq<nat>)
    requires i < |w| && InRange(p, |w|) && SortedBy(w, p)
    ensures |r| == |p| + 1
    ensures forall x :: x in r <==> x in p || x == i
    ensures InRange(r, |w|)
  {
    if p == [] || w[i] <= w[p[0]] then [i] + p
    else
      var tail := Insert(w, p[1..], i);
      assert p == [p[0]] + p[1..];
      [p[0]] + tail
  }

  /** Inserting keeps the index list sorted by weight. */
  lemma {:induction false} InsertSorted(w: seq<real>, p: seq<nat>, i: nat)
    requires i < |w| && InRange(p, |w|) && SortedBy(w, p)
    ensures SortedBy(w, Insert(w, p, i))
  {
    var r := Insert(w, p, i);
    if p == [] || w[i] <= w[p[0]] {
      assert r == [i] + p;
      forall s, t | 0 <= s < t < |r| ensures w[r[s]] <= w[r[t]] {
        assert r[t] == p[t - 1];
        if s > 0 {
          assert r[s] == p[s - 1];
        } else {
          assert w[p[0]] <= w[p[t - 1]];
        }
      }
    } else {
      var tail := Insert(w, p[1..], i);
      InsertSorted(w, p[1..], i);
      assert r == [p[0]] + tail;
      forall s, t | 0 <= s < t < |r| ensures w[r[s]] <= w[r[t]] {
        assert r[t] == tail[t - 1];
        if s > 0 {
          assert r[s] == tail[s - 1];
        } else {
          assert tail[t - 1] in tail;
          if tail[t - 1] != i {
            var u :| 0 <= u < |p[1..]| && p[1..][u] == tail[t - 1];
            assert p[u + 1] == tail[t - 1];
          }
        }
      }
    }
  }

  /** Inserting an index not yet listed keeps the list free of repeats. */
  lemma {:induction false} InsertDistinct(w: seq<real>, p: seq<nat>, i: nat)
    requires i < |w| && InRange(p, |w|) && SortedBy(w, p)
    requires Distinct(p) && i !in p
    ensures Distinct(Insert(w, p, i))
  {
    var r := Insert(w, p, i);
    if p == [] || w[i] <= w[p[0]] {
      assert r == [i] + p;
      forall s, t | 0 <= s < t < |r| ensures r[s] != r[t] {
        assert r[t] == p[t - 1];
        if s > 0 {
          assert r[s] == p[s - 1];
        }
      }
    } else {
      var tail := Insert(w, p[1..], i);
      assert p == [p[0]] + p[1..];
      InsertDistinct(w, p[1..], i);
      assert r == [p[0]] + tail;
      forall s, t | 0 <= s < t < |r| ensures r[s] != r[t] {
        assert r[t] == tail[t - 1];
        if s > 0 {
          assert r[s] == tail[s - 1];
        } else {
          assert tail[t - 1] in tail;
          if tail[t - 1] != i {
            var u :| 0 <= u < |p[1..]| && p[1..][u] == tail[t - 1];
            assert p[u + 1] == tail[t - 1];
          }
        }
      }
    }
  }

  /** An argsort of the indices `0..n`. */
  function ArgsortPrefix(w: seq<real>, n: nat): (r: seq<nat>)
    requires n <= |w|
    ensures |r| == n && InRange(r, n) && Distinct(r) && SortedBy(w, r)
    ensures forall x :: x in r <==> 0 <= x < n
  {
    if n == 0 then []
    else
      var p := ArgsortPrefix(w, n - 1);
      assert InRange(p, |w|) && n - 1 !in p;
      var r := Insert(w, p, n - 1);
      InsertSorted(w, p, n - 1);
      InsertDistinct(w, p, n - 1);
      assert InRange(r, n) by {
        forall t | 0 <= t < |r| ensures r[t] < n {
          assert r[t] in r;
        }
      }
      r
  }

  /** One concrete argsort; the model promises only what `IsArgsort` says of it. */
  function Argsort(w: seq<real>): (r: seq<nat>)
    ensures IsArgsort(w, r)
  {
    ArgsortPrefix(w, |w|)
  }
}
