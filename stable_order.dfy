/**
  The order `pairs.sort(key=lambda x: abs(x[1]), reverse=True)` leaves a list in:
  Python's sort is stable, also with `reverse=True`, so entries come by
  non-increasing key and entries with equal keys keep their original positions.
  Orders are given as index lists over the keys.
 */
module StableOrder {
  import opened PySeq

  function Abs(x: real): (r: real)
    ensures r >= 0.0 && (r == x || r == -x)
  {
    if x < 0.0 then -x else x
  }

  /** Position `a` comes before position `b` in a stable descending sort of `keys`. */
  predicate Before(keys: seq<real>, a: nat, b: nat)
    requires a < |keys| && b < |keys|
  {
    keys[a] > keys[b] || (keys[a] == keys[b] && a < b)
  }

  /** `order` lists each position `0..n` exactly once, in stable descending order of
      `keys`. */
  ghost predicate StablyDescendingUpTo(keys: seq<real>, order: seq<nat>, n: nat)
    requires n <= |keys|
  {
    && |order| == n
    && InRange(order, n)
    && (forall x :: 0 <= x < n ==> x in order)
    && (forall s, t :: 0 <= s < t < |order| ==> Before(keys, order[s], order[t]))
  }

  /** `order` is the stable descending order of all of `keys`. */
  ghost predicate StablyDescending(keys: seq<real>, order: seq<nat>) {
    StablyDescendingUpTo(keys, order, |keys|)
  }

  /** Two lists of distinct positions that are both sorted by `Before` and hold the
      same positions are the same list. */
  lemma {:induction false} SortedByBeforeUnique(keys: seq<real>, o1: seq<nat>, o2: seq<nat>)
    requires InRange(o1, |keys|) && InRange(o2, |keys|)
    requires forall s, t :: 0 <= s < t < |o1| ==> Before(keys, o1[s], o1[t])
    requires forall s, t :: 0 <= s < t < |o2| ==> Before(keys, o2[s], o2[t])
    requires forall x :: x in o1 <==> x in o2
    ensures o1 == o2
  {
    if o1 == [] {
      NonEmptyHoldsHead(o2);
    } else {
      assert o1[0] in o1 && o1[0] in o2;
      assert o2[0] in o2 && o2[0] in o1;
      var j :| 0 <= j < |o2| && o2[j] == o1[0];
      var i :| 0 <= i < |o1| && o1[i] == o2[0];
      assert o1[0] == o2[0];
      forall x ensures x in o1[1..] <==> x in o2[1..] {
        if x in o1[1..] {
          var s :| 1 <= s < |o1| && o1[s] == x;
          assert x != o1[0];
          assert x in o2;
          var t :| 0 <= t < |o2| && o2[t] == x;
          assert t != 0;
        }
        if x in o2[1..] {
          var t :| 1 <= t < |o2| && o2[t] == x;
          assert x != o2[0];
          assert x in o1;
          var s :| 0 <= s < |o1| && o1[s] == x;
          assert s != 0;
        }
      }
      SortedByBeforeUnique(keys, o1[1..], o2[1..]);
      assert o1 == [o1[0]] + o1[1..] && o2 == [o2[0]] + o2[1..];
    }
  }

  lemma NonEmptyHoldsHead(o: seq<nat>)
    ensures o != [] ==> o[0] in o
  {
  }

  /** There is only one stable descending order: sorting is deterministic. */
  lemma StablyDescendingUnique(keys: seq<real>, o1: seq<nat>, o2: seq<nat>)
    requires StablyDescending(keys, o1) && StablyDescending(keys, o2)
    ensures o1 == o2
  {
    forall x ensures x in o1 <==> x in o2 {
      if x in o1 {
        var s :| 0 <= s < |o1| && o1[s] == x;
      }
      if x in o2 {
        var t :| 0 <= t < |o2| && o2[t] == x;
      }
    }
    SortedByBeforeUnique(keys, o1, o2);
  }

  /** Inserting position `i` (larger than every listed one) after all positions whose
      key is at least `keys[i]` extends a stable order of `0..i` to one of `0..i+1`. */
  lemma InsertKeepsStable(keys: seq<real>, order: seq<nat>, i: nat, p: nat)
    requires i < |keys| && StablyDescendingUpTo(keys, order, i) && p <= |order|
    requires forall q :: 0 <= q < p ==> keys[order[q]] >= keys[i]
    requires p < |order| ==> keys[order[p]] < keys[i]
    ensures StablyDescendingUpTo(keys, order[..p] + [i] + order[p..], i + 1)
  {
    var o := order[..p] + [i] + order[p..];
    assert forall q :: 0 <= q < p ==> o[q] == order[q];
    assert o[p] == i;
    assert forall q :: p < q < |o| ==> o[q] == order[q - 1];
    forall q | p <= q < |order| ensures keys[order[q]] < keys[i] {
      if q > p {
        assert Before(keys, order[p], order[q]);
      }
    }
    forall x | 0 <= x < i + 1 ensures x in o {
      if x < i {
        assert x in order;
        var q :| 0 <= q < |order| && order[q] == x;
        if q < p {
          assert o[q] == x;
        } else {
          assert o[q + 1] == x;
        }
      }
    }
  }

  /** Insertion sort of the positions `0..|keys|` into stable descending key order. */
  method SortDescending(keys: seq<real>) returns (order: seq<nat>)
    ensures StablyDescending(keys, order)
  {
    order := [];
    var i := 0;
    while i < |keys|
      invariant 0 <= i <= |keys|
      invariant StablyDescendingUpTo(keys, order, i)
    {
      var p := 0;
      while p < |order| && keys[order[p]] >= keys[i]
        invariant 0 <= p <= |order|
        invariant forall q :: 0 <= q < p ==> keys[order[q]] >= keys[i]
      {
        p := p + 1;
      }
      InsertKeepsStable(keys, order, i, p);
      order := order[..p] + [i] + order[p..];
      i := i + 1;
    }
  }
}
