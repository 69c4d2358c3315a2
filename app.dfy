/**
  The helpers of the single-file app (app.py): the SMILES look-alike test, the
  probability read-out, the global ranking of coefficients and the local
  per-feature contributions of one molecule.
 */
module App {
  import opened Wrappers
  import opened PySeq
  import opened PyStr
  import opened Linear
  import opened Ranking
  import opened StableOrder

  /** The characters whose presence makes a text look like SMILES rather than a name. */
  const SmilesChars: set<char> := set c | c in "=#[]()\\/+-@0123456789"

  /** `any(ch in smiles_chars for ch in t)` */
  function AnySmilesChar(t: string): (r: bool)
    ensures r <==> exists i :: 0 <= i < |t| && t[i] in SmilesChars
  {
    if t == [] then false
    else t[0] in SmilesChars || AnySmilesChar(t[1..])
  }

  /** `looks_like_smiles`: the empty text never looks like SMILES; otherwise the
      stripped text must be at least six characters long and hold at least one
      SMILES character. */
  function LooksLikeSmiles(text: string): (r: bool)
    ensures text == [] ==> !r
    ensures r <==> |Strip(text, Whitespace)| >= 6
                   && exists i :: 0 <= i < |Strip(text, Whitespace)| && Strip(text, Whitespace)[i] in SmilesChars
  {
    if text == [] then false
    else
      var t := Strip(text, Whitespace);
      AnySmilesChar(t) && |t| >= 6
  }

  /** Leading and trailing whitespace never change whether a text looks like SMILES. */
  lemma LooksLikeSmilesIgnoresPadding(a: string, text: string, b: string)
    requires AllIn(a, Whitespace) && AllIn(b, Whitespace)
    ensures LooksLikeSmiles(a + text + b) == LooksLikeSmiles(text)
  {
    StripIgnoresPadding(a, text, b, Whitespace);
  }

  /** `predict_proba`: column 1 of `predict_proba` when the model has one, else the
      predicted label as a number. A single-column probability row makes `[0, 1]`
      fail. */
  function PredictProba(s: Scores): (r: Result<real, Failure>)
    ensures s.proba.Some? ==> (r.Success? <==> |s.proba.value| >= 2)
    ensures s.proba.Some? && r.Success? ==> r.value == s.proba.value[1]
    ensures s.proba.None? ==> r == Success(s.predicted as real)
    ensures r.Failure? ==> r.error == ProbaColumnMissing
  {
    match s.proba
    case Some(row) => if |row| >= 2 then Success(row[1]) else Failure(ProbaColumnMissing)
    case None => Success(s.predicted as real)
  }

  /** `top_global_features`: with no `coef_`, two empty lists. Otherwise the raveled
      coefficients are ranked once by an argsort; the positive list pairs the chosen
      largest weights with their names in non-increasing order, the negative list the
      chosen smallest in non-decreasing order, and nothing left out outranks what was
      chosen. For `k >= 1` each list has `min(k, V)` entries; for `k == 0` the slice
      `[-0:]` makes the positive list the whole vocabulary and the negative one empty. */
  function TopGlobalFeatures(model: Estimator, names: seq<string>, k: int): (r: (seq<Feature>, seq<Feature>))
    requires model.coef.Some? ==> |Ravel(model.coef.value)| == |names|
    ensures model.coef.None? ==> r == ([], [])
    ensures model.coef.Some? ==>
      var w := Ravel(model.coef.value);
      && (exists idx :: SelectsLargest(w, idx) && r.0 == Pairs(names, w, idx))
      && (exists idx :: SelectsSmallest(w, idx) && r.1 == Pairs(names, w, idx))
      && (k >= 1 ==> |r.0| == Min(k, |w|) && |r.1| == Min(k, |w|))
      && (k == 0 ==> |r.0| == |w| && r.1 == [])
  {
    match model.coef
    case None => ([], [])
    case Some(c) =>
      var w := Ravel(c);
      var order := Argsort(w);
      (Pairs(names, w, TopPositive(w, order, k)), Pairs(names, w, TopNegative(w, order, k)))
  }

  /** Five features weighted `[3, -1, 0, 2, -5]` and `k = 2`: whatever argsort is
      used, the positive list is features 0 and 3 and the negative list features 4
      and 1, since no two weights tie. */
  lemma GlobalRankingExample(w: seq<real>, order: seq<nat>)
    requires w == [3.0, -1.0, 0.0, 2.0, -5.0] && IsArgsort(w, order)
    ensures TopPositive(w, order, 2) == [0, 3] && TopNegative(w, order, 2) == [4, 1]
  {
    ExampleLargest(w, TopPositive(w, order, 2));
    ExampleSmallest(w, TopNegative(w, order, 2));
  }

  lemma ExampleLargest(w: seq<real>, pos: seq<nat>)
    requires w == [3.0, -1.0, 0.0, 2.0, -5.0] && SelectsLargest(w, pos) && |pos| == 2
    ensures pos == [0, 3]
  {
    LargestInTurn(w, pos, 0);
    assert w[0] <= w[pos[0]];
    LargestInTurn(w, pos, 1);
    assert pos[..1] == [0];
    assert w[3] <= w[pos[1]];
  }

  lemma ExampleSmallest(w: seq<real>, neg: seq<nat>)
    requires w == [3.0, -1.0, 0.0, 2.0, -5.0] && SelectsSmallest(w, neg) && |neg| == 2
    ensures neg == [4, 1]
  {
    SmallestInTurn(w, neg, 0);
    assert w[4] >= w[neg[0]];
    SmallestInTurn(w, neg, 1);
    assert neg[..1] == [4];
    assert w[1] >= w[neg[1]];
  }

  /** `[(names[i], float(c)) for i, c in zip(inds, vals * coef[inds])]`: one entry per
      stored feature, in the vectorizer's order. */
  function Contributions(names: seq<string>, w: seq<real>, x: SparseRow): (pairs: seq<Feature>)
    requires x.Valid(|w|) && |names| == |w|
    ensures |pairs| == x.Nnz()
    ensures forall j :: 0 <= j < |pairs| ==> pairs[j] == Feature(names[x.indices[j]], x.values[j] * w[x.indices[j]])
  {
    seq(x.Nnz(), j requires 0 <= j < x.Nnz() => Feature(names[x.indices[j]], x.values[j] * w[x.indices[j]]))
  }

  /** `f` is the contribution of one stored feature: its name with its value times
      its coefficient. */
  ghost predicate ContributionOf(names: seq<string>, w: seq<real>, x: SparseRow, f: Feature)
    requires x.Valid(|w|) && |names| == |w|
  {
    exists j :: 0 <= j < x.Nnz() && f == Feature(names[x.indices[j]], x.values[j] * w[x.indices[j]])
  }

  /** The sort key of each entry: the magnitude of its contribution. */
  function Magnitudes(pairs: seq<Feature>): (m: seq<real>)
    ensures |m| == |pairs|
  {
    seq(|pairs|, j requires 0 <= j < |pairs| => Abs(pairs[j].value))
  }

  /** `local_contributions`: with no `coef_`, nothing. Otherwise each stored feature's
      value times its coefficient, stably sorted by magnitude (largest first, ties in
      vectorizer order), cut to the first `k` entries. */
  method LocalContributions(model: Estimator, names: seq<string>, x: SparseRow, k: int) returns (r: seq<Feature>)
    requires x.Valid(|names|)
    requires model.coef.Some? ==> |Ravel(model.coef.value)| == |names|
    ensures model.coef.None? ==> r == []
    ensures model.coef.Some? ==>
      var pairs := Contributions(names, Ravel(model.coef.value), x);
      exists order :: StablyDescending(Magnitudes(pairs), order) && r == To(Permute(pairs, order), k)
    ensures x.Nnz() == 0 ==> r == []
    ensures model.coef.Some? && k >= 0 ==> |r| == Min(k, x.Nnz())
    ensures forall s, t :: 0 <= s < t < |r| ==> Abs(r[s].value) >= Abs(r[t].value)
    ensures model.coef.Some? ==> forall t :: 0 <= t < |r| ==> ContributionOf(names, Ravel(model.coef.value), x, r[t])
  {
    if model.coef.None? {
      return [];
    }
    var w := Ravel(model.coef.value);
    var pairs := Contributions(names, w, x);
    var order := SortDescending(Magnitudes(pairs));
    r := To(Permute(pairs, order), k);
    SortedPrefix(pairs, order, k);
    forall t | 0 <= t < |r| ensures ContributionOf(names, w, x, r[t]) {
      assert r[t] == pairs[order[t]];
    }
  }

  /** The first `k` entries of the contributions in stable descending order of
      magnitude: `min(k, n)` of them, by non-increasing magnitude, each one of the
      contributions. */
  lemma SortedPrefix(pairs: seq<Feature>, order: seq<nat>, k: int)
    requires StablyDescending(Magnitudes(pairs), order)
    ensures var r := To(Permute(pairs, order), k);
      && (k >= 0 ==> |r| == Min(k, |pairs|))
      && (forall s, t :: 0 <= s < t < |r| ==> Abs(r[s].value) >= Abs(r[t].value))
      && (forall t :: 0 <= t < |r| ==> order[t] < |pairs| && r[t] == pairs[order[t]])
  {
    var keys := Magnitudes(pairs);
    var r := To(Permute(pairs, order), k);
    forall t | 0 <= t < |r| ensures order[t] < |pairs| && r[t] == pairs[order[t]] {
      assert r[t] == Permute(pairs, order)[t];
    }
    forall s, t | 0 <= s < t < |r| ensures Abs(r[s].value) >= Abs(r[t].value) {
      assert Before(keys, order[s], order[t]);
    }
  }
}
