/**
  The shared helpers of the multi-page app (utils.py): the tiered probability
  read-out and the global n-gram tables.
 */
module Utils {
  import opened Wrappers
  import opened PySeq
  import opened Linear
  import opened Ranking
  import App

  /** `predict_smiles`: column 1 of `predict_proba` when the model has one; otherwise
      the logistic transform of the decision score when it has `decision_function`;
      otherwise the predicted label as a number. `logistic` stands for
      `1 / (1 + exp(-score))`, which the model leaves uninterpreted. */
  function PredictSmiles(s: Scores, logistic: real -> real): (r: Result<real, Failure>)
    ensures s.proba.Some? ==> (r.Success? <==> |s.proba.value| >= 2)
    ensures s.proba.Some? && r.Success? ==> r.value == s.proba.value[1]
    ensures s.proba.None? && s.decision.Some? ==> r == Success(logistic(s.decision.value))
    ensures s.proba.None? && s.decision.None? ==> r == Success(s.predicted as real)
    ensures r.Failure? ==> r.error == ProbaColumnMissing
  {
    match s.proba
    case Some(proba) => if |proba| >= 2 then Success(proba[1]) else Failure(ProbaColumnMissing)
    case None =>
      match s.decision
      case Some(score) => Success(logistic(score))
      case None => Success(s.predicted as real)
  }

  /** The probability tier decides alone: when `predict_proba` exists, neither the
      decision score nor the predicted label nor the transform matters. */
  lemma ProbabilityTierComesFirst(proba: seq<real>, d1: Option<real>, d2: Option<real>, l1: int, l2: int,
                                  f: real -> real, g: real -> real)
    ensures PredictSmiles(Scores(Some(proba), d1, l1), f) == PredictSmiles(Scores(Some(proba), d2, l2), g)
  {
  }

  /** Without `decision_function` the tiered read-out of utils.py and the two-tier one
      of app.py agree on every input. */
  lemma AgreesWithAppWithoutDecision(s: Scores, logistic: real -> real)
    requires s.decision.None?
    ensures PredictSmiles(s, logistic) == App.PredictProba(s)
  {
  }

  /** Every tier yields a number in `[0, 1]` when the probabilities are, the transform
      is, and the labels are 0 or 1. */
  lemma PredictSmilesInUnitInterval(s: Scores, logistic: real -> real)
    requires s.proba.Some? ==> forall j :: 0 <= j < |s.proba.value| ==> 0.0 <= s.proba.value[j] <= 1.0
    requires forall z :: 0.0 <= logistic(z) <= 1.0
    requires s.predicted == 0 || s.predicted == 1
    ensures PredictSmiles(s, logistic).Success? ==> 0.0 <= PredictSmiles(s, logistic).value <= 1.0
  {
  }

  /** A two-column DataFrame `{"pattern": ..., "weight": ...}`. */
  datatype Table = Table(pattern: seq<string>, weight: seq<real>)

  /** The table whose `pattern` and `weight` columns are `features[idx]` and
      `weights[idx]`. */
  function Tabulate(names: seq<string>, w: seq<real>, idx: seq<nat>): (t: Table)
    requires InRange(idx, |w|) && |names| == |w|
    ensures |t.pattern| == |idx| && |t.weight| == |idx|
    ensures forall i :: 0 <= i < |idx| ==> t.pattern[i] == names[idx[i]] && t.weight[i] == w[idx[i]]
  {
    Table(seq(|idx|, i requires 0 <= i < |idx| => names[idx[i]]),
          seq(|idx|, i requires 0 <= i < |idx| => w[idx[i]]))
  }

  /** The table with one row per `(name, weight)` pair. */
  function AsTable(pairs: seq<Feature>): (t: Table)
    ensures |t.pattern| == |pairs| && |t.weight| == |pairs|
    ensures forall i :: 0 <= i < |pairs| ==> t.pattern[i] == pairs[i].name && t.weight[i] == pairs[i].value
  {
    Table(seq(|pairs|, i requires 0 <= i < |pairs| => pairs[i].name),
          seq(|pairs|, i requires 0 <= i < |pairs| => pairs[i].value))
  }

  /** `top_global_ngrams`: a model without `coef_` is refused with `ValueError`.
      Otherwise the weights are row 0 of a 2-D `coef_` or `coef_` itself; the `pos`
      table holds the chosen largest weights in non-increasing order, the `neg` table
      the chosen smallest in non-decreasing order, each row's pattern and weight taken
      from the same index, and nothing left out outranks what was chosen. */
  function TopGlobalNgrams(model: Estimator, names: seq<string>, k: int): (r: Result<(Table, Table), Failure>)
    requires model.coef.Some? ==> (model.coef.value.Matrix? ==> |model.coef.value.rows| > 0) && |FirstRowWeights(model.coef.value)| == |names|
    ensures model.coef.None? <==> r == Failure(NoCoef)
    ensures model.coef.Some? ==> r.Success?
    ensures r.Success? ==>
      var w := FirstRowWeights(model.coef.value);
      && (exists idx :: SelectsLargest(w, idx) && r.value.0 == Tabulate(names, w, idx))
      && (exists idx :: SelectsSmallest(w, idx) && r.value.1 == Tabulate(names, w, idx))
      && (k >= 1 ==> |r.value.0.pattern| == Min(k, |w|) && |r.value.1.pattern| == Min(k, |w|))
      && (k == 0 ==> |r.value.0.pattern| == |w| && r.value.1.pattern == [])
  {
    match model.coef
    case None => Failure(NoCoef)
    case Some(coef) =>
      var w := FirstRowWeights(coef);
      var order := Argsort(w);
      Success((Tabulate(names, w, TopPositive(w, order, k)), Tabulate(names, w, TopNegative(w, order, k))))
  }

  /** For a binary linear model the two global rankings agree: the tables of utils.py
      hold, row by row, the pairs app.py lists. */
  lemma GlobalRankingsAgree(model: Estimator, names: seq<string>, k: int)
    requires model.coef.Some? && (model.coef.value.Vector? || |model.coef.value.rows| == 1)
    requires |Ravel(model.coef.value)| == |names|
    ensures TopGlobalNgrams(model, names, k)
      == Success((AsTable(App.TopGlobalFeatures(model, names, k).0), AsTable(App.TopGlobalFeatures(model, names, k).1)))
  {
    var c := model.coef.value;
    RavelAgreesWithFirstRow(c);
    var w := Ravel(c);
    var order := Argsort(w);
    var pos, neg := TopPositive(w, order, k), TopNegative(w, order, k);
    assert Tabulate(names, w, pos) == AsTable(Pairs(names, w, pos));
    assert Tabulate(names, w, neg) == AsTable(Pairs(names, w, neg));
  }
}
