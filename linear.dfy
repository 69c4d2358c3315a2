/**
  The artifacts the explanation code reads, as plain data: a fitted linear
  estimator's `coef_`, what its prediction methods return for the
  one input being scored, the vectorizer's vocabulary, and one sparse CSR row.
 */
module Linear {
  import opened Wrappers
  import PySeq

  /** `coef_`: either a flat weight vector or a matrix with one row per class
      (scikit-learn stores a binary model's weights as a single row). */
  datatype Coef = Vector(w: seq<real>) | Matrix(rows: seq<seq<real>>)

  /** A fitted estimator, seen through the attributes the code inspects with
      `hasattr`: `None` stands for a missing `coef_`. The class list the prediction
      page reads lives in `PredictPage.ProbaModel`. */
  datatype Estimator = Estimator(coef: Option<Coef>)

  /** What the estimator's prediction methods return for the current input `X`
      (row 0 of each result): `predict_proba(X)[0]`, `decision_function(X)[0]` and
      `predict(X)[0]`. `None` stands for an estimator without that method. */
  datatype Scores = Scores(proba: Option<seq<real>>, decision: Option<real>, predicted: int)

  /** One row of the vectorizer's sparse output: `X.indices` and `X.data`. */
  datatype SparseRow = SparseRow(indices: seq<nat>, values: seq<real>) {
    /** The CSR invariant for a vocabulary of `size` features. */
    predicate Valid(size: nat) {
      |indices| == |values| && forall j :: 0 <= j < |indices| ==> indices[j] < size
    }

    /** `X.nnz`, the number of stored entries. */
    function Nnz(): nat {
      |values|
    }
  }

  /** The ways an explanation or prediction can stop without a value. */
  datatype Failure =
    | NoCoef              // the estimator is not linear: `ValueError` at utils.py:82
    | ProbaColumnMissing  // `predict_proba(X)[0, 1]` on a single-column result: `IndexError`

  /** The tuple `(name, number)`: a feature name paired with its weight or with its
      contribution. */
  datatype Feature = Feature(name: string, value: real)

  /** `coef_.ravel()`: the rows of a matrix concatenated in order. */
  function Ravel(c: Coef): (w: seq<real>)
    ensures c.Matrix? && |c.rows| == 1 ==> w == c.rows[0]
    ensures c.Vector? ==> w == c.w
  {
    match c
    case Vector(w) => w
    case Matrix(rows) => Flatten(rows)
  }

  function Flatten(rows: seq<seq<real>>): (w: seq<real>)
    ensures |rows| == 1 ==> w == rows[0]
  {
    if rows == [] then [] else rows[0] + Flatten(rows[1..])
  }

  /** `coef[0] if coef.ndim == 2 else coef`: the weights of the first class row. */
  function FirstRowWeights(c: Coef): (w: seq<real>)
    requires c.Matrix? ==> |c.rows| > 0
    ensures c.Matrix? ==> w == c.rows[0]
    ensures c.Vector? ==> w == c.w
  {
    match c
    case Vector(w) => w
    case Matrix(rows) => rows[0]
  }

  /** For a binary model, whose `coef_` is a vector or a single row, `ravel()` and
      taking row 0 give the same weights, so app.py and utils.py rank the same vector. */
  lemma RavelAgreesWithFirstRow(c: Coef)
    requires c.Vector? || |c.rows| == 1
    ensures Ravel(c) == FirstRowWeights(c)
  {
  }

  /** `zip(names[idx], w[idx])`: each selected index paired with its name and weight. */
  function Pairs(names: seq<string>, w: seq<real>, idx: seq<nat>): (r: seq<Feature>)
    requires PySeq.InRange(idx, |w|) && |names| == |w|
    ensures |r| == |idx|
    ensures forall t :: 0 <= t < |r| ==> r[t] == Feature(names[idx[t]], w[idx[t]])
  {
    seq(|idx|, t requires 0 <= t < |idx| => Feature(names[idx[t]], w[idx[t]]))
  }
}
