/**
  The prediction page (pages/1_Predict.py): the saved SMILES kept between clicks,
  the salt/mixture stripping of pasted text, and the guarded, class-aware
  toxicity probability with its threshold flag and the optional second model.
 */
module PredictPage {
  import opened Wrappers
  import opened PySeq
  import opened PyStr
  import opened Linear
  import App

  /** Why the page stops without a prediction. */
  datatype PageError =
    | BlankPaste                       // nothing but whitespace was pasted
    | NoSavedSmiles                    // no SMILES saved, or an empty one
    | NoMatchingNgrams                 // the vectorizer found no known n-gram
    | WrongClasses(classes: seq<int>)  // the class list lacks 0 or 1
    | NoPredictProba                   // `predict_proba` is missing: `AttributeError`
    | ProbaIndexOutOfRange             // the row is shorter than the class list: `IndexError`

  /** The label the page shows as the source of a pasted SMILES. */
  const ManualSource: string := "Manual SMILES"

  /** `max(s2.strip().split("."), key=len)` behind the blank check: a blank paste is
      refused; otherwise the saved SMILES is a '.'-separated fragment of the stripped
      text, holds no '.', no fragment is longer, and no earlier fragment is as long. */
  function PastedSmiles(pasted: string): (r: Result<string, PageError>)
    ensures r.Failure? <==> Strip(pasted, Whitespace) == []
    ensures r.Failure? ==> r.error == BlankPaste
    ensures r.Success? ==>
      var parts := Split(Strip(pasted, Whitespace), '.');
      && '.' !in r.value
      && (exists i :: 0 <= i < |parts| && parts[i] == r.value && forall j :: 0 <= j < i ==> |parts[j]| < |r.value|)
      && (forall j :: 0 <= j < |parts| ==> |parts[j]| <= |r.value|)
  {
    var text := Strip(pasted, Whitespace);
    if text == [] then Failure(BlankPaste)
    else
      var parts := Split(text, '.');
      var i := LongestIndex(parts);
      var r: Result<string, PageError> := Success(parts[i]);
      assert parts == Split(Strip(pasted, Whitespace), '.');
      assert exists k :: 0 <= k < |parts| && parts[k] == r.value && forall j :: 0 <= j < k ==> |parts[j]| < |r.value|;
      r
  }

  /** `st.session_state.smiles` and `st.session_state.smiles_source`, kept between
      clicks: set together and cleared together. */
  class SavedSmiles {
    var smiles: Option<string>
    var source: Option<string>

    ghost predicate Valid()
      reads this
    {
      smiles.Some? <==> source.Some?
    }

    /** Lines 15-18: both start out as `None`. */
    constructor ()
      ensures Valid() && smiles == None && source == None
    {
      smiles, source := None, None;
    }

    /** Lines 45-47: the "Clear saved SMILES" button. */
    method Clear()
      requires Valid()
      modifies this
      ensures Valid() && smiles == None && source == None
    {
      smiles, source := None, None;
    }

    /** Lines 62-67: the name resolver's answer `(s, src, err)` is saved unless it
        reports an error (a non-empty `err`). */
    method SaveFetched(s: string, src: string, err: Option<string>)
      requires Valid()
      modifies this
      ensures Valid()
      ensures err.Some? && err.value != [] ==> smiles == old(smiles) && source == old(source)
      ensures !(err.Some? && err.value != []) ==> smiles == Some(s) && source == Some(src)
    {
      if !(err.Some? && err.value != []) {
        smiles, source := Some(s), Some(src);
      }
    }

    /** Lines 80-86: a pasted text is reduced to its longest fragment and saved with
        the manual source label; a blank paste saves nothing. */
    method SavePasted(pasted: string) returns (r: Result<string, PageError>)
      requires Valid()
      modifies this
      ensures Valid()
      ensures r == PastedSmiles(pasted)
      ensures r.Success? ==> smiles == Some(r.value) && source == Some(ManualSource)
      ensures r.Failure? ==> smiles == old(smiles) && source == old(source)
    {
      r := PastedSmiles(pasted);
      if r.Success? {
        smiles, source := Some(r.value), Some(ManualSource);
      }
    }
  }

  /** Lines 105-109: `if not st.session_state.smiles` refuses both a missing and an
      empty SMILES. */
  function SavedForPrediction(saved: Option<string>): (r: Result<string, PageError>)
    ensures r.Success? <==> saved.Some? && saved.value != []
    ensures r.Success? ==> r.value == saved.value
    ensures r.Failure? ==> r.error == NoSavedSmiles
  {
    if saved.Some? && saved.value != [] then Success(saved.value) else Failure(NoSavedSmiles)
  }

  /** An estimator as the page uses it: `classes_` (when present) and
      `predict_proba(X)[0]` for the current input (when the method exists). */
  datatype ProbaModel = ProbaModel(classes: Option<seq<int>>, proba: Option<seq<real>>)

  /** `list(getattr(model, "classes_", [0, 1]))` */
  function ClassList(m: ProbaModel): (r: seq<int>)
    ensures m.classes.None? ==> r == [0, 1]
    ensures m.classes.Some? ==> r == m.classes.value
  {
    m.classes.GetOr([0, 1])
  }

  /** `xs.index(v)`: the first position holding `v`. */
  function FirstIndex(xs: seq<int>, v: int): (i: nat)
    requires v in xs
    ensures i < |xs| && xs[i] == v
    ensures forall j :: 0 <= j < i ==> xs[j] != v
  {
    if xs[0] == v then 0 else 1 + FirstIndex(xs[1..], v)
  }

  /** Lines 121-127: a class list without 0 or without 1 is refused; otherwise the
      toxic probability is the row entry at the first position of label 1 in the class
      list, whatever order the classes come in. */
  function ToxProbability(m: ProbaModel): (r: Result<real, PageError>)
    ensures 1 !in ClassList(m) || 0 !in ClassList(m) ==> r == Failure(WrongClasses(ClassList(m)))
    ensures r.Success? ==>
      && 0 in ClassList(m) && m.proba.Some?
      && exists i :: && 0 <= i < |ClassList(m)| && i < |m.proba.value|
                     && ClassList(m)[i] == 1 && (forall j :: 0 <= j < i ==> ClassList(m)[j] != 1)
                     && r.value == m.proba.value[i]
    ensures 0 in ClassList(m) && 1 in ClassList(m) && m.proba.Some? && |m.proba.value| >= |ClassList(m)| ==> r.Success?
    ensures 0 in ClassList(m) && 1 in ClassList(m) && m.proba.None? ==> r == Failure(NoPredictProba)
    ensures 0 in ClassList(m) && 1 in ClassList(m) && m.proba.Some? ==>
      (r.Success? <==> FirstIndex(ClassList(m), 1) < |m.proba.value|)
    ensures 0 in ClassList(m) && 1 in ClassList(m) && m.proba.Some? && r.Failure? ==> r.error == ProbaIndexOutOfRange
  {
    var classes := ClassList(m);
    if 1 !in classes || 0 !in classes then Failure(WrongClasses(classes))
    else match m.proba
      case None => Failure(NoPredictProba)
      case Some(row) =>
        var i := FirstIndex(classes, 1);
        if i < |row| then Success(row[i]) else Failure(ProbaIndexOutOfRange)
  }

  /** Lines 131-139: the second model's probability is reported only when the model
      exists, has `predict_proba` and lists label 1, and it is read at that label's
      first position; a failed read reports nothing. */
  function FdaProbability(fda: Option<ProbaModel>): (r: Option<real>)
    ensures r.Some? ==>
      && fda.Some? && fda.value.proba.Some? && 1 in ClassList(fda.value)
      && exists i :: && 0 <= i < |ClassList(fda.value)| && i < |fda.value.proba.value|
                     && ClassList(fda.value)[i] == 1 && (forall j :: 0 <= j < i ==> ClassList(fda.value)[j] != 1)
                     && r.value == fda.value.proba.value[i]
    ensures (fda.Some? && fda.value.proba.Some? && 1 in ClassList(fda.value)
             && |fda.value.proba.value| >= |ClassList(fda.value)|) ==> r.Some?
    ensures fda.Some? && fda.value.proba.Some? && 1 in ClassList(fda.value) ==>
      (r.Some? <==> FirstIndex(ClassList(fda.value), 1) < |fda.value.proba.value|)
  {
    match fda
    case None => None
    case Some(m) =>
      match m.proba
      case None => None
      case Some(row) =>
        var classes := ClassList(m);
        if 1 in classes && FirstIndex(classes, 1) < |row| then Some(row[FirstIndex(classes, 1)]) else None
  }

  /** What the page reports: the toxic probability, the flag, the second probability. */
  datatype Prediction = Prediction(pTox: real, toxic: bool, pFda: Option<real>)

  /** Lines 104-139, the "Predict Toxicity" button: the saved SMILES must be present
      and non-empty, its vector must have a stored entry, then the toxic probability is
      read class-aware and flagged when it reaches `threshold`. `vectorize` stands for
      `vec.transform`; the models' rows are their outputs on that vector. */
  function Predict(saved: Option<string>, vectorize: string -> SparseRow, tox: ProbaModel,
                   fda: Option<ProbaModel>, threshold: real): (r: Result<Prediction, PageError>)
    ensures SavedForPrediction(saved).Failure? ==> r == Failure(NoSavedSmiles)
    ensures SavedForPrediction(saved).Success? && vectorize(saved.value).Nnz() == 0 ==> r == Failure(NoMatchingNgrams)
    ensures SavedForPrediction(saved).Success? && vectorize(saved.value).Nnz() > 0 && ToxProbability(tox).Failure? ==>
      r == Failure(ToxProbability(tox).error)
    ensures r.Success? <==>
      && SavedForPrediction(saved).Success? && vectorize(saved.value).Nnz() > 0
      && ToxProbability(tox).Success?
    ensures r.Success? ==>
      && ToxProbability(tox) == Success(r.value.pTox)
      && (r.value.toxic <==> r.value.pTox >= threshold)
      && r.value.pFda == FdaProbability(fda)
  {
    match SavedForPrediction(saved)
    case Failure(e) => Failure(e)
    case Success(smiles) =>
      if vectorize(smiles).Nnz() == 0 then Failure(NoMatchingNgrams)
      else match ToxProbability(tox)
        case Failure(e) => Failure(e)
        case Success(pTox) => Success(Prediction(pTox, pTox >= threshold, FdaProbability(fda)))
  }

  /** The threshold only sets the flag: whether a prediction is made, its toxic
      probability and its second probability are the same for every threshold. */
  lemma ThresholdOnlyMovesTheFlag(saved: Option<string>, vectorize: string -> SparseRow, tox: ProbaModel,
                                  fda: Option<ProbaModel>, t1: real, t2: real)
    ensures Predict(saved, vectorize, tox, fda, t1).Success? == Predict(saved, vectorize, tox, fda, t2).Success?
    ensures Predict(saved, vectorize, tox, fda, t1).Success? ==>
      && Predict(saved, vectorize, tox, fda, t1).value.pTox == Predict(saved, vectorize, tox, fda, t2).value.pTox
      && Predict(saved, vectorize, tox, fda, t1).value.pFda == Predict(saved, vectorize, tox, fda, t2).value.pFda
  {
  }

  /** Reordering the class list together with the probability row never changes the
      toxic probability when the labels are distinct. */
  lemma ClassOrderDoesNotMatter(classes: seq<int>, row: seq<real>, perm: seq<nat>)
    requires |row| == |classes| && Distinct(classes) && IsPermutation(perm, |classes|)
    ensures var before := ToxProbability(ProbaModel(Some(classes), Some(row)));
            var after := ToxProbability(ProbaModel(Some(Permute(classes, perm)), Some(Permute(row, perm))));
            before.Success? == after.Success? && (before.Success? ==> before.value == after.value)
  {
    var classes', row' := Permute(classes, perm), Permute(row, perm);
    forall v ensures v in classes <==> v in classes' {
      if v in classes {
        var i :| 0 <= i < |classes| && classes[i] == v;
        assert i in perm;
        var t :| 0 <= t < |perm| && perm[t] == i;
        assert classes'[t] == v;
      }
      if v in classes' {
        var t :| 0 <= t < |classes'| && classes'[t] == v;
        assert classes[perm[t]] == v;
      }
    }
    if 1 in classes && 0 in classes {
      var i, i' := FirstIndex(classes, 1), FirstIndex(classes', 1);
      assert classes[perm[i']] == 1;
      assert perm[i'] == i;
      assert row'[i'] == row[i];
    }
  }

  /** scikit-learn stores `classes_` sorted and distinct; with non-negative labels 0 and
      1 present, label 1 then sits at position 1, so the fixed column 1 that app.py and
      utils.py read is the class-aware toxic probability. */
  lemma SortedClassesPutLabelOneAtColumnOne(classes: seq<int>, row: seq<real>, d: Option<real>, predicted: int)
    requires forall s, t :: 0 <= s < t < |classes| ==> classes[s] < classes[t]
    requires forall s :: 0 <= s < |classes| ==> classes[s] >= 0
    requires 0 in classes && 1 in classes && |row| == |classes|
    ensures ToxProbability(ProbaModel(Some(classes), Some(row))) == Success(row[1])
    ensures App.PredictProba(Scores(Some(row), d, predicted)) == Success(row[1])
  {
    var z :| 0 <= z < |classes| && classes[z] == 0;
    var o :| 0 <= o < |classes| && classes[o] == 1;
    assert z == 0;
    assert o >= 1 && 1 <= classes[1];
    assert o == 1;
    assert FirstIndex(classes, 1) == 1;
  }

  /** With the classes stored as `[1, 0]` the fixed column 1 reads the non-toxic
      probability while the page reads the toxic one. */
  lemma ColumnOneIsNonToxicWhenClassesReversed()
    ensures ToxProbability(ProbaModel(Some([1, 0]), Some([0.9, 0.1]))) == Success(0.9)
    ensures App.PredictProba(Scores(Some([0.9, 0.1]), None, 0)) == Success(0.1)
  {
  }

  /** The page needs only label 1's first position to lie within the row: with classes
      `[1, 0, 2]` a two-entry row still gives its entry 0. */
  lemma ShortRowStillReadsLabelOne()
    ensures ToxProbability(ProbaModel(Some([1, 0, 2]), Some([0.7, 0.3]))) == Success(0.7)
  {
  }

  /** A model trained on a single class is refused before any probability is read. */
  lemma SingleClassModelRefused(saved: Option<string>, vectorize: string -> SparseRow, row: Option<seq<real>>,
                                fda: Option<ProbaModel>, threshold: real)
    ensures Predict(saved, vectorize, ProbaModel(Some([1]), row), fda, threshold).Failure?
    ensures SavedForPrediction(saved).Success? && vectorize(saved.value).Nnz() > 0 ==>
      Predict(saved, vectorize, ProbaModel(Some([1]), row), fda, threshold) == Failure(WrongClasses([1]))
  {
  }
}
