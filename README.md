# Drug toxicity checker: explanation and prediction core

This project models, in Dafny, the logic of a small web app that predicts whether
a chemical compound is toxic from its SMILES string. The app uses a linear
bag-of-n-grams classifier and explains the prediction with per-n-gram weights.
The scikit-learn objects are replaced by plain data:

- the coefficient vector, or a matrix of rows;
- the feature names;
- the sparse feature vector of one molecule, as parallel `indices` and `values`;
- the class list;
- the probability row for the current input.

Modules, one concept each:

- `Wrappers`: `Option` and `Result`.
- `PySeq`: Python slicing (`s[a:]`, `s[:b]` with negative bounds), reversal, and
  what an argsort is, with one concrete argsort.
- `PyStr`: `str.strip(chars)`, `str.split(sep)` with its inverse `join`, and
  `max(parts, key=len)`.
- `Linear`: the estimator, its coefficients (`coef_`, `ravel()`, row 0) and sparse rows.
- `Ranking`: top-k selection of the largest and smallest weights, shared by app.py
  and utils.py.
- `StableOrder`: the order a stable descending sort by magnitude leaves, and an
  insertion sort that produces it.
- `App`: the helpers of app.py.
- `Utils`: the helpers of utils.py.
- `PredictPage`: the prediction page. It covers the saved SMILES pair (a class
  whose methods update its two fields), the salt stripping of pasted text, the
  guards, and the class-aware probability with its threshold flag.

`np.argsort` is not stable, so both global rankings are stated for every argsort
of the weights. Their contracts promise the selection and its order. They make no
promise about which of several tied indices is chosen. `list.sort` is stable, so
the local contributions are stated against the unique stable order, and
`StableOrder.StablyDescendingUnique` shows that order is determined. The Python
slice `[-k:]` is modelled as written: with `k == 0` it is the whole array, so
`top_global_features(k=0)` lists every feature as positive and none as negative.

### What the code does not do

- The code has no step that orients the coefficients towards the toxic class. The
  global lists rank the raw `coef_` and the local contributions multiply by it, so
  a model fitted with its labels swapped explains itself backwards.
  `Ranking.NegationSwapsSelections` shows the effect: negating the weights turns
  the positive list into the negative one and back.
- Ties between equal weights in the global lists are left to the default,
  unstable `np.argsort`; the model therefore promises no tie order there.
- Only the prediction page checks the class list. app.py and utils.py read
  column 1, which is the toxic probability only when label 1 is stored at
  position 1 of the class list, as it is for sorted labels 0 and 1
  (`PredictPage.SortedClassesPutLabelOneAtColumnOne` and
  `PredictPage.ColumnOneIsNonToxicWhenClassesReversed`).

## Model

| member | source | states |
|---|---|---|
| App.LooksLikeSmiles | app.py:119-125 | false for the empty text; otherwise true exactly when the stripped text has at least 6 characters and one of them is in `=#[]()\/+-@0123456789` |
| App.LooksLikeSmilesIgnoresPadding | app.py:120-125 | surrounding a text with whitespace never changes whether it looks like SMILES |
| App.PredictProba | app.py:155-161 | with `predict_proba`: column 1 of the row, or the column-missing failure when the row has fewer than two columns; without it: the predicted label as a number |
| App.TopGlobalFeatures | app.py:164-171 | no `coef_` gives two empty lists; otherwise the raveled weights are ranked. The positive list pairs a largest-weight selection with its names (distinct indices, non-increasing, nothing left out weighs more). The negative list does the same for the smallest weights in non-decreasing order. Each list has `min(k, V)` entries for `k >= 1`; for `k == 0` the positive list is the whole vocabulary and the negative one is empty |
| App.GlobalRankingExample | app.py:169-170 | for weights `[3, -1, 0, 2, -5]` and `k = 2`, every argsort yields positive indices `[0, 3]` and negative indices `[4, 1]` |
| App.AnySmilesChar | app.py:125 | `any(ch in smiles_chars for ch in t)` holds exactly when some character of the text is a SMILES character |
| App.Contributions | app.py:179-183 | one entry per stored feature, in vectorizer order, each `(names[indices[j]], values[j] * coef[indices[j]])` |
| App.LocalContributions | app.py:174-185 | no `coef_` gives `[]`. Otherwise the result is the first `k` entries of the contributions in the stable descending order of their magnitudes. The result is empty when nothing is stored and has `min(k, nnz)` entries for `k >= 0`. Magnitudes do not increase, and every entry is the contribution of some stored position |
| App.SortedPrefix | app.py:184-185 | the first `k` entries in stable descending order of magnitude number `min(k, n)`, have non-increasing magnitudes, and are each the entry the order puts there |
| Ranking.TopPositive | app.py:169 | `order[-k:][::-1]` of any argsort selects the largest weights in non-increasing order; it has `min(k, V)` entries for `k >= 1` and all `V` for `k == 0` |
| Ranking.TopNegative | app.py:170 | `order[:k]` of any argsort selects the smallest weights in non-decreasing order, with `min(k, V)` entries for `k >= 0` |
| Ranking.SuffixSelectsLargest | app.py:169 | every reversed suffix of an argsort is a largest-weight selection |
| Ranking.PrefixSelectsSmallest | app.py:170 | every prefix of an argsort is a smallest-weight selection |
| Ranking.LargestInTurn | app.py:169 | the t-th index of a largest-weight selection weighs at least as much as every index not chosen before it |
| Ranking.SmallestInTurn | app.py:170 | the t-th index of a smallest-weight selection weighs at most as much as every index not chosen before it |
| Ranking.ScalingPreservesLargest | app.py:169 | multiplying all coefficients by a positive constant keeps a largest-weight selection valid |
| Ranking.ScalingPreservesSmallest | app.py:170 | multiplying all coefficients by a positive constant keeps a smallest-weight selection valid |
| Ranking.NegationSwapsSelections | app.py:169-170 | a selection is of the largest weights exactly when it is of the smallest negated weights |
| PySeq.SliceBound | app.py:169-170 | a slice bound `i >= 0` becomes `min(i, n)` and a negative one `n - min(-i, n)`, always within `0..n` |
| PySeq.From | app.py:169 | `s[start:]` is a suffix of `s`; `s[-k:]` keeps the last `min(k, len(s))` elements, `s[i:]` for `i >= 0` drops the first `min(i, len(s))` |
| PySeq.To | app.py:170 | `s[:stop]` is a prefix of `s`; `s[:k]` for `k >= 0` keeps the first `min(k, len(s))` elements, a negative stop drops `min(-stop, len(s))` from the end |
| PySeq.SlicesPartition | app.py:169-170 | `s[:i] + s[i:] == s` for every bound `i` |
| PySeq.Reverse | app.py:169 | `s[::-1]` has the same length and holds `s[len(s) - 1 - i]` at position `i` |
| PySeq.Argsort | app.py:169 | the concrete argsort lists every index once, by non-decreasing weight |
| StableOrder.SortDescending | app.py:184 | the computed order is the stable descending order of the keys: every position once, larger keys first, equal keys in original order |
| StableOrder.StablyDescendingUnique | app.py:184 | two orders that are both stable descending orders of the same keys are equal |
| StableOrder.SortedByBeforeUnique | app.py:184 | two lists of the same positions, both sorted by the stable-descending relation, are equal |
| StableOrder.InsertKeepsStable | app.py:184 | inserting the next position at its place keeps a stable descending order of the positions so far |
| StableOrder.Abs | app.py:184 | the sort key `abs(c)` is non-negative and is `c` or `-c` |
| Linear.Ravel | app.py:167 | `ravel()` of a vector is the vector, and of a single row is that row |
| Linear.RavelAgreesWithFirstRow | utils.py:84-86 | for a binary model, `coef_.ravel()` (app.py) and row 0 of `coef_` (utils.py) are the same weights |
| Linear.FirstRowWeights | utils.py:86 | `coef[0] if coef.ndim == 2 else coef`: row 0 of a matrix, the vector itself otherwise |
| Linear.Pairs | app.py:171 | each chosen index is paired with its own name and weight, in the chosen order |
| PyStr.Strip | app.py:122 | the result is no longer than the text, neither starts nor ends with a stripped character, and is empty exactly when every character of the text is stripped |
| PyStr.StripOfPadded | app.py:122 | stripping a trimmed text surrounded by runs of stripped characters gives back exactly that text |
| PyStr.StripDecomposes | app.py:122 | a text is its leading run, its stripped core and its trailing run |
| PyStr.StripIgnoresPadding | app.py:122 | stripping a text padded with stripped characters gives what stripping the text gives |
| PyStr.Split | pages/1_Predict.py:84 | `split(sep)` gives at least one part, no part holds the separator, and joining the parts restores the text |
| PyStr.SplitJoin | pages/1_Predict.py:84 | splitting the join of separator-free parts gives the parts back |
| PyStr.LongestIndex | pages/1_Predict.py:84 | `max(key=len)` picks a part that no part outgrows and that no earlier part matches in length |
| Utils.PredictSmiles | utils.py:62-78 | the probability tier first (column 1, or the column-missing failure for a one-column row), then the logistic transform of the decision score, then the predicted label as a number |
| Utils.ProbabilityTierComesFirst | utils.py:66-69 | when `predict_proba` exists, neither the decision score, the label nor the transform changes the result |
| Utils.AgreesWithAppWithoutDecision | utils.py:62-78 | without `decision_function`, utils.py and app.py read out the same value or the same failure |
| Utils.PredictSmilesInUnitInterval | utils.py:62-78 | every tier yields a value in `[0, 1]` when probabilities and transform do and labels are 0 or 1 |
| Utils.Tabulate | utils.py:93-101 | each table row takes its pattern and its weight from the same index |
| Utils.AsTable | utils.py:93-101 | each table row holds the name and the number of the same pair |
| Utils.TopGlobalNgrams | utils.py:80-103 | no `coef_` is refused, and only then: every model with `coef_` gets both tables. Otherwise the weights are row 0 or the vector. The `pos` table is a largest-weight selection and the `neg` table a smallest-weight selection, each row aligned. Each has `min(k, V)` rows for `k >= 1`; for `k == 0` `pos` is the whole vocabulary and `neg` is empty |
| Utils.GlobalRankingsAgree | utils.py:80-103 | for a binary model, the tables of utils.py hold row by row the lists of app.py |
| PredictPage.PastedSmiles | pages/1_Predict.py:80-86 | a blank paste is refused, and only a blank one. Otherwise the saved text is a '.'-fragment of the stripped paste and holds no '.'; no fragment is longer, and no earlier fragment is as long |
| PredictPage.SavedSmiles.constructor | pages/1_Predict.py:15-18 | both saved values start out empty |
| PredictPage.SavedSmiles.Clear | pages/1_Predict.py:45-47 | clearing empties both saved values together |
| PredictPage.SavedSmiles.SaveFetched | pages/1_Predict.py:61-67 | a resolver answer without an error replaces both values; one with an error changes nothing |
| PredictPage.SavedSmiles.SavePasted | pages/1_Predict.py:80-88 | a non-blank paste saves its longest fragment with the label "Manual SMILES"; a blank one changes nothing |
| PredictPage.SavedForPrediction | pages/1_Predict.py:104-109 | a missing or empty saved SMILES stops the run; any other is used as saved |
| PredictPage.ClassList | pages/1_Predict.py:121 | `list(getattr(m, "classes_", [0, 1]))`: the model's classes when it has them, `[0, 1]` otherwise |
| PredictPage.FirstIndex | pages/1_Predict.py:127 | `classes.index(v)` is the first position holding `v` |
| PredictPage.ToxProbability | pages/1_Predict.py:121-127 | a class list (default `[0, 1]`) missing 0 or 1 is refused with the wrong-classes error. Otherwise a model without `predict_proba` is refused with its own error; with a row, the read succeeds exactly when label 1's first position lies within the row, fails with the index error otherwise, and a success is the row entry at that position |
| PredictPage.FdaProbability | pages/1_Predict.py:131-139 | the second probability is reported only for a present model with `predict_proba` that lists label 1, read at that label's first position; for such a model it is reported exactly when that position lies within the row |
| PredictPage.Predict | pages/1_Predict.py:104-139 | missing SMILES, then an empty vector, then a failing class-aware read (a bad class list, no `predict_proba`, a short row) stop the run, in that order, each with its own error. Otherwise the toxic probability is the class-aware one, the flag holds exactly when it reaches the threshold, and the second probability is attached |
| PredictPage.ThresholdOnlyMovesTheFlag | pages/1_Predict.py:126-128 | changing the threshold changes neither whether a prediction is made, nor its probability, nor the second probability |
| PredictPage.ClassOrderDoesNotMatter | pages/1_Predict.py:121-127 | permuting distinct class labels together with the probability row leaves the toxic probability unchanged |
| PredictPage.SortedClassesPutLabelOneAtColumnOne | pages/1_Predict.py:126-127 | with sorted, distinct, non-negative classes containing 0 and 1, the page and app.py's column 1 read the same entry |
| PredictPage.ColumnOneIsNonToxicWhenClassesReversed | pages/1_Predict.py:126-127 | with classes `[1, 0]` the page reads 0.9 where app.py's column 1 reads 0.1 |
| PredictPage.ShortRowStillReadsLabelOne | pages/1_Predict.py:126-127 | with classes `[1, 0, 2]` and the two-entry row `[0.7, 0.3]` the page reads 0.7, since only label 1's position must lie within the row |
| PredictPage.SingleClassModelRefused | pages/1_Predict.py:121-124 | a model trained on the single class 1 never gets a prediction; once the SMILES and vector guards pass, the page stops with the wrong-classes error for `[1]` |

## Left out

- Streamlit rendering is not modelled. This covers page setup, CSS and HTML,
  cards, metrics, the progress bar, sliders and buttons, and `st.stop`/`st.rerun`.
  A stop becomes a `Failure` value.
- The PubChem lookup and the name resolver are network code. `SaveFetched` takes the
  resolver's `(smiles, source, error)` answer as input instead.
- Artifact loading through joblib is file I/O. The model and the vectorizer are given
  as data.
- The vectorizer's `transform` is scikit-learn internals. It becomes a supplied sparse
  row, or a function parameter `vectorize` in `PredictPage.Predict`. The models'
  outputs on the current input (the probability row, the decision score, the predicted
  label) are given as data.
- Utils.PredictSmiles: the logistic transform `1 / (1 + exp(-score))` is floating-point
  numerics, so it is a function parameter and is not interpreted.
- All weights and probabilities are exact reals, so floating-point rounding is not
  modelled. Output formatting (`:.6f`, `:.4f`, `round(p * 100)`) is left out for the
  same reason.
- Class labels are modelled as integers.
- PredictPage.FdaProbability: the `try/except` around the second model is modelled by
  reporting nothing when its row is too short. No other exception source exists
  in the model.
- App.TopGlobalFeatures: only a vector or single-row `coef_` (a binary model, which
  the app expects) is modelled, through the requirement that the raveled weights
  match the feature names one to one. With three or more classes the code ranks the
  flattened matrix and indexes the names past their end, which raises `IndexError`;
  that failure is not modelled.
- App.LocalContributions: only a vector or single-row `coef_` is modelled, for the
  same reason. With several rows the code silently multiplies by row 0's weights,
  since the stored indices only reach into the first row of the flattened matrix;
  that case is not modelled.
- Utils.TopGlobalNgrams: a 2-D `coef_` is required to have a row, as scikit-learn
  guarantees. Indexing row 0 of an empty matrix is not modelled.
- `name_to_smiles`, `explain_local` and `UTILS_VERSION` are imported by the page but
  are not defined in utils.py, so they are not part of this model. The page reads
  `load_artifacts()` as a dictionary while utils.py returns a tuple; the model takes
  the dictionary's entries as given.
- The explanation page and the home and about pages are display code and are not
  part of this model.
