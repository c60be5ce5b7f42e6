# HR candidate classifier: encoding, labeling and explanation core

This project models the deterministic core of a small HR application (`main.py`). The
application trains a LightGBM classifier on synthetic candidate records and explains each
decision with SHAP. The model covers four parts:

- **Labeling rule.** `np.select` over three overlapping condition rows on
  `score_tecnico` and `score_softskills`. The first true row wins. The result is
  `'Aprovado'`, `'Aprovado Parcialmente'` or `'Reprovado'`, and the default is `'Reprovado'`
  (module `Labeling`).
- **Feature encoding.** `formacao` becomes an ordinal code. The selected languages become
  one 0/1 indicator per `MultiLabelBinarizer` class. The row is then reindexed against the
  training columns `X.columns`, and columns missing from the row are filled with 0. The
  module also derives `X.columns` itself (module `Encoding`).
- **Class order.** `model.classes_` is the sorted list of distinct training labels. When
  all three labels occur in training, the printed captions for `proba[0]`, `proba[1]` and
  `proba[2]` agree with it. This holds
  because the three label strings are already in Python's string order (modules
  `StringOrder` and `ClassOrder`).
- **Explanation.** The class index comes from `list(model.classes_).index(...)`. The three
  features with the largest absolute attribution are picked, and their names go through
  the translation table with pass-through for unknown names. The explanation list is built
  one entry at a time (module `Explanation`).

Some choices in the model:

- A frame row is a sequence of (column label, cell) pairs.
- A cell is an integer, `Missing` (pandas' NaN), a string, or a list of strings. The last two only occur before encoding.
- Strings are `seq<char>`, and `StringOrder.Less` is Python's `<` on `str`.
- The model starts from an already-typed `Candidate` record.
- LightGBM's `predict` and SHAP's per-class attributions are function parameters of
  `Explanation.Classificar`. The attribution accessor takes a class index, so it hides the
  list-versus-array branch on SHAP's output.
- Attributions are `int`.

Some of the code's behaviour differs from what its intent suggests. The model follows the code:

- A selected language that the binarizer does not know is silently dropped, not rejected.
  `MultiLabelBinarizer.transform` only warns about it (`Encoding.UnknownLanguagesIgnored`).
- An unknown `formacao` is not rejected either. `.map` turns it into NaN. NaN reaches the
  classifier, and `fill_value=0` does not replace it (`Encoding.ScalarColumns`).
- The column order is the five scalar fields in dictionary order, with `formacao`
  second, followed by the language classes in sorted order. The education column does not
  come last.
- Attribution ties are not broken by schema order in the code, because the default
  `np.argsort` is not stable. `Explanation.IsTopK` leaves the order of ties open.
  `Explanation.TopFeatures` takes the lower index first, which is one order the sort may
  produce.

## Model

| member | source | states |
|---|---|---|
| `Labeling.Label` | main.py:43 | `df['decisao']` for one record; `LabelByRows` and the three `Iff` lemmas state it |
| `Labeling.Select` | main.py:36-43 | `np.select` returns the choice of the first true condition, and the default only when no condition holds |
| `Labeling.LabelByRows` | main.py:36-43 | the label is 'Aprovado' if row 1 holds; otherwise 'Aprovado Parcialmente' if row 2 holds; otherwise 'Reprovado' |
| `Labeling.LabelApprovedIff` | main.py:37-43 | 'Aprovado' exactly when score_tecnico >= 80 and score_softskills >= 4, even though the later rows may also hold |
| `Labeling.LabelPartialIff` | main.py:38-43 | 'Aprovado Parcialmente' exactly when row 1 fails and 65 <= tec < 80 or 3 <= soft < 4 |
| `Labeling.LabelRejectedIff` | main.py:36-43 | 'Reprovado' exactly when rows 1 and 2 both fail |
| `Labeling.RowsCoverAllScores` | main.py:36-43 | for integer scores some row always holds, so the default never decides |
| `Labeling.LabelIsAChoice` | main.py:42-43 | the label is always one of the three choices |
| `Labeling.PrecedenceExamples` | main.py:36-43 | (tec 70, soft 5) gives 'Aprovado Parcialmente' and (tec 90, soft 2) gives 'Reprovado' |
| `Encoding.FormacaoCode` | main.py:128 | the ordinal map yields missing exactly for a value outside the table, and otherwise a code in 0..2 |
| `Encoding.FormacaoCodeBijective` | main.py:51 | Graduação, Mestrado and Bootcamp get 0, 1 and 2, and no two values share a code |
| `Encoding.MlbClassesAreSortedLabels` | main.py:31-32 | the binarizer's classes are the training languages, sorted and each listed once |
| `Encoding.MlbClassesValid` | main.py:31-33 | those classes never repeat and never clash with a scalar, `linguagens` or `decisao` column |
| `Encoding.Lookup` | main.py:172 | a cell is found exactly when the row has a column with that label, and it is that column's cell |
| `Encoding.Reindex` | main.py:137 | the result has exactly the given columns in order; a column the row has keeps its cell, a missing one is 0, others are dropped |
| `Encoding.ReindexAligned` | main.py:137 | reindexing a row already laid out as the schema returns it unchanged |
| `Encoding.ReindexIdempotent` | main.py:137 | reindexing twice against the same columns gives the same row as once |
| `Encoding.Drop` | main.py:33 | dropping a label keeps exactly the other columns |
| `Encoding.FeatureColumnsLayout` | main.py:28-47 | `X.columns` is the five scalar columns followed by the binarizer classes; `linguagens` and `decisao` are gone |
| `Encoding.WorkingRowDistinct` | main.py:127-136 | the row built before reindexing has no repeated column label |
| `Encoding.ProcessarEntrada` | main.py:116-139 | the encoded row's columns are exactly the schema, in order |
| `Encoding.TrainingAndInferenceAgree` | main.py:28-137 | against `X.columns`, the inference path (`.map`, drop, concat, reindex) gives exactly the row the training path (drop, concat, label, select, `.map`) puts in `X` for the same record |
| `Encoding.TrainingRowShape` | main.py:28-51 | the training path yields the five scalar cells, `formacao` coded, followed by the language indicators |
| `Encoding.WorkingRowShape` | main.py:127-136 | the inference path before reindexing yields the same scalar cells followed by the indicators |
| `Encoding.DropLanguagesFromRaw` | main.py:33 | dropping `linguagens` from the record's row leaves its five scalar cells; mapping `formacao` first changes only that cell |
| `Encoding.DropCells` | main.py:136 | dropping a label from a row removes exactly the cells under that label |
| `Encoding.DropCellsAppend` | main.py:136 | dropping from a concatenation drops from each part |
| `Encoding.RawRow` | main.py:118-127 | the record's dictionary row; its meaning is fixed by `DropLanguagesFromRaw` |
| `Encoding.MapFormacao` | main.py:51 | `.map` on the `formacao` column; `DropLanguagesFromRaw` and `ScalarColumns` state what it yields |
| `Encoding.TrainingRow` | main.py:28-51 | the training-matrix row of a record; `TrainingRowShape` and `TrainingAndInferenceAgree` state it |
| `Encoding.WorkingRow` | main.py:127-136 | `df_final` before reindexing; `WorkingRowShape` and `WorkingRowDistinct` state it |
| `Encoding.FormacaoCell` | main.py:128 | the coded `formacao` cell; `FormacaoCode` and `ScalarColumns` state it |
| `Encoding.MlbClasses` | main.py:31-32 | `mlb.classes_`; `MlbClassesAreSortedLabels` and `MlbClassesValid` state it |
| `Encoding.LanguageCells` | main.py:131-134 | the `mlb.transform` indicators; `LanguageColumnIff` states them |
| `Encoding.FeatureColumns` | main.py:46-47 | `X.columns`; `FeatureColumnsLayout` states it |
| `Encoding.LanguageColumnIff` | main.py:131-137 | a language column is 1 exactly when that language was selected and 0 exactly when it was not |
| `Encoding.ScalarColumns` | main.py:118-137 | the scalar fields are copied, and an unknown formacao stays missing rather than 0 |
| `Encoding.AbsentColumnIsZero` | main.py:137 | a schema column the record does not produce is 0 |
| `Encoding.UnknownLanguagesIgnored` | main.py:131-134 | languages outside the binarizer's classes do not change the encoded row |
| `ClassOrder.TrainingLabels` | main.py:43-48 | the label column `y`; `TrainingLabelsAreChoices` states it |
| `ClassOrder.TrainingLabelsAreChoices` | main.py:42-43 | every training label is one of the three choices |
| `ClassOrder.ChoicesSorted` | main.py:42 | 'Aprovado' < 'Aprovado Parcialmente' < 'Reprovado' in Python string order |
| `ClassOrder.CaptionsMatchClasses` | main.py:189-191 | when all three labels occur in training, `classes_` equals the caption list printed beside proba[0..2] |
| `ClassOrder.MissingLabelShortensClasses` | main.py:189-191 | when a label never occurs in training, `classes_` has fewer entries than there are captions |
| `ClassOrder.IndexOf` | main.py:157 | `.index` returns the first position holding the label, and nothing exactly when the label is absent |
| `ClassOrder.PredictedClassCaption` | main.py:157 | the caption at the predicted class's position is the predicted label |
| `Explanation.LargestUntaken` | main.py:167 | returns an untaken index whose magnitude is at least every untaken magnitude, the lowest such index |
| `Explanation.TopPrefixExtend` | main.py:167 | appending the largest untaken index keeps the taken list distinct, valid and non-increasing, with nothing larger left behind |
| `Explanation.TopFeatures` | main.py:167 | min(3, n) distinct valid indices in non-increasing absolute attribution; no unselected index exceeds a selected one |
| `Explanation.DisplayName` | main.py:175-180 | `traducao.get(feature, feature)`; `DisplayNameTable` and `DisplayNameInjective` state it |
| `Explanation.DisplayNameTable` | main.py:175-180 | the four fixed Portuguese labels, and a name is returned unchanged exactly when it is not in the table |
| `Explanation.DisplayLabelsAreFresh` | main.py:175-180 | the four labels are distinct and none is a schema column name |
| `Explanation.DisplayNameInjective` | main.py:175-180 | names that are not themselves display labels are never shown alike |
| `Explanation.DisplayNameInjectiveOnSchema` | main.py:166-180 | no two training features are shown under the same name |
| `Explanation.ExplainOne` | main.py:171-182 | one entry of the explanation loop; `ExplainOneAligned` states it |
| `Explanation.ExplainOneAligned` | main.py:170-182 | on the encoded row, entry idx shows the translated feature name, that feature's own cell and its attribution |
| `Explanation.Explain` | main.py:169-182 | one entry per selected index in order, or the error of the first index whose lookup fails |
| `Explanation.Classificar` | main.py:145-182 | the decision is the prediction, the class index is its position in `classes_`, the entries are the top 3 of that class's attributions, and there is no failure when the prediction is a known class and that class's attributions are no longer than the schema (SHAP gives one per feature) |

## Left out

- Synthetic data generation (main.py:15-26): it draws random numbers and uses floats. The model takes the generated records as input.
- LightGBM training and prediction and the SHAP explainer (main.py:54-59, 152-153, 156): these are foreign floating-point computations. `Classificar` receives the predictor and the attribution accessor as functions.
- The list-versus-array branch on the shape of SHAP's output (main.py:160-163): it is folded into the single accessor `attributionsFor(row, classIndex)`.
- The Tkinter interface (main.py:64-114, 141-143, 184-211, 213-217): widgets, message boxes and form clearing are UI.
- Parsing of the widget strings with `int`, `float` and `round` (main.py:119-123): the model starts from a typed `Candidate`.
- Float formatting of the probabilities and of each entry's impact (main.py:182, 185-195): only the caption order is modelled. The `IndexError` that `proba[2]` would raise with fewer than three classes is shown only as the length fact of `MissingLabelShortensClasses`.
- Attributions are integers rather than floats. The additive conservation of SHAP values is a property of the library, not of this code.
- Encoding.MlbClasses: it is computed by keeping the members of the fixed sorted language list. That equals sklearn's sorted set of labels only when every training label comes from that list, which the generator guarantees (main.py:24). `MlbClassesAreSortedLabels` proves the equality under exactly that condition.
- Encoding.Reindex: it requires that the row has no repeated column label. pandas refuses to reindex some frames with repeated labels, depending on its version. Every row the program builds has distinct labels (`WorkingRowDistinct`).
- `processar_entrada`'s exception handler (main.py:141-143): from a typed record no exception remains, because an unknown language only produces a warning.
- Encoding.DropCells: pandas' `drop` raises `KeyError` on a label the frame lacks; the model's drop is a total filter. Every drop the program performs names a present column (`linguagens` at main.py:33 and main.py:136, `decisao` at main.py:46), so no reachable behaviour differs.
- Encoding.Drop: the same holds for dropping a label from the column list; a missing label would raise `KeyError` in pandas and is simply not removed here.
- Explanation.Classificar: it returns `Success` even when `classes_` has fewer than three entries. The source then raises `IndexError` at `proba[2]` (main.py:191), and the handler at main.py:199-200 turns the whole result into an error. The model leaves that out with the probability formatting; `MissingLabelShortensClasses` shows when it happens.
