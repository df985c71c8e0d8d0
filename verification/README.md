# Precision/recall scorer for cell-artifact labels

This project is a Dafny model of `score/pr.py`. That script scores a
classifier's per-cell quality-control calls against a truth table. Both
tables hold rows of (CellID, class_label).

- `binary_pr` runs three integrity checks, in this order:
  1. the CellID sets of the two tables must be equal;
  2. every predicted label must be 0 or 1;
  3. every truth label must be 0 or 1.

  It then inner-joins the tables on CellID and counts true/false
  positives and negatives. It returns precision = TP/(TP+FP) and
  recall = TP/(TP+FN).
- The driver loop visits the targets 2 (Fluor), 3 (Debris), 4 (Bubble),
  5 (Staining), 6 (Blur) and `'Overall'`, in that order. For each target
  it relabels fresh copies of both tables with `.loc` passes, then scores
  the copies with `binary_pr`.

Modules:

- `Tables` (Tables.dfy): a table is a `seq<Row>`, where `Row` holds a
  CellID and a class label. A table's pandas index is its row position,
  as for a freshly read CSV file. The module also has the id, label,
  uniqueness and alignment notions.
- `Contingency` (Contingency.dfy): `binary_pr` as the pure function
  `BinaryPr`. The join is `Merge`, which keeps every pair of rows with
  equal CellIDs, and `Tally` gives the four counts. Both ratios are exact
  `real` values. Every failure is a `Result` error:
  - `IdMismatch`, `PredictionLabelsNotBinary` and `TruthLabelsNotBinary`
    are the three failed assertions;
  - `DivisionByZero(Precision)` and `DivisionByZero(Recall)` are Python's
    ZeroDivisionError. The precision division is evaluated first.
- `Binarize` (Binarize.dfy): each `.loc` pass is an in-place method on an
  `array<Row>` (`SetWhereEq`, `SetWhereNe`). Each method is proved
  against a function on tables (`AssignWhereEq`, `AssignWhereNe`). The
  two branches of the loop body are `BinarizeOverall` and
  `BinarizeClass`.
- `Evaluate` (Evaluate.dfy): the loop itself. `Run` is its specification
  and `RunTargets` / `EvaluateTargets` are the imperative loop. The file
  also holds the lemmas about what each branch computes.

The model follows the code as written, including the places where it departs from a plain one-vs-rest scorer:

- The specific-class branch does not relabel the whole table. It first
  filters truth down to the rows already labelled `i`, which discards
  every true negative. As a result FP = TN = 0, and a successful score
  always has precision exactly 1 (`ClassBranchPrecisionOne`).
- The prediction rows for that branch are picked by row position
  (`index.isin`), not by CellID. The branch fails its ID check exactly
  when the CellIDs of truth's rows labelled `i` differ from the CellIDs at
  the same row positions of the prediction table (`ClassBranchIdCheck`).
  So a prediction table that lists the same cells in a different order
  can fail the check (`ClassBranchReordered`). A reordering that moves
  only rows not labelled `i` in truth passes it (`ClassBranchReorderedPasses`).
- In the prediction relabelling, a prediction already labelled 1 stays
  positive.
- The `'Overall'` relabelling is not idempotent. Applying it twice sends
  every label to 0 (`OverallTwice`).
- A zero denominator is not turned into a sentinel value. It raises
  ZeroDivisionError, which ends the script. So does a class that never
  occurs in the truth table (`ClassAbsentAborts`).

## Model

| member | source | states |
|---|---|---|
| `Tables.LabelsBinary` | score/pr.py:13-18 | The label check `set(labels) ⊆ {0, 1}` holds exactly when every row is labelled 0 or 1. |
| `Contingency.BinaryPr` | score/pr.py:6-40 | It fails with `IdMismatch` iff the CellID sets differ. Otherwise it fails with `PredictionLabelsNotBinary` iff a prediction label is outside {0,1}. Otherwise it fails with `TruthLabelsNotBinary` iff a truth label is outside {0,1}. On success both precision and recall lie in [0, 1]. |
| `Contingency.MergeLabels` | score/pr.py:21-23 | Every merged row pairs a label that occurs in truth with a label that occurs in the predictions. |
| `Contingency.MergeBinary` | score/pr.py:13-23 | Once both label checks pass, every merged row has two binary labels. |
| `Contingency.TallyPartitions` | score/pr.py:25-34 | When all merged labels are binary, each merged row lies in exactly one of TP, TN, FP and FN, so TP+TN+FP+FN is the merged size. |
| `Contingency.PredictedPositives` | score/pr.py:27-32 | With binary truth labels, TP + FP is the number of merged rows predicted 1. |
| `Contingency.ActualPositives` | score/pr.py:27-34 | With binary predicted labels, TP + FN is the number of merged rows labelled 1 in truth. |
| `Contingency.AllTruthPositive` | score/pr.py:29-32 | If every merged row has truth label 1, there are no true negatives and no false positives. |
| `Contingency.MergeFollowsTruth` | score/pr.py:21-23 | Suppose prediction CellIDs are unique and cover the truth CellIDs. Then the merge has one row per truth row and keeps each truth label's count. |
| `Contingency.MergeFollowsCalls` | score/pr.py:21-23 | Suppose truth CellIDs are unique and cover the prediction CellIDs. Then the merge keeps each predicted label's count. |
| `Contingency.ConfusionCoversTables` | score/pr.py:9-34 | For tables that pass the checks and have unique CellIDs: TP+TN+FP+FN = merged size = size of truth = size of predictions. |
| `Contingency.ScoresOnTables` | score/pr.py:21-38 | For tables that pass the checks and have unique CellIDs: precision = TP / (rows predicted 1) and recall = TP / (truth rows labelled 1). No predicted positive is a precision division by zero; otherwise, no actual positive is a recall division by zero. |
| `Contingency.AlignedMerge` | score/pr.py:21-23 | For tables listing the same unique CellIDs in the same order, the merge pairs the rows position by position. |
| `Contingency.AlignedTally` | score/pr.py:21-34 | For such aligned tables, each count is the number of row positions with that (truth, prediction) label pair. |
| `Contingency.WorkedExample` | score/pr.py:6-40 | The example with TP = FP = FN = TN = 1 scores precision 0.5 and recall 0.5. |
| `Binarize.Copy` | score/pr.py:59-60 | `.copy()` yields a fresh frame holding the same rows. |
| `Binarize.SetWhereEq` | score/pr.py:63-64 | The in-place pass `loc[label == v] = x` relabels exactly the rows labelled `v` and leaves every other row unchanged. |
| `Binarize.SetWhereNe` | score/pr.py:65-66 | The in-place pass `loc[label != v] = x` relabels exactly the rows not labelled `v` and leaves the others unchanged. |
| `Binarize.OverallNet` | score/pr.py:62-71 | The two `'Overall'` passes (1 → 0, then non-zero → 1) map 0 and 1 to 0 and every other label to 1. They keep each row's CellID, so the result is binary and has the same CellID set. |
| `Binarize.OverallTwice` | score/pr.py:62-71 | Relabelling an `'Overall'` output again sends every row to 0, so the scheme is not idempotent. |
| `Binarize.OverallPassesSwapped` | score/pr.py:62-71 | Pass order matters: run in the other order, the two passes send every row to 0. |
| `Binarize.BinarizeOverall` | score/pr.py:62-71 | Copying the table and running the two passes in place gives the `'Overall'` relabelling: the same CellIDs, with binary labels given by the net mapping. |
| `Binarize.SelectMembers` | score/pr.py:75-80 | A boolean-mask or `index.isin` selection keeps exactly the rows at the listed positions. |
| `Binarize.SelectNothing` | score/pr.py:75-80 | Selecting no position gives an empty frame. |
| `Binarize.SelectAligned` | score/pr.py:75-80 | Selecting the same positions from two aligned tables gives aligned tables. |
| `Binarize.SelectUnique` | score/pr.py:75-80 | A selection keeps CellIDs unique. |
| `Binarize.SelectByLabelSize` | score/pr.py:75 | Selecting the positions labelled `i` keeps as many rows as there are rows labelled `i`. |
| `Binarize.ClassTruthShape` | score/pr.py:74-77 | The class-`i` truth frame holds exactly one row `(CellID, 1)` for each truth row labelled `i`, and nothing else. |
| `Binarize.ClassCallsShape` | score/pr.py:79-84 | A prediction row is kept iff its position holds label `i` in truth. A kept row becomes 1 iff its label was `i` or 1, and 0 otherwise. The result is binary. |
| `Binarize.ClassIds` | score/pr.py:74-80 | The class-`i` truth frame holds the CellIDs of the truth rows labelled `i`. The class-`i` prediction frame holds the CellIDs found at those same row positions of the prediction table. |
| `Binarize.BinarizeClass` | score/pr.py:73-84 | The selection, copy and in-place passes of the class branch give the class-`i` frames. Truth is all 1 and has as many rows as truth rows labelled `i`; the predictions are binary. |
| `Evaluate.ScoreOne` | score/pr.py:59-87 | One iteration: relabel copies of the original tables for the target, then score them. |
| `Evaluate.RunShape` | score/pr.py:57-91 | A run visits the targets in order. Each line names its target and scores it from the original tables. Every line before the last succeeded, and a run shorter than the target list ends at an error. |
| `Evaluate.RunTargets` | score/pr.py:57-91 | The imperative loop produces exactly the run's lines and stops at the first error. |
| `Evaluate.EvaluateTargets` | score/pr.py:51-91 | The script visits Fluor, Debris, Bubble, Staining, Blur, Overall in this order. Each result is computed from the unmodified input tables. The script ends at the first failure. |
| `Evaluate.ClassBranchPrecisionOne` | score/pr.py:73-87 | In the class branch TN = FP = 0 and no label check fails. Every successful score has precision exactly 1. |
| `Evaluate.ClassAbsentAborts` | score/pr.py:73-87 | If no truth row is labelled `i`, both frames are empty and scoring class `i` is a precision division by zero. |
| `Evaluate.ClassTablesAligned` | score/pr.py:73-84 | For aligned tables with unique CellIDs, the class branch's two frames are aligned, unique and binary, and truth is all 1. The rows predicted 1 are the hits: truth rows labelled `i` whose prediction is `i` or 1. |
| `Evaluate.ClassTruePositives` | score/pr.py:27-28 | If every CellID of the class-`i` prediction frame occurs in the class-`i` truth frame (truth CellIDs unique), the class branch's true positives are exactly its predictions labelled 1. |
| `Evaluate.ClassBranch` | score/pr.py:73-87 | For any two tables with unique CellIDs, class `i` fails its ID check iff the two class-`i` frames hold different CellIDs. Otherwise it fails with a precision division by zero iff no kept prediction becomes 1. Otherwise precision = 1 and recall = (kept predictions that become 1) / (truth rows labelled `i`). |
| `Evaluate.ClassBranchIdCheck` | score/pr.py:80 | For any tables, class `i` fails its ID check iff the CellIDs at the truth rows labelled `i` differ from the CellIDs at the same row positions of the prediction table. |
| `Evaluate.ClassBranchAligned` | score/pr.py:73-87 | The aligned special case of `ClassBranch`: for aligned tables with unique CellIDs, class `i` fails with a precision division by zero iff there are no hits. Otherwise precision = 1 and recall = hits / (truth rows labelled `i`). |
| `Evaluate.ClassBranchReordered` | score/pr.py:80 | There are tables whose CellID sets agree and are unique, but whose rows are in a different order, for which the class branch fails its ID check. The example is a two-row swap. |
| `Evaluate.ClassBranchReorderedPasses` | score/pr.py:80 | A reordering that swaps only rows not labelled `i` in truth keeps the ID check passing, and class 2 scores precision 1 and recall 1. |
| `Evaluate.OverallPositives` | score/pr.py:62-71 | After the `'Overall'` relabelling, the rows labelled 1 are the rows whose original label was neither 0 nor 1. |
| `Evaluate.OverallBranch` | score/pr.py:62-87 | The `'Overall'` branch never fails a label check, and fails the ID check iff the original CellID sets differ. With unique ids, precision = TP / noisy predictions and recall = TP / noisy truth rows. No noisy prediction is a precision division by zero; otherwise, no noisy truth row is a recall division by zero. |

## Left out

- score/roc.py is not part of this model. It is a demonstration script: it trains an SVM on the iris data and computes ROC curves, AUC and micro/macro averages with sklearn and numpy. It then plots them with matplotlib. All of that is floating-point work inside library code.
- Reading the two CSV files named on the command line (score/pr.py:43-49) is left out; the tables are parameters.
- The `print` of each result line (score/pr.py:90-91) is left out. `Line` carries the display name and the outcome that would be printed. When a run ends in an error, its last `Line` holds that error, which the script raises instead of printing.
- `Contingency.BinaryPr` returns exact ratios. Python's `round(..., 2)` on the float quotient (score/pr.py:37-38) is not modelled.
- `Contingency.Merge` forms every pair of rows with equal CellIDs, which is pandas' result for duplicate keys too. It does not reproduce the row order of pandas' output; no count depends on that order. The lemmas that relate counts to table sizes assume unique CellIDs.
- Labels are integers. Float, missing (NaN) or string labels read from a CSV file are not modelled.
- The integrity checks are Python `assert` statements. The model assumes assertions are enabled, i.e. the script is not run with `python -O`.
- A table's index is assumed to be the default row-position index that `read_csv` produces.
