/** The contingency-table scorer `binary_pr` of score/pr.py: the three
    integrity checks, the inner join on CellID, the TP/TN/FP/FN counts and
    the exact precision and recall ratios. */
module Contingency {
  import opened Tables

  /** One row of the merged table: (class_label_truth, class_label_pred). */
  datatype Pair = Pair(truth: int, pred: int)

  /** Counts of the four cells of the contingency table. */
  datatype Confusion = Confusion(tp: nat, tn: nat, fp: nat, fn: nat)

  /** Which ratio the scorer was computing. */
  datatype Quantity = Precision | Recall

  /** Why `binary_pr` stops: one failed assertion per integrity check, or a
      division by zero (Python's ZeroDivisionError). */
  datatype PrError =
    | IdMismatch
    | PredictionLabelsNotBinary
    | TruthLabelsNotBinary
    | DivisionByZero(quantity: Quantity)

  /** Exact precision and recall; the source rounds both to two decimals. */
  datatype Scores = Scores(precision: real, recall: real)

  datatype Result = Ok(value: Scores) | Err(error: PrError)

  /** The merged rows produced by one truth row: one pair for every
      prediction row carrying the same CellID, in prediction order. */
  function Matches(r: Row, calls: Table): (ms: seq<Pair>)
  {
    if calls == [] then []
    else
      (if calls[0].cellId == r.cellId then [Pair(r.classLabel, calls[0].classLabel)] else [])
      + Matches(r, calls[1..])
  }

  /** `truth.merge(calls, how='inner', on='CellID')`: every pair of a truth
      row and a prediction row with equal CellIDs. */
  function Merge(truth: Table, calls: Table): (m: seq<Pair>)
  {
    if truth == [] then [] else Matches(truth[0], calls) + Merge(truth[1..], calls)
  }

  /** Number of merged rows labelled `t` in truth and `p` in predictions
      (the length of one boolean-mask selection of the merged table). */
  function CountWhere(m: seq<Pair>, t: int, p: int): (n: nat)
  {
    if m == [] then 0 else (if m[0] == Pair(t, p) then 1 else 0) + CountWhere(m[1..], t, p)
  }

  /** Number of merged rows whose truth label is `t`. */
  function CountTruth(m: seq<Pair>, t: int): (n: nat)
  {
    if m == [] then 0 else (if m[0].truth == t then 1 else 0) + CountTruth(m[1..], t)
  }

  /** Number of merged rows whose predicted label is `p`. */
  function CountPred(m: seq<Pair>, p: int): (n: nat)
  {
    if m == [] then 0 else (if m[0].pred == p then 1 else 0) + CountPred(m[1..], p)
  }

  /** Both labels of every merged row are 0 or 1. */
  predicate BinaryPairs(m: seq<Pair>)
  {
    forall q :: q in m ==> (q.truth == 0 || q.truth == 1) && (q.pred == 0 || q.pred == 1)
  }

  /** The four boolean-mask selections of lines 27-34. */
  function Tally(m: seq<Pair>): (c: Confusion)
  {
    Confusion(CountWhere(m, 1, 1), CountWhere(m, 0, 0), CountWhere(m, 0, 1), CountWhere(m, 1, 0))
  }

  /** `binary_pr(calls, truth)`: the ID check comes first, then the
      prediction labels, then the truth labels; a successful run yields two
      ratios in [0, 1]. */
  function BinaryPr(calls: Table, truth: Table): (r: Result)
    ensures (r.Err? && r.error == IdMismatch) <==> Ids(calls) != Ids(truth)
    ensures (r.Err? && r.error == PredictionLabelsNotBinary) <==>
              Ids(calls) == Ids(truth) && !Binary(calls)
    ensures (r.Err? && r.error == TruthLabelsNotBinary) <==>
              Ids(calls) == Ids(truth) && Binary(calls) && !Binary(truth)
    ensures r.Ok? ==> 0.0 <= r.value.precision <= 1.0 && 0.0 <= r.value.recall <= 1.0
  {
    LabelsBinary(calls);
    LabelsBinary(truth);
    if Ids(calls) != Ids(truth) then Err(IdMismatch)
    else if !(Labels(calls) <= {0, 1}) then Err(PredictionLabelsNotBinary)
    else if !(Labels(truth) <= {0, 1}) then Err(TruthLabelsNotBinary)
    else
      var c := Tally(Merge(truth, calls));
      if c.tp + c.fp == 0 then Err(DivisionByZero(Precision))
      else if c.tp + c.fn == 0 then Err(DivisionByZero(Recall))
      else
        RatioInUnit(c.tp, c.tp + c.fp);
        RatioInUnit(c.tp, c.tp + c.fn);
        Ok(Scores(c.tp as real / (c.tp + c.fp) as real, c.tp as real / (c.tp + c.fn) as real))
  }

  lemma RatioInUnit(a: nat, b: nat)
    requires a <= b && 0 < b
    ensures 0.0 <= a as real / b as real <= 1.0
  {
  }

  lemma SelfRatio(a: nat)
    requires 0 < a
    ensures a as real / a as real == 1.0
  {
  }

  // ---------------------------------------------------------------------
  // Counting lemmas

  lemma {:induction false} CountWhereAppend(a: seq<Pair>, b: seq<Pair>, t: int, p: int)
    ensures CountWhere(a + b, t, p) == CountWhere(a, t, p) + CountWhere(b, t, p)
  {
    if a == [] {
      assert a + b == b;
    } else {
      assert (a + b)[1..] == a[1..] + b;
      CountWhereAppend(a[1..], b, t, p);
    }
  }

  lemma {:induction false} CountTruthAppend(a: seq<Pair>, b: seq<Pair>, t: int)
    ensures CountTruth(a + b, t) == CountTruth(a, t) + CountTruth(b, t)
  {
    if a == [] {
      assert a + b == b;
    } else {
      assert (a + b)[1..] == a[1..] + b;
      CountTruthAppend(a[1..], b, t);
    }
  }

  lemma {:induction false} CountPredAppend(a: seq<Pair>, b: seq<Pair>, p: int)
    ensures CountPred(a + b, p) == CountPred(a, p) + CountPred(b, p)
  {
    if a == [] {
      assert a + b == b;
    } else {
      assert (a + b)[1..] == a[1..] + b;
      CountPredAppend(a[1..], b, p);
    }
  }

  /** With binary labels each merged row lies in exactly one of TP, TN, FP
      and FN, so the four counts add up to the merged size. */
  lemma {:induction false} TallyPartitions(m: seq<Pair>)
    requires BinaryPairs(m)
    ensures var c := Tally(m); c.tp + c.tn + c.fp + c.fn == |m|
  {
    if m != [] {
      assert m[0] in m;
      assert BinaryPairs(m[1..]) by {
        forall q | q in m[1..] ensures q in m { }
      }
      TallyPartitions(m[1..]);
    }
  }

  /** With binary truth labels, TP + FP counts the merged rows predicted 1. */
  lemma {:induction false} PredictedPositives(m: seq<Pair>)
    requires forall q :: q in m ==> q.truth == 0 || q.truth == 1
    ensures CountWhere(m, 1, 1) + CountWhere(m, 0, 1) == CountPred(m, 1)
  {
    if m != [] {
      assert m[0] in m;
      assert forall q :: q in m[1..] ==> q in m;
      PredictedPositives(m[1..]);
    }
  }

  /** With binary predicted labels, TP + FN counts the merged rows labelled 1 in truth. */
  lemma {:induction false} ActualPositives(m: seq<Pair>)
    requires forall q :: q in m ==> q.pred == 0 || q.pred == 1
    ensures CountWhere(m, 1, 1) + CountWhere(m, 1, 0) == CountTruth(m, 1)
  {
    if m != [] {
      assert m[0] in m;
      assert forall q :: q in m[1..] ==> q in m;
      ActualPositives(m[1..]);
    }
  }

  /** When every merged row is positive in truth there are no true
      negatives and no false positives. */
  lemma {:induction false} AllTruthPositive(m: seq<Pair>)
    requires forall q :: q in m ==> q.truth == 1
    ensures CountWhere(m, 0, 0) == 0 && CountWhere(m, 0, 1) == 0
  {
    if m != [] {
      assert m[0] in m;
      assert forall q :: q in m[1..] ==> q in m;
      AllTruthPositive(m[1..]);
    }
  }

  // ---------------------------------------------------------------------
  // The join

  lemma {:induction false} MatchesLabels(r: Row, calls: Table)
    ensures forall q :: q in Matches(r, calls) ==> q.truth == r.classLabel && q.pred in Labels(calls)
  {
    if calls != [] {
      MatchesLabels(r, calls[1..]);
      assert calls[0] in calls;
      assert forall x :: x in calls[1..] ==> x in calls;
    }
  }

  /** Every merged row pairs a label of the truth table with a label of the
      prediction table. */
  lemma {:induction false} MergeLabels(truth: Table, calls: Table)
    ensures forall q :: q in Merge(truth, calls) ==> q.truth in Labels(truth) && q.pred in Labels(calls)
  {
    if truth != [] {
      MatchesLabels(truth[0], calls);
      MergeLabels(truth[1..], calls);
      assert truth[0] in truth;
      assert forall x :: x in truth[1..] ==> x in truth;
    }
  }

  /** When both tables passed the label checks, every merged row is binary. */
  lemma MergeBinary(truth: Table, calls: Table)
    requires Binary(truth) && Binary(calls)
    ensures BinaryPairs(Merge(truth, calls))
  {
    MergeLabels(truth, calls);
    LabelsBinary(truth);
    LabelsBinary(calls);
  }

  lemma {:induction false} MatchesSize(r: Row, calls: Table)
    ensures |Matches(r, calls)| == Occurrences(calls, r.cellId)
    ensures CountTruth(Matches(r, calls), r.classLabel) == |Matches(r, calls)|
    ensures forall t :: t != r.classLabel ==> CountTruth(Matches(r, calls), t) == 0
  {
    if calls != [] {
      MatchesSize(r, calls[1..]);
      var head := if calls[0].cellId == r.cellId then [Pair(r.classLabel, calls[0].classLabel)] else [];
      forall t ensures CountTruth(Matches(r, calls), t) == CountTruth(head, t) + CountTruth(Matches(r, calls[1..]), t) {
        CountTruthAppend(head, Matches(r, calls[1..]), t);
      }
    }
  }

  /** With unique prediction ids covering the truth ids, each truth row
      meets exactly one prediction row: the merge has one row per truth row
      and keeps the truth labels' counts. */
  lemma {:induction false} MergeFollowsTruth(truth: Table, calls: Table, t: int)
    requires UniqueIds(calls) && Ids(truth) <= Ids(calls)
    ensures |Merge(truth, calls)| == |truth|
    ensures CountTruth(Merge(truth, calls), t) == CountLabel(truth, t)
  {
    if truth != [] {
      assert truth[0] in truth;
      assert Ids(truth[1..]) <= Ids(truth) by {
        forall x | x in truth[1..] ensures x in truth { }
      }
      MatchesSize(truth[0], calls);
      UniqueOccursOnce(calls, truth[0].cellId);
      MergeFollowsTruth(truth[1..], calls, t);
      CountTruthAppend(Matches(truth[0], calls), Merge(truth[1..], calls), t);
    }
  }

  /** Merging against one prediction row: it is counted once per truth row
      sharing its CellID. */
  lemma {:induction false} MergeSingle(truth: Table, x: Row, p: int)
    ensures CountPred(Merge(truth, [x]), p) == if x.classLabel == p then Occurrences(truth, x.cellId) else 0
  {
    if truth != [] {
      MergeSingle(truth[1..], x, p);
      assert [x][1..] == [];
      var r := truth[0];
      assert Matches(r, [x]) == if x.cellId == r.cellId then [Pair(r.classLabel, x.classLabel)] else [];
      CountPredAppend(Matches(truth[0], [x]), Merge(truth[1..], [x]), p);
    }
  }

  /** The merge's predicted-label counts split along the prediction rows. */
  lemma {:induction false} MergeSplitCalls(truth: Table, calls: Table, p: int)
    requires calls != []
    ensures CountPred(Merge(truth, calls), p)
         == CountPred(Merge(truth, [calls[0]]), p) + CountPred(Merge(truth, calls[1..]), p)
  {
    if truth != [] {
      MergeSplitCalls(truth[1..], calls, p);
      var r := truth[0];
      var head := if calls[0].cellId == r.cellId then [Pair(r.classLabel, calls[0].classLabel)] else [];
      assert [calls[0]][1..] == [];
      assert Matches(r, [calls[0]]) == head;
      CountPredAppend(Matches(r, calls), Merge(truth[1..], calls), p);
      CountPredAppend(head, Matches(r, calls[1..]), p);
      CountPredAppend(head, Merge(truth[1..], [calls[0]]), p);
      CountPredAppend(Matches(r, calls[1..]), Merge(truth[1..], calls[1..]), p);
    }
  }

  /** With unique truth ids covering the prediction ids, the merge keeps the
      predicted labels' counts: each prediction row is met exactly once. */
  lemma {:induction false} MergeFollowsCalls(truth: Table, calls: Table, p: int)
    requires UniqueIds(truth) && Ids(calls) <= Ids(truth)
    ensures CountPred(Merge(truth, calls), p) == CountLabel(calls, p)
  {
    if calls == [] {
      assert Merge(truth, calls) == [] by { MergeEmptyCalls(truth); }
    } else {
      assert calls[0] in calls;
      assert Ids(calls[1..]) <= Ids(calls) by {
        forall x | x in calls[1..] ensures x in calls { }
      }
      MergeSplitCalls(truth, calls, p);
      MergeSingle(truth, calls[0], p);
      UniqueOccursOnce(truth, calls[0].cellId);
      MergeFollowsCalls(truth, calls[1..], p);
    }
  }

  lemma {:induction false} MergeEmptyCalls(truth: Table)
    ensures Merge(truth, []) == []
  {
    if truth != [] {
      MergeEmptyCalls(truth[1..]);
    }
  }

  /** For tables that pass the three checks and have unique CellIDs, the
      four counts add up to the merged size, which is the size of each
      table. */
  lemma ConfusionCoversTables(calls: Table, truth: Table)
    requires UniqueIds(calls) && UniqueIds(truth)
    requires Ids(calls) == Ids(truth) && Binary(calls) && Binary(truth)
    ensures var c := Tally(Merge(truth, calls));
            c.tp + c.tn + c.fp + c.fn == |Merge(truth, calls)| == |truth| == |calls|
  {
    MergeBinary(truth, calls);
    TallyPartitions(Merge(truth, calls));
    MergeFollowsTruth(truth, calls, 1);
    UniqueIdsSize(calls);
    UniqueIdsSize(truth);
  }

  /** What `binary_pr` computes, stated on the tables: precision is the
      true positives over the rows predicted 1, recall the true positives
      over the rows labelled 1 in truth; either denominator being zero is
      a division by zero, precision's first. */
  lemma ScoresOnTables(calls: Table, truth: Table)
    requires UniqueIds(calls) && UniqueIds(truth)
    requires Ids(calls) == Ids(truth) && Binary(calls) && Binary(truth)
    ensures var tp := CountWhere(Merge(truth, calls), 1, 1);
            var predicted := CountLabel(calls, 1);
            var actual := CountLabel(truth, 1);
            BinaryPr(calls, truth) ==
              if predicted == 0 then Err(DivisionByZero(Precision))
              else if actual == 0 then Err(DivisionByZero(Recall))
              else Ok(Scores(tp as real / predicted as real, tp as real / actual as real))
  {
    var m := Merge(truth, calls);
    MergeBinary(truth, calls);
    PredictedPositives(m);
    ActualPositives(m);
    MergeFollowsTruth(truth, calls, 1);
    MergeFollowsCalls(truth, calls, 1);
    LabelsBinary(calls);
    LabelsBinary(truth);
  }

  // ---------------------------------------------------------------------
  // Aligned tables

  /** The row-by-row pairing of two tables of equal length. */
  function Zip(truth: Table, calls: Table): (m: seq<Pair>)
    requires |truth| == |calls|
  {
    seq(|truth|, k requires 0 <= k < |truth| => Pair(truth[k].classLabel, calls[k].classLabel))
  }

  lemma {:induction false} MatchesAbsent(r: Row, calls: Table)
    requires r.cellId !in Ids(calls)
    ensures Matches(r, calls) == []
  {
    if calls != [] {
      assert calls[0] in calls;
      assert Ids(calls[1..]) <= Ids(calls) by {
        forall x | x in calls[1..] ensures x in calls { }
      }
      MatchesAbsent(r, calls[1..]);
    }
  }

  lemma {:induction false} MatchesUnique(r: Row, calls: Table, k: nat)
    requires UniqueIds(calls) && k < |calls| && calls[k].cellId == r.cellId
    ensures Matches(r, calls) == [Pair(r.classLabel, calls[k].classLabel)]
  {
    HeadIdFresh(calls);
    if k == 0 {
      MatchesAbsent(r, calls[1..]);
    } else {
      MatchesUnique(r, calls[1..], k - 1);
    }
  }

  /** When the two tables list the same cells in the same order (and the
      prediction ids are unique), the merge pairs the tables row by row. */
  lemma AlignedMerge(truth: Table, calls: Table)
    requires Aligned(truth, calls) && UniqueIds(calls)
    ensures Merge(truth, calls) == Zip(truth, calls)
  {
    var z := Zip(truth, calls);
    var j := |truth|;
    assert truth[j..] == [];
    while j > 0
      invariant 0 <= j <= |truth|
      invariant Merge(truth[j..], calls) == z[j..]
      decreases j
    {
      j := j - 1;
      assert truth[j..][1..] == truth[j + 1..];
      MatchesUnique(truth[j], calls, j);
      assert z[j..] == [z[j]] + z[j + 1..];
    }
  }

  /** Contingency counts of two aligned tables, row by row. */
  function CountRows(truth: Table, calls: Table, t: int, p: int): (n: nat)
    requires |truth| == |calls|
  {
    if truth == [] then 0
    else (if truth[0].classLabel == t && calls[0].classLabel == p then 1 else 0)
         + CountRows(truth[1..], calls[1..], t, p)
  }

  lemma {:induction false} ZipCounts(truth: Table, calls: Table, t: int, p: int)
    requires |truth| == |calls|
    ensures CountWhere(Zip(truth, calls), t, p) == CountRows(truth, calls, t, p)
  {
    if truth != [] {
      assert Zip(truth, calls)[1..] == Zip(truth[1..], calls[1..]);
      ZipCounts(truth[1..], calls[1..], t, p);
    }
  }

  /** On aligned tables every contingency count is the number of row
      positions carrying that (truth, prediction) label combination. */
  lemma AlignedTally(truth: Table, calls: Table, t: int, p: int)
    requires Aligned(truth, calls) && UniqueIds(calls)
    ensures CountWhere(Merge(truth, calls), t, p) == CountRows(truth, calls, t, p)
  {
    AlignedMerge(truth, calls);
    ZipCounts(truth, calls, t, p);
  }

  /** The worked example: TP = FP = FN = TN = 1 gives precision and recall 0.5. */
  lemma WorkedExample()
    ensures BinaryPr([Row(1, 1), Row(2, 1), Row(3, 0), Row(4, 0)],
                     [Row(1, 1), Row(2, 0), Row(3, 1), Row(4, 0)]) == Ok(Scores(0.5, 0.5))
  {
    var calls := [Row(1, 1), Row(2, 1), Row(3, 0), Row(4, 0)];
    var truth := [Row(1, 1), Row(2, 0), Row(3, 1), Row(4, 0)];
    assert Aligned(truth, calls) && UniqueIds(calls) && UniqueIds(truth);
    assert Binary(calls) && Binary(truth);
    AlignedSameIds(truth, calls);
    ScoresOnTables(calls, truth);
    AlignedTally(truth, calls, 1, 1);
    assert CountRows(truth, calls, 1, 1) == 1;
    assert CountLabel(calls, 1) == 2 && CountLabel(truth, 1) == 2;
  }
}
