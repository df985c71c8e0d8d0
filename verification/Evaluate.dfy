/** The driver loop of score/pr.py (lines 51-91): for each target in the
    fixed order 2, 3, 4, 5, 6, 'Overall', relabel fresh copies of the two
    tables and score them with `binary_pr`. The script stops at the first
    failed assertion or division by zero. */
module Evaluate {
  import opened Tables
  import opened Contingency
  import opened Binarize

  /** A scoring target: one artifact class, or the aggregate 'Overall'. */
  datatype Target = Class(id: int) | Overall

  /** The loop's targets, in the order they are visited. */
  const Targets: seq<Target> := [Class(2), Class(3), Class(4), Class(5), Class(6), Overall]

  /** `class_metadata`: the display name of each target. */
  const ClassMetadata: map<Target, string> :=
    map[Class(2) := "Fluor", Class(3) := "Debris", Class(4) := "Bubble",
        Class(5) := "Staining", Class(6) := "Blur", Overall := "Overall"]

  /** The outcome of one loop iteration, under the target's display name. */
  datatype Line = Line(name: string, outcome: Result)

  /** One iteration's score: relabel copies of the original tables for
      target `t` and pass them to `binary_pr`. */
  function ScoreTarget(calls: Table, truth: Table, t: Target): (r: Result)
  {
    match t
    case Overall => BinaryPr(OverallRelabel(calls), OverallRelabel(truth))
    case Class(i) => BinaryPr(ClassCalls(calls, truth, i), ClassTruth(truth, i))
  }

  /** The lines of a run over `ts`: one per target until the first error,
      which ends the run (it is raised, not printed). */
  function Run(calls: Table, truth: Table, ts: seq<Target>): (lines: seq<Line>)
    requires forall t :: t in ts ==> t in ClassMetadata
  {
    if ts == [] then []
    else
      var line := Line(ClassMetadata[ts[0]], ScoreTarget(calls, truth, ts[0]));
      if line.outcome.Err? then [line] else [line] + Run(calls, truth, ts[1..])
  }

  /** Line `k` of a run is target `k`'s name and score. */
  lemma {:induction false} RunLines(calls: Table, truth: Table, ts: seq<Target>)
    requires forall t :: t in ts ==> t in ClassMetadata
    ensures |Run(calls, truth, ts)| <= |ts|
    ensures var lines := Run(calls, truth, ts);
            forall k :: 0 <= k < |lines| ==>
              lines[k] == Line(ClassMetadata[ts[k]], ScoreTarget(calls, truth, ts[k]))
  {
    if ts != [] {
      assert forall t :: t in ts[1..] ==> t in ts;
      RunLines(calls, truth, ts[1..]);
    }
  }

  /** A run is never empty for a non-empty target list, every line but the
      last succeeded, and it ends early only at an error. */
  lemma {:induction false} RunStops(calls: Table, truth: Table, ts: seq<Target>)
    requires forall t :: t in ts ==> t in ClassMetadata
    ensures |Run(calls, truth, ts)| <= |ts| && (ts != [] ==> 1 <= |Run(calls, truth, ts)|)
    ensures var lines := Run(calls, truth, ts);
            forall k :: 0 <= k < |lines| - 1 ==> lines[k].outcome.Ok?
    ensures var lines := Run(calls, truth, ts);
            |lines| < |ts| ==> lines[|lines| - 1].outcome.Err?
    ensures var lines := Run(calls, truth, ts);
            lines != [] && lines[|lines| - 1].outcome.Ok? ==> |lines| == |ts|
  {
    if ts != [] {
      assert forall t :: t in ts[1..] ==> t in ts;
      RunStops(calls, truth, ts[1..]);
    }
  }

  /** A run visits the targets in order, scores each from the original
      tables, and stops exactly at the first error. */
  lemma RunShape(calls: Table, truth: Table, ts: seq<Target>)
    requires forall t :: t in ts ==> t in ClassMetadata
    ensures |Run(calls, truth, ts)| <= |ts| && (ts != [] ==> 1 <= |Run(calls, truth, ts)|)
    ensures var lines := Run(calls, truth, ts);
            forall k :: 0 <= k < |lines| ==>
              lines[k] == Line(ClassMetadata[ts[k]], ScoreTarget(calls, truth, ts[k]))
    ensures var lines := Run(calls, truth, ts);
            forall k :: 0 <= k < |lines| - 1 ==> lines[k].outcome.Ok?
    ensures var lines := Run(calls, truth, ts);
            |lines| < |ts| ==> lines[|lines| - 1].outcome.Err?
    ensures var lines := Run(calls, truth, ts);
            lines != [] && lines[|lines| - 1].outcome.Ok? ==> |lines| == |ts|
  {
    RunLines(calls, truth, ts);
    RunStops(calls, truth, ts);
  }

  /** Every target has a display name. */
  lemma TargetsNamed()
    ensures forall t :: t in Targets ==> t in ClassMetadata
  {
  }

  /** The body of one iteration: relabel copies for `target`, then score. */
  method ScoreOne(calls: Table, truth: Table, target: Target) returns (outcome: Result)
    ensures outcome == ScoreTarget(calls, truth, target)
  {
    var binCalls, binTruth;
    match target {
      case Overall =>
        binTruth := BinarizeOverall(truth);
        binCalls := BinarizeOverall(calls);
      case Class(i) =>
        binCalls, binTruth := BinarizeClass(calls, truth, i);
    }
    outcome := BinaryPr(binCalls, binTruth);
  }

  /** The loop of lines 57-91 over the targets `ts`. */
  method RunTargets(calls: Table, truth: Table, ts: seq<Target>) returns (lines: seq<Line>)
    requires forall t :: t in ts ==> t in ClassMetadata
    ensures lines == Run(calls, truth, ts)
  {
    lines := [];
    var k := 0;
    while k < |ts|
      invariant 0 <= k <= |ts|
      invariant Run(calls, truth, ts) == lines + Run(calls, truth, ts[k..])
    {
      var target := ts[k];
      var outcome := ScoreOne(calls, truth, target);
      var line := Line(ClassMetadata[target], outcome);
      assert ts[k..][1..] == ts[k + 1..];
      lines := lines + [line];
      if outcome.Err? {
        return;
      }
      k := k + 1;
    }
  }

  /** The whole evaluation: one line per target, in the fixed order, each
      scored from the original tables, ending at the first error. */
  method EvaluateTargets(calls: Table, truth: Table) returns (lines: seq<Line>)
    ensures 1 <= |lines| <= |Targets|
    ensures forall k :: 0 <= k < |lines| ==>
              lines[k].name == ClassMetadata[Targets[k]] && lines[k].outcome == ScoreTarget(calls, truth, Targets[k])
    ensures forall k :: 0 <= k < |lines| - 1 ==> lines[k].outcome.Ok?
    ensures |lines| < |Targets| ==> lines[|lines| - 1].outcome.Err?
  {
    TargetsNamed();
    lines := RunTargets(calls, truth, Targets);
    RunShape(calls, truth, Targets);
  }

  // ---------------------------------------------------------------------
  // The specific-class branch

  /** The class branch keeps only truth rows labelled `i`, all relabelled 1:
      it never trips a label check, has no true negatives and no false
      positives, and when it succeeds its precision is exactly 1. */
  lemma ClassBranchPrecisionOne(calls: Table, truth: Table, i: int)
    ensures var c := Tally(Merge(ClassTruth(truth, i), ClassCalls(calls, truth, i)));
            c.tn == 0 && c.fp == 0
    ensures var r := ScoreTarget(calls, truth, Class(i));
            r != Err(PredictionLabelsNotBinary) && r != Err(TruthLabelsNotBinary)
    ensures var r := ScoreTarget(calls, truth, Class(i));
            r.Ok? ==> r.value.precision == 1.0
  {
    var bt, bc := ClassTruth(truth, i), ClassCalls(calls, truth, i);
    ClassTruthShape(truth, i);
    ClassCallsShape(calls, truth, i);
    MergeLabels(bt, bc);
    assert forall l :: l in Labels(bt) ==> l == 1;
    AllTruthPositive(Merge(bt, bc));
    assert Binary(bt);
    var tp := CountWhere(Merge(bt, bc), 1, 1);
    if tp > 0 {
      SelfRatio(tp);
    }
  }

  /** With no truth row labelled `i` both selections are empty and the
      precision division fails: the script aborts on that class. */
  lemma ClassAbsentAborts(calls: Table, truth: Table, i: int)
    requires CountLabel(truth, i) == 0
    ensures ScoreTarget(calls, truth, Class(i)) == Err(DivisionByZero(Precision))
  {
    CountLabelZero(truth, i);
    assert KeptIndex(truth, i) == {} by {
      forall p | 0 <= p < |truth| ensures truth[p].classLabel != i {
        assert truth[p] in truth;
      }
    }
    SelectNothing(truth);
    SelectNothing(calls);
    assert ClassTruth(truth, i) == [] && ClassCalls(calls, truth, i) == [];
  }

  /** Number of row positions labelled `i` in truth whose aligned
      prediction is `i` or 1. */
  function ClassHits(truth: Table, calls: Table, i: int): (n: nat)
    requires |truth| == |calls|
  {
    if truth == [] then 0
    else (if truth[0].classLabel == i && (calls[0].classLabel == i || calls[0].classLabel == 1) then 1 else 0)
         + ClassHits(truth[1..], calls[1..], i)
  }

  /** Number of rows that the prediction passes of class `i` turn into 1. */
  function CountPredPositive(t: Table, i: int): (n: nat)
  {
    if t == [] then 0 else (if ClassPredLabel(i, t[0].classLabel) == 1 then 1 else 0) + CountPredPositive(t[1..], i)
  }

  lemma {:induction false} CountPredPositiveAppend(a: Table, b: Table, i: int)
    ensures CountPredPositive(a + b, i) == CountPredPositive(a, i) + CountPredPositive(b, i)
  {
    if a == [] {
      assert a + b == b;
    } else {
      assert (a + b)[1..] == a[1..] + b;
      CountPredPositiveAppend(a[1..], b, i);
    }
  }

  lemma {:induction false} ClassHitsSnoc(truth: Table, calls: Table, i: int)
    requires |truth| == |calls| && truth != []
    ensures var n := |truth| - 1;
            ClassHits(truth, calls, i) == ClassHits(truth[..n], calls[..n], i)
              + (if truth[n].classLabel == i && ClassPredLabel(i, calls[n].classLabel) == 1 then 1 else 0)
  {
    var n := |truth| - 1;
    if n > 0 {
      ClassHitsSnoc(truth[1..], calls[1..], i);
      assert truth[1..][..n - 1] == truth[..n][1..];
      assert calls[1..][..n - 1] == calls[..n][1..];
    }
  }

  lemma {:induction false} PredPassesCount(s: Table, i: int)
    ensures CountLabel(AssignWhereNe(AssignWhereEq(s, i, 1), 1, 0), 1) == CountPredPositive(s, i)
  {
    if s != [] {
      PredPassesCount(s[1..], i);
      assert AssignWhereNe(AssignWhereEq(s, i, 1), 1, 0)[1..] == AssignWhereNe(AssignWhereEq(s[1..], i, 1), 1, 0);
    }
  }

  lemma {:induction false} SelectedHits(truth: Table, calls: Table, i: int, idx: set<int>)
    requires |truth| == |calls|
    requires forall p :: 0 <= p < |truth| ==> (p in idx <==> truth[p].classLabel == i)
    ensures CountPredPositive(SelectIndexIn(calls, idx), i) == ClassHits(truth, calls, i)
  {
    if calls != [] {
      var n := |calls| - 1;
      SelectedHits(truth[..n], calls[..n], i, idx);
      ClassHitsSnoc(truth, calls, i);
      CountPredPositiveAppend(SelectIndexIn(calls[..n], idx), if n in idx then [calls[n]] else [], i);
      assert [calls[n]][1..] == [];
    }
  }

  lemma {:induction false} ClassHitsBound(truth: Table, calls: Table, i: int)
    requires |truth| == |calls|
    ensures ClassHits(truth, calls, i) <= CountLabel(truth, i)
  {
    if truth != [] {
      ClassHitsBound(truth[1..], calls[1..], i);
    }
  }

  /** On aligned tables with unique CellIDs the two relabelled selections of
      the class branch are aligned, unique and binary, truth is all 1, and
      the rows predicted 1 are the hits. */
  lemma ClassTablesAligned(calls: Table, truth: Table, i: int)
    requires Aligned(truth, calls) && UniqueIds(truth)
    ensures var bt, bc := ClassTruth(truth, i), ClassCalls(calls, truth, i);
            Aligned(bt, bc) && UniqueIds(bt) && UniqueIds(bc) && Ids(bc) == Ids(bt)
            && Binary(bt) && Binary(bc) && (forall r :: r in bt ==> r.classLabel == 1)
            && CountLabel(bc, 1) == ClassHits(truth, calls, i)
            && CountLabel(bt, 1) == CountLabel(truth, i)
  {
    var idx := KeptIndex(truth, i);
    var bt, bc := ClassTruth(truth, i), ClassCalls(calls, truth, i);
    SelectAligned(truth, calls, idx);
    SelectUnique(truth, idx);
    assert Aligned(bt, bc);
    AlignedSameIds(bt, bc);
    ClassTruthShape(truth, i);
    ClassCallsShape(calls, truth, i);
    PredPassesCount(SelectIndexIn(calls, idx), i);
    SelectedHits(truth, calls, i, idx);
    BinaryCountsCover(bt);
  }

  /** When every CellID of the class-`i` prediction frame occurs in the
      class-`i` truth frame, the branch's true positives are exactly its
      rows predicted 1. */
  lemma ClassTruePositives(calls: Table, truth: Table, i: int)
    requires UniqueIds(truth) && Ids(ClassCalls(calls, truth, i)) <= Ids(ClassTruth(truth, i))
    ensures CountWhere(Merge(ClassTruth(truth, i), ClassCalls(calls, truth, i)), 1, 1)
         == CountLabel(ClassCalls(calls, truth, i), 1)
  {
    SelectUnique(truth, KeptIndex(truth, i));
    ClassTruthShape(truth, i);
    var bt, bc := ClassTruth(truth, i), ClassCalls(calls, truth, i);
    assert UniqueIds(bt);
    var m := Merge(bt, bc);
    MergeLabels(bt, bc);
    assert forall l :: l in Labels(bt) ==> l == 1;
    AllTruthPositive(m);
    PredictedPositives(m);
    MergeFollowsCalls(bt, bc, 1);
  }

  /** The class branch on aligned tables with unique CellIDs: it fails with
      a precision division by zero exactly when no truth row labelled `i`
      is predicted `i` or 1; otherwise precision is 1 and recall is the
      fraction of truth rows labelled `i` predicted `i` or 1. */
  lemma ClassBranchAligned(calls: Table, truth: Table, i: int)
    requires Aligned(truth, calls) && UniqueIds(truth)
    ensures ClassHits(truth, calls, i) <= CountLabel(truth, i)
    ensures var hits := ClassHits(truth, calls, i);
            ScoreTarget(calls, truth, Class(i)) ==
              if hits == 0 then Err(DivisionByZero(Precision))
              else Ok(Scores(1.0, hits as real / CountLabel(truth, i) as real))
  {
    ClassHitsBound(truth, calls, i);
    ClassTablesAligned(calls, truth, i);
    assert UniqueIds(calls);
    ClassBranch(calls, truth, i);
  }

  /** The class branch on any tables with unique CellIDs: it fails its ID
      check when the two class-`i` frames hold different CellIDs; otherwise
      it fails with a precision division by zero exactly when no kept
      prediction is `i` or 1, and else precision is 1 and recall is the
      fraction of truth rows labelled `i` whose kept prediction is `i` or 1. */
  lemma ClassBranch(calls: Table, truth: Table, i: int)
    requires UniqueIds(calls) && UniqueIds(truth)
    ensures var bt, bc := ClassTruth(truth, i), ClassCalls(calls, truth, i);
            Ids(bc) == Ids(bt) ==> CountLabel(bc, 1) <= CountLabel(truth, i)
    ensures var bt, bc := ClassTruth(truth, i), ClassCalls(calls, truth, i);
            var hits := CountLabel(bc, 1);
            ScoreTarget(calls, truth, Class(i)) ==
              if Ids(bc) != Ids(bt) then Err(IdMismatch)
              else if hits == 0 then Err(DivisionByZero(Precision))
              else Ok(Scores(1.0, hits as real / CountLabel(truth, i) as real))
  {
    var bt, bc := ClassTruth(truth, i), ClassCalls(calls, truth, i);
    if Ids(bc) == Ids(bt) {
      var idx := KeptIndex(truth, i);
      SelectUnique(truth, idx);
      SelectUnique(calls, idx);
      ClassTruthShape(truth, i);
      ClassCallsShape(calls, truth, i);
      assert UniqueIds(bt) && UniqueIds(bc);
      UniqueIdsSize(bt);
      UniqueIdsSize(bc);
      BinaryCountsCover(bt);
      BinaryCountsCover(bc);
      assert Binary(bt);
      ScoresOnTables(bc, bt);
      ClassTruePositives(calls, truth, i);
      var hits := CountLabel(bc, 1);
      if hits != 0 {
        SelfRatio(hits);
      }
    }
  }

  /** The class branch fails its ID check exactly when the CellIDs at the
      truth rows labelled `i` differ from the CellIDs found at the same row
      positions of the prediction table. */
  lemma ClassBranchIdCheck(calls: Table, truth: Table, i: int)
    ensures ScoreTarget(calls, truth, Class(i)) == Err(IdMismatch) <==>
              (set p | 0 <= p < |calls| && p < |truth| && truth[p].classLabel == i :: calls[p].cellId)
              != (set p | 0 <= p < |truth| && truth[p].classLabel == i :: truth[p].cellId)
  {
    ClassIds(calls, truth, i);
  }

  /** Every row of a table labelled only 1 counts toward `CountLabel(t, 1)`;
      no table has more rows labelled 1 than rows. */
  lemma {:induction false} BinaryCountsCover(t: Table)
    ensures CountLabel(t, 1) <= |t|
    ensures (forall r :: r in t ==> r.classLabel == 1) ==> CountLabel(t, 1) == |t|
  {
    if t != [] {
      assert forall r :: r in t[1..] ==> r in t;
      BinaryCountsCover(t[1..]);
    }
  }

  /** The index-based selection can misread a prediction table listed in a
      different row order: here the CellID sets agree, yet the class branch
      fails its ID check. */
  lemma ClassBranchReordered()
    ensures var truth := [Row(10, 2), Row(11, 0)];
            var calls := [Row(11, 0), Row(10, 2)];
            Ids(calls) == Ids(truth) && UniqueIds(calls) && UniqueIds(truth)
            && ScoreTarget(calls, truth, Class(2)) == Err(IdMismatch)
  {
    var truth := [Row(10, 2), Row(11, 0)];
    var calls := [Row(11, 0), Row(10, 2)];
    assert Row(10, 2) in truth && Row(11, 0) in truth;
    ClassTruthShape(truth, 2);
    ClassCallsShape(calls, truth, 2);
    var bt, bc := ClassTruth(truth, 2), ClassCalls(calls, truth, 2);
    assert Row(10, 1) in bt;
    assert 10 in Ids(bt);
    assert forall r :: r in bc ==> r.cellId == 11;
  }

  /** The class-2 frames of the reordered example below. */
  lemma ReorderedFrames(truth: Table, calls: Table)
    requires truth == [Row(10, 2), Row(11, 0), Row(12, 0)]
    requires calls == [Row(10, 2), Row(12, 0), Row(11, 0)]
    ensures ClassTruth(truth, 2) == [Row(10, 1)] && ClassCalls(calls, truth, 2) == [Row(10, 1)]
    ensures CountLabel(truth, 2) == 1
  {
    assert KeptIndex(truth, 2) == {0};
    var c1, c2, t2 := [Row(10, 2)], [Row(10, 2), Row(12, 0)], [Row(10, 2), Row(11, 0)];
    assert c1[..0] == [] && c2[..1] == c1 && calls[..2] == c2;
    assert SelectIndexIn(c1, {0}) == c1;
    assert SelectIndexIn(c2, {0}) == c1;
    assert SelectIndexIn(calls, {0}) == c1;
    assert t2[..1] == c1 && truth[..2] == t2;
    assert SelectIndexIn(t2, {0}) == c1;
    assert SelectIndexIn(truth, {0}) == c1;
    ClassTruthShape(truth, 2);
  }

  /** A reordering that moves only rows not labelled `i` in truth keeps the
      kept positions' CellIDs, and the class branch scores as usual. */
  lemma ClassBranchReorderedPasses(truth: Table, calls: Table)
    requires truth == [Row(10, 2), Row(11, 0), Row(12, 0)]
    requires calls == [Row(10, 2), Row(12, 0), Row(11, 0)]
    ensures Ids(calls) == Ids(truth) && calls != truth
    ensures ScoreTarget(calls, truth, Class(2)) == Ok(Scores(1.0, 1.0))
  {
    assert Ids(calls) == {10, 11, 12} == Ids(truth) by {
      IdsCons(calls);
      IdsCons(calls[1..]);
      IdsCons(calls[2..]);
      IdsCons(truth);
      IdsCons(truth[1..]);
      IdsCons(truth[2..]);
    }
    assert calls[1] != truth[1];
    assert UniqueIds(calls) && UniqueIds(truth);
    ReorderedFrames(truth, calls);
    var frame := [Row(10, 1)];
    assert Ids(frame) == {10} && CountLabel(frame, 1) == 1;
    ClassBranch(calls, truth, 2);
    SelfRatio(1);
  }

  // ---------------------------------------------------------------------
  // The 'Overall' branch

  /** Labels other than 0 and 1: the rows the 'Overall' scheme calls noisy. */
  function CountNoisy(t: Table): (n: nat)
  {
    if t == [] then 0 else (if t[0].classLabel != 0 && t[0].classLabel != 1 then 1 else 0) + CountNoisy(t[1..])
  }

  lemma {:induction false} OverallPositives(t: Table)
    ensures CountLabel(OverallRelabel(t), 1) == CountNoisy(t)
  {
    if t != [] {
      OverallPositives(t[1..]);
      assert OverallRelabel(t)[1..] == OverallRelabel(t[1..]);
    }
  }

  /** The 'Overall' branch never trips a label check and fails the ID check
      exactly when the original tables' CellID sets differ. With unique
      CellIDs, precision is the true positives over the predictions with a
      noisy label and recall the true positives over the truth rows with a
      noisy label; no noisy prediction, then no noisy truth row, is a
      division by zero. */
  lemma OverallBranch(calls: Table, truth: Table)
    ensures var r := ScoreTarget(calls, truth, Overall);
            r != Err(PredictionLabelsNotBinary) && r != Err(TruthLabelsNotBinary)
            && (r == Err(IdMismatch) <==> Ids(calls) != Ids(truth))
    ensures UniqueIds(calls) && UniqueIds(truth) && Ids(calls) == Ids(truth) ==>
            var tp := CountWhere(Merge(OverallRelabel(truth), OverallRelabel(calls)), 1, 1);
            ScoreTarget(calls, truth, Overall) ==
              if CountNoisy(calls) == 0 then Err(DivisionByZero(Precision))
              else if CountNoisy(truth) == 0 then Err(DivisionByZero(Recall))
              else Ok(Scores(tp as real / CountNoisy(calls) as real, tp as real / CountNoisy(truth) as real))
  {
    OverallNet(calls);
    OverallNet(truth);
    OverallPositives(calls);
    OverallPositives(truth);
    if UniqueIds(calls) && UniqueIds(truth) && Ids(calls) == Ids(truth) {
      var c, t := OverallRelabel(calls), OverallRelabel(truth);
      assert UniqueIds(c) && UniqueIds(t);
      ScoresOnTables(c, t);
    }
  }
}
