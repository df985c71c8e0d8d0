/** The relabelling of score/pr.py lines 57-85: fresh copies of the two
    tables are relabelled in place by sequential `.loc` passes, either by
    the 'Overall' scheme or for one artifact class. */
module Binarize {
  import opened Tables

  // ---------------------------------------------------------------------
  // One `.loc` pass, as a function on tables and as an in-place method

  /** `t.loc[t['class_label'] == v, 'class_label'] = x` */
  function AssignWhereEq(t: Table, v: int, x: int): (s: Table)
  {
    seq(|t|, k requires 0 <= k < |t| => if t[k].classLabel == v then t[k].(classLabel := x) else t[k])
  }

  /** `t.loc[t['class_label'] != v, 'class_label'] = x` */
  function AssignWhereNe(t: Table, v: int, x: int): (s: Table)
  {
    seq(|t|, k requires 0 <= k < |t| => if t[k].classLabel != v then t[k].(classLabel := x) else t[k])
  }

  /** The pass `a.loc[a['class_label'] == v, 'class_label'] = x`, in place. */
  method SetWhereEq(a: array<Row>, v: int, x: int)
    modifies a
    ensures a[..] == AssignWhereEq(old(a[..]), v, x)
  {
    ghost var before := a[..];
    for k := 0 to a.Length
      invariant forall j :: 0 <= j < k ==> a[j] == AssignWhereEq(before, v, x)[j]
      invariant forall j :: k <= j < a.Length ==> a[j] == before[j]
    {
      if a[k].classLabel == v {
        a[k] := a[k].(classLabel := x);
      }
    }
  }

  /** The pass `a.loc[a['class_label'] != v, 'class_label'] = x`, in place. */
  method SetWhereNe(a: array<Row>, v: int, x: int)
    modifies a
    ensures a[..] == AssignWhereNe(old(a[..]), v, x)
  {
    ghost var before := a[..];
    for k := 0 to a.Length
      invariant forall j :: 0 <= j < k ==> a[j] == AssignWhereNe(before, v, x)[j]
      invariant forall j :: k <= j < a.Length ==> a[j] == before[j]
    {
      if a[k].classLabel != v {
        a[k] := a[k].(classLabel := x);
      }
    }
  }

  /** `t.copy()`: a fresh frame holding the rows of `t`. */
  method Copy(t: Table) returns (a: array<Row>)
    ensures fresh(a) && a[..] == t
  {
    a := new Row[|t|](k requires 0 <= k < |t| => t[k]);
  }

  // ---------------------------------------------------------------------
  // The 'Overall' scheme (lines 62-71)

  /** Net effect of the two 'Overall' passes on one label: 0 and 1 are
      "clean" (0), every other label is "noisy" (1). */
  function OverallLabel(l: int): (net: int)
  {
    if l == 0 || l == 1 then 0 else 1
  }

  /** The two passes in source order: 1 -> 0, then every non-zero -> 1. */
  function OverallRelabel(t: Table): (s: Table)
  {
    AssignWhereNe(AssignWhereEq(t, 1, 0), 0, 1)
  }

  /** The two passes send each row's label through `OverallLabel` and keep
      the CellIDs; the result is binary. */
  lemma OverallNet(t: Table)
    ensures Aligned(OverallRelabel(t), t)
    ensures forall k :: 0 <= k < |t| ==> OverallRelabel(t)[k].classLabel == OverallLabel(t[k].classLabel)
    ensures Binary(OverallRelabel(t)) && Ids(OverallRelabel(t)) == Ids(t)
  {
    AlignedSameIds(OverallRelabel(t), t);
  }

  /** Relabelling an 'Overall' output once more sends every row to 0: the
      scheme is not idempotent. */
  lemma OverallTwice(t: Table)
    ensures Aligned(OverallRelabel(OverallRelabel(t)), t)
    ensures forall k :: 0 <= k < |t| ==> OverallRelabel(OverallRelabel(t))[k].classLabel == 0
  {
    OverallNet(t);
    OverallNet(OverallRelabel(t));
  }

  /** The pass order matters: run the other way round, the two passes send
      every row to 0. */
  lemma OverallPassesSwapped(t: Table)
    ensures forall k :: 0 <= k < |t| ==> AssignWhereEq(AssignWhereNe(t, 0, 1), 1, 0)[k].classLabel == 0
  {
  }

  /** The 'Overall' branch: copy the table, then run the two passes on the copy. */
  method BinarizeOverall(t: Table) returns (r: Table)
    ensures r == OverallRelabel(t)
    ensures Aligned(r, t) && Binary(r)
    ensures forall k :: 0 <= k < |t| ==> r[k].classLabel == OverallLabel(t[k].classLabel)
  {
    var a := Copy(t);
    SetWhereEq(a, 1, 0);  // clean
    SetWhereNe(a, 0, 1);  // noisy
    r := a[..];
    OverallNet(t);
  }

  // ---------------------------------------------------------------------
  // The specific-class scheme (lines 73-84)

  /** Row positions of `truth` labelled `i`: the index of
      `truth[truth['class_label'] == i]`. */
  function KeptIndex(truth: Table, i: int): (kept: set<int>)
  {
    set p | 0 <= p < |truth| && truth[p].classLabel == i
  }

  /** The rows of `t` whose index (row position) is in `idx`, in order:
      a boolean-mask selection, which keeps the index of each kept row. */
  function SelectIndexIn(t: Table, idx: set<int>): (s: Table)
  {
    if t == [] then []
    else SelectIndexIn(t[..|t| - 1], idx) + (if |t| - 1 in idx then [t[|t| - 1]] else [])
  }

  /** Net effect of the two prediction passes on one label for class `i`:
      `i` becomes 1, 1 stays 1, every other label becomes 0. */
  function ClassPredLabel(i: int, l: int): (net: int)
  {
    if l == i || l == 1 then 1 else 0
  }

  /** Lines 75-77: keep the truth rows labelled `i` and relabel them 1. */
  function ClassTruth(truth: Table, i: int): (bt: Table)
  {
    AssignWhereEq(SelectIndexIn(truth, KeptIndex(truth, i)), i, 1)
  }

  /** Lines 80-84: keep the prediction rows whose position is kept in
      truth, then `i` -> 1 and every label other than 1 -> 0. */
  function ClassCalls(calls: Table, truth: Table, i: int): (bc: Table)
  {
    AssignWhereNe(AssignWhereEq(SelectIndexIn(calls, KeptIndex(truth, i)), i, 1), 1, 0)
  }

  /** A row is selected iff it sits at a position listed in `idx`. */
  lemma {:induction false} SelectMembers(t: Table, idx: set<int>)
    ensures forall r :: r in SelectIndexIn(t, idx) <==> exists p :: 0 <= p < |t| && p in idx && t[p] == r
  {
    if t != [] {
      var n := |t| - 1;
      SelectMembers(t[..n], idx);
      forall r ensures r in SelectIndexIn(t, idx) <==> exists p :: 0 <= p < |t| && p in idx && t[p] == r {
        if r in SelectIndexIn(t, idx) && r !in SelectIndexIn(t[..n], idx) {
          assert n in idx && t[n] == r;
        }
        if exists p :: 0 <= p < |t| && p in idx && t[p] == r {
          var p :| 0 <= p < |t| && p in idx && t[p] == r;
          if p < n {
            assert t[..n][p] == r;
          }
        }
      }
    }
  }

  /** Selecting no position gives the empty table. */
  lemma {:induction false} SelectNothing(t: Table)
    ensures SelectIndexIn(t, {}) == []
  {
    if t != [] {
      SelectNothing(t[..|t| - 1]);
    }
  }

  /** Selecting the same positions of two aligned tables gives aligned tables. */
  lemma {:induction false} SelectAligned(a: Table, b: Table, idx: set<int>)
    requires Aligned(a, b)
    ensures Aligned(SelectIndexIn(a, idx), SelectIndexIn(b, idx))
  {
    if a != [] {
      var n := |a| - 1;
      SelectAligned(a[..n], b[..n], idx);
    }
  }

  /** A selection keeps CellIDs unique. */
  lemma {:induction false} SelectUnique(t: Table, idx: set<int>)
    requires UniqueIds(t)
    ensures UniqueIds(SelectIndexIn(t, idx))
  {
    if t != [] {
      var n := |t| - 1;
      SelectUnique(t[..n], idx);
      SelectMembers(t[..n], idx);
      var s := SelectIndexIn(t[..n], idx);
      if n in idx {
        forall k | 0 <= k < |s| ensures s[k].cellId != t[n].cellId {
          assert s[k] in s;
          var p :| 0 <= p < n && p in idx && t[..n][p] == s[k];
          assert t[p] == s[k];
        }
      }
    }
  }

  /** Selecting the positions that carry label `i` keeps `CountLabel(t, i)` rows. */
  lemma {:induction false} SelectByLabelSize(t: Table, idx: set<int>, i: int)
    requires forall p :: 0 <= p < |t| ==> (p in idx <==> t[p].classLabel == i)
    ensures |SelectIndexIn(t, idx)| == CountLabel(t, i)
  {
    if t != [] {
      var n := |t| - 1;
      SelectByLabelSize(t[..n], idx, i);
      assert t == t[..n] + [t[n]];
      CountLabelAppend(t[..n], [t[n]], i);
      assert [t[n]][1..] == [];
    }
  }

  /** The truth side of the class branch: every kept row is positive, and
      there are as many of them as truth rows labelled `i`. */
  lemma ClassTruthShape(truth: Table, i: int)
    ensures forall r :: r in ClassTruth(truth, i) ==> r.classLabel == 1
    ensures |ClassTruth(truth, i)| == CountLabel(truth, i)
    ensures forall r :: r in ClassTruth(truth, i) <==>
              exists p :: 0 <= p < |truth| && truth[p].classLabel == i && r == Row(truth[p].cellId, 1)
  {
    var s := SelectIndexIn(truth, KeptIndex(truth, i));
    SelectByLabelSize(truth, KeptIndex(truth, i), i);
    SelectMembers(truth, KeptIndex(truth, i));
    var ct := ClassTruth(truth, i);
    forall r | r in ct ensures r.classLabel == 1 {
      var k :| 0 <= k < |ct| && ct[k] == r;
      assert s[k] in s;
    }
    forall r ensures r in ct <==>
        exists p :: 0 <= p < |truth| && truth[p].classLabel == i && r == Row(truth[p].cellId, 1) {
      if r in ct {
        var k :| 0 <= k < |ct| && ct[k] == r;
        assert s[k] in s;
        var p :| 0 <= p < |truth| && p in KeptIndex(truth, i) && truth[p] == s[k];
        assert r == Row(truth[p].cellId, 1);
      }
      if exists p :: 0 <= p < |truth| && truth[p].classLabel == i && r == Row(truth[p].cellId, 1) {
        var p :| 0 <= p < |truth| && truth[p].classLabel == i && r == Row(truth[p].cellId, 1);
        assert p in KeptIndex(truth, i);
        assert truth[p] in s;
        var k :| 0 <= k < |s| && s[k] == truth[p];
        assert ct[k] == r;
      }
    }
  }

  /** The prediction side of the class branch: a prediction row is kept iff
      its position holds label `i` in truth, and a kept row becomes 1 iff
      its original label is `i` or 1. */
  lemma ClassCallsShape(calls: Table, truth: Table, i: int)
    ensures Binary(ClassCalls(calls, truth, i))
    ensures forall r :: r in ClassCalls(calls, truth, i) <==>
              exists p :: 0 <= p < |calls| && p < |truth| && truth[p].classLabel == i &&
                          r == Row(calls[p].cellId, ClassPredLabel(i, calls[p].classLabel))
  {
    var idx := KeptIndex(truth, i);
    var s := SelectIndexIn(calls, idx);
    SelectMembers(calls, idx);
    var cc := ClassCalls(calls, truth, i);
    assert |cc| == |s|;
    assert forall k :: 0 <= k < |s| ==> cc[k] == Row(s[k].cellId, ClassPredLabel(i, s[k].classLabel));
    forall r ensures r in cc <==>
        exists p :: 0 <= p < |calls| && p < |truth| && truth[p].classLabel == i &&
                    r == Row(calls[p].cellId, ClassPredLabel(i, calls[p].classLabel)) {
      if r in cc {
        var k :| 0 <= k < |cc| && cc[k] == r;
        assert s[k] in s;
        var p :| 0 <= p < |calls| && p in idx && calls[p] == s[k];
        assert r == Row(calls[p].cellId, ClassPredLabel(i, calls[p].classLabel));
      }
      if exists p :: 0 <= p < |calls| && p < |truth| && truth[p].classLabel == i &&
                     r == Row(calls[p].cellId, ClassPredLabel(i, calls[p].classLabel)) {
        var p :| 0 <= p < |calls| && p < |truth| && truth[p].classLabel == i &&
                 r == Row(calls[p].cellId, ClassPredLabel(i, calls[p].classLabel));
        assert p in idx;
        assert calls[p] in s;
        var k :| 0 <= k < |s| && s[k] == calls[p];
        assert cc[k] == r;
      }
    }
  }

  /** The CellIDs of the class-`i` frames, read off the original tables:
      truth keeps the CellIDs of its rows labelled `i`, the predictions keep
      the CellIDs found at those same row positions. */
  lemma ClassIds(calls: Table, truth: Table, i: int)
    ensures Ids(ClassTruth(truth, i)) ==
              set p | 0 <= p < |truth| && truth[p].classLabel == i :: truth[p].cellId
    ensures Ids(ClassCalls(calls, truth, i)) ==
              set p | 0 <= p < |calls| && p < |truth| && truth[p].classLabel == i :: calls[p].cellId
  {
    ClassTruthShape(truth, i);
    ClassCallsShape(calls, truth, i);
    var bt, bc := ClassTruth(truth, i), ClassCalls(calls, truth, i);
    forall id | id in Ids(bt)
      ensures id in set p | 0 <= p < |truth| && truth[p].classLabel == i :: truth[p].cellId
    {
      var r :| r in bt && r.cellId == id;
      var p :| 0 <= p < |truth| && truth[p].classLabel == i && r == Row(truth[p].cellId, 1);
    }
    forall p | 0 <= p < |truth| && truth[p].classLabel == i ensures truth[p].cellId in Ids(bt) {
      assert Row(truth[p].cellId, 1) in bt;
    }
    forall id | id in Ids(bc)
      ensures id in set p | 0 <= p < |calls| && p < |truth| && truth[p].classLabel == i :: calls[p].cellId
    {
      var r :| r in bc && r.cellId == id;
      var p :| 0 <= p < |calls| && p < |truth| && truth[p].classLabel == i &&
               r == Row(calls[p].cellId, ClassPredLabel(i, calls[p].classLabel));
    }
    forall p | 0 <= p < |calls| && p < |truth| && truth[p].classLabel == i ensures calls[p].cellId in Ids(bc) {
      assert Row(calls[p].cellId, ClassPredLabel(i, calls[p].classLabel)) in bc;
    }
  }

  /** The specific-class branch: select the rows, copy them, and run the
      passes on the copies. */
  method BinarizeClass(calls: Table, truth: Table, i: int) returns (binCalls: Table, binTruth: Table)
    ensures binTruth == ClassTruth(truth, i) && binCalls == ClassCalls(calls, truth, i)
    ensures forall r :: r in binTruth ==> r.classLabel == 1
    ensures Binary(binCalls) && |binTruth| == CountLabel(truth, i)
  {
    var kept := KeptIndex(truth, i);
    var t := Copy(SelectIndexIn(truth, kept));
    SetWhereEq(t, i, 1);  // noisy
    var c := Copy(SelectIndexIn(calls, kept));
    SetWhereEq(c, i, 1);  // noisy
    SetWhereNe(c, 1, 0);  // clean
    binTruth, binCalls := t[..], c[..];
    ClassTruthShape(truth, i);
    ClassCallsShape(calls, truth, i);
  }
}
