/** Labelled tables: the (CellID, class_label) frames read from the
    predictions and truth CSV files. A table's pandas index is its row
    position, as for a freshly read CSV file. */
module Tables {

  /** One row: the cell identifier and its class label. */
  datatype Row = Row(cellId: int, classLabel: int)

  type Table = seq<Row>

  /** The set of CellID values of a table (`set(t['CellID'])`). */
  function Ids(t: Table): (ids: set<int>)
  {
    set r | r in t :: r.cellId
  }

  /** The set of distinct class labels of a table (`set(t['class_label'].unique())`). */
  function Labels(t: Table): (labels: set<int>)
  {
    set r | r in t :: r.classLabel
  }

  /** Every row carries label 0 or 1. */
  predicate Binary(t: Table)
  {
    forall r :: r in t ==> r.classLabel == 0 || r.classLabel == 1
  }

  /** No CellID occurs on two rows. */
  predicate UniqueIds(t: Table)
  {
    forall j, k :: 0 <= j < k < |t| ==> t[j].cellId != t[k].cellId
  }

  /** Two tables list the same cells in the same row order. */
  predicate Aligned(a: Table, b: Table)
  {
    |a| == |b| && forall k :: 0 <= k < |a| ==> a[k].cellId == b[k].cellId
  }

  /** Number of rows labelled `l`. */
  function CountLabel(t: Table, l: int): (n: nat)
  {
    if t == [] then 0 else (if t[0].classLabel == l then 1 else 0) + CountLabel(t[1..], l)
  }

  /** Number of rows whose CellID is `id`. */
  function Occurrences(t: Table, id: int): (n: nat)
  {
    if t == [] then 0 else (if t[0].cellId == id then 1 else 0) + Occurrences(t[1..], id)
  }

  lemma LabelsBinary(t: Table)
    ensures Labels(t) <= {0, 1} <==> Binary(t)
  {
    if Labels(t) <= {0, 1} {
      forall r | r in t ensures r.classLabel == 0 || r.classLabel == 1 {
        assert r.classLabel in Labels(t);
      }
    }
  }

  lemma {:induction false} IdsCons(t: Table)
    requires t != []
    ensures Ids(t) == {t[0].cellId} + Ids(t[1..])
  {
    assert t == [t[0]] + t[1..];
    forall id | id in Ids(t) ensures id in {t[0].cellId} + Ids(t[1..]) {
      var r :| r in t && r.cellId == id;
      if r != t[0] {
        assert r in t[1..];
      }
    }
  }

  /** With unique CellIDs the first row's id does not occur again. */
  lemma HeadIdFresh(t: Table)
    requires UniqueIds(t) && t != []
    ensures UniqueIds(t[1..]) && t[0].cellId !in Ids(t[1..])
  {
    forall r | r in t[1..] ensures r.cellId != t[0].cellId {
      var k :| 0 <= k < |t[1..]| && t[1..][k] == r;
      assert t[k + 1] == r;
    }
  }

  /** With unique CellIDs a table has as many rows as distinct ids. */
  lemma {:induction false} UniqueIdsSize(t: Table)
    requires UniqueIds(t)
    ensures |Ids(t)| == |t|
  {
    if t != [] {
      IdsCons(t);
      UniqueIdsSize(t[1..]);
      HeadIdFresh(t);
    }
  }

  /** A CellID present in a table with unique ids occurs on exactly one row. */
  lemma {:induction false} UniqueOccursOnce(t: Table, id: int)
    requires UniqueIds(t)
    ensures Occurrences(t, id) == if id in Ids(t) then 1 else 0
  {
    if t != [] {
      IdsCons(t);
      UniqueOccursOnce(t[1..], id);
      HeadIdFresh(t);
    }
  }

  /** Aligned tables hold the same set of CellIDs. */
  lemma AlignedSameIds(a: Table, b: Table)
    requires Aligned(a, b)
    ensures Ids(a) == Ids(b)
  {
    forall id | id in Ids(a) ensures id in Ids(b) {
      var r :| r in a && r.cellId == id;
      var k :| 0 <= k < |a| && a[k] == r;
      assert b[k] in b;
    }
    forall id | id in Ids(b) ensures id in Ids(a) {
      var r :| r in b && r.cellId == id;
      var k :| 0 <= k < |b| && b[k] == r;
      assert a[k] in a;
    }
  }

  lemma {:induction false} CountLabelAppend(a: Table, b: Table, l: int)
    ensures CountLabel(a + b, l) == CountLabel(a, l) + CountLabel(b, l)
  {
    if a == [] {
      assert a + b == b;
    } else {
      assert (a + b)[1..] == a[1..] + b;
      CountLabelAppend(a[1..], b, l);
    }
  }

  /** No row carries a label that is counted zero times. */
  lemma {:induction false} CountLabelZero(t: Table, l: int)
    requires CountLabel(t, l) == 0
    ensures forall r :: r in t ==> r.classLabel != l
  {
    if t != [] {
      CountLabelZero(t[1..], l);
      assert forall r :: r in t ==> r == t[0] || r in t[1..];
    }
  }
}
