/**
 * The labelling step of extract_data.py's main block: the feature table is
 * read, a 'label' column is filled in from each row's file name by
 * get_label, the rows whose label is missing are dropped, and the label
 * column is cast to integers. The rows that remain are exactly the rows
 * whose file name carries a label, in their original order, each labelled
 * 0 or 1.
 */
module LabelTable {
  import opened Wrappers
  import EmotionLabel

  /** One row of the feature CSV as read: its 'filename' cell and the other feature cells, carried along untouched. */
  datatype Record<F> = Record(filename: string, features: F)

  /**
   * A row of the DataFrame: its index label (kept by dropna), its file name,
   * its other cells, and its 'label' cell, where None stands for a missing
   * value (NaN).
   */
  datatype Row<F> = Row(index: nat, filename: string, features: F, labelCell: Option<int>)

  /** A row once the 'label' column holds integers. */
  datatype LabelledRow<F> = LabelledRow(index: nat, filename: string, features: F, labelValue: int)

  // ---------------------------------------------------------------------------
  // Each step of the script as a function on the rows
  // ---------------------------------------------------------------------------

  /** The frame pd.read_csv builds: index labels 0, 1, 2, ... and no label yet. */
  function Loaded<F>(records: seq<Record<F>>): seq<Row<F>>
  {
    seq(|records|, i requires 0 <= i < |records| => Row(i, records[i].filename, records[i].features, None))
  }

  /**
   * `df['label'] = df['filename'].apply(labeller)`: every row gets the label of
   * its file name. The script applies EmotionLabel.GetLabel.
   */
  function WithLabels<F>(rows: seq<Row<F>>, labeller: string -> Option<int>): seq<Row<F>>
  {
    seq(|rows|, i requires 0 <= i < |rows| => rows[i].(labelCell := labeller(rows[i].filename)))
  }

  /** `df.dropna(subset=['label'])`: the rows whose label is present, in their order. */
  function DropMissing<F>(rows: seq<Row<F>>): seq<Row<F>>
  {
    if rows == [] then []
    else DropMissing(rows[..|rows| - 1]) + (if rows[|rows| - 1].labelCell.Some? then [rows[|rows| - 1]] else [])
  }

  /** A present label read as an integer. */
  function AsLabelled<F>(row: Row<F>): LabelledRow<F>
    requires row.labelCell.Some?
  {
    LabelledRow(row.index, row.filename, row.features, row.labelCell.value)
  }

  /** `df['label'].astype(int)`: the rows with integer labels, or None where pandas raises on a missing value. */
  function AsInt<F>(rows: seq<Row<F>>): Option<seq<LabelledRow<F>>>
  {
    if forall i :: 0 <= i < |rows| ==> rows[i].labelCell.Some? then
      Some(seq(|rows|, i requires 0 <= i < |rows| && rows[i].labelCell.Some? => AsLabelled(rows[i])))
    else None
  }

  /** The index labels increase down the frame. */
  predicate IndexIncreasing<F>(rows: seq<Row<F>>)
  {
    forall j, k :: 0 <= j < k < |rows| ==> rows[j].index < rows[k].index
  }

  // ---------------------------------------------------------------------------
  // The DataFrame, changed in place by the steps of the script
  // ---------------------------------------------------------------------------

  class Frame<F> {
    var rows: seq<Row<F>>

    /** `pd.read_csv(INPUT_CSV)`, given the records the file holds. */
    constructor (records: seq<Record<F>>)
      ensures rows == Loaded(records)
    {
      rows := Loaded(records);
    }

    /** Line 55: fills the label column from the file names, row by row, with `labeller`. */
    method AssignLabels(labeller: string -> Option<int>)
      modifies this
      ensures rows == WithLabels(old(rows), labeller)
    {
      var i := 0;
      while i < |rows|
        invariant 0 <= i <= |rows| == |old(rows)|
        invariant forall j :: 0 <= j < i ==> rows[j] == old(rows)[j].(labelCell := labeller(old(rows)[j].filename))
        invariant forall j :: i <= j < |rows| ==> rows[j] == old(rows)[j]
      {
        rows := rows[i := rows[i].(labelCell := labeller(rows[i].filename))];
        i := i + 1;
      }
    }

    /** Line 56: removes the rows whose label is missing, keeping the order of the others. */
    method DropMissingLabels()
      modifies this
      ensures rows == DropMissing(old(rows))
    {
      var kept: seq<Row<F>> := [];
      var i := 0;
      while i < |rows|
        invariant 0 <= i <= |rows|
        invariant rows == old(rows)
        invariant kept == DropMissing(rows[..i])
      {
        assert rows[..i + 1][..i] == rows[..i];
        if rows[i].labelCell.Some? {
          kept := kept + [rows[i]];
        }
        i := i + 1;
      }
      assert rows[..i] == rows;
      rows := kept;
    }

    /** Line 57: the frame with its label column cast to int, or None when a label is missing. */
    method IntLabels() returns (table: Option<seq<LabelledRow<F>>>)
      ensures table == AsInt(rows)
    {
      var src := rows;
      var out: seq<LabelledRow<F>> := [];
      var i := 0;
      while i < |src|
        invariant 0 <= i <= |src|
        invariant forall j :: 0 <= j < i ==> src[j].labelCell.Some?
        invariant |out| == i && forall j :: 0 <= j < i ==> out[j] == AsLabelled(src[j])
      {
        if src[i].labelCell.None? {
          return None;
        }
        out := out + [AsLabelled(src[i])];
        i := i + 1;
      }
      assert out == seq(|src|, j requires 0 <= j < |src| && src[j].labelCell.Some? => AsLabelled(src[j]));
      return Some(out);
    }
  }

  // ---------------------------------------------------------------------------
  // What the steps keep
  // ---------------------------------------------------------------------------

  /** dropna keeps exactly the rows with a label. */
  lemma {:induction false} DropMissingMember<F>(rows: seq<Row<F>>, r: Row<F>)
    ensures r in DropMissing(rows) <==> r in rows && r.labelCell.Some?
    decreases |rows|
  {
    if rows != [] {
      var init := rows[..|rows| - 1];
      DropMissingMember(init, r);
      assert rows == init + [rows[|rows| - 1]];
    }
  }

  /** dropna keeps the order of the rows it keeps. */
  lemma {:induction false} DropMissingKeepsOrder<F>(rows: seq<Row<F>>)
    requires IndexIncreasing(rows)
    ensures IndexIncreasing(DropMissing(rows))
    decreases |rows|
  {
    if rows != [] {
      var init := rows[..|rows| - 1];
      DropMissingKeepsOrder(init);
      var last := rows[|rows| - 1];
      forall r | r in DropMissing(init)
        ensures r.index < last.index
      {
        DropMissingMember(init, r);
        var j :| 0 <= j < |init| && init[j] == r;
        assert init[j] == rows[j];
      }
    }
  }

  /** dropna leaves no missing label, so the cast that follows it cannot fail. */
  lemma CastAfterDropSucceeds<F>(rows: seq<Row<F>>)
    ensures AsInt(DropMissing(rows)).Some?
  {
    var kept := DropMissing(rows);
    forall i | 0 <= i < |kept|
      ensures kept[i].labelCell.Some?
    {
      DropMissingMember(rows, kept[i]);
    }
  }

  /** Dropping twice drops nothing more. */
  lemma {:induction false} DropMissingIdempotent<F>(rows: seq<Row<F>>)
    ensures DropMissing(DropMissing(rows)) == DropMissing(rows)
    decreases |rows|
  {
    if rows != [] {
      var init := rows[..|rows| - 1];
      var last := rows[|rows| - 1];
      DropMissingIdempotent(init);
      var d := DropMissing(init);
      if last.labelCell.Some? {
        assert (d + [last])[..|d|] == d;
        assert DropMissing(d + [last]) == DropMissing(d) + [last];
      } else {
        assert DropMissing(rows) == d + [] == d;
      }
    }
  }

  /** A successful cast keeps every row, in place, with its label as an integer. */
  lemma CastRows<F>(rows: seq<Row<F>>, table: seq<LabelledRow<F>>)
    requires AsInt(rows) == Some(table)
    ensures |table| == |rows|
    ensures forall k :: 0 <= k < |table| ==>
              && table[k].index == rows[k].index
              && table[k].filename == rows[k].filename
              && table[k].features == rows[k].features
              && rows[k].labelCell == Some(table[k].labelValue)
  {
    assert forall k :: 0 <= k < |table| ==> rows[k].labelCell.Some? && table[k] == AsLabelled(rows[k]);
  }

  // ---------------------------------------------------------------------------
  // The whole labelling step
  // ---------------------------------------------------------------------------

  /** What the steps of lines 50-56 make of the records: the labelled rows, before the cast. */
  ghost function Kept<F>(records: seq<Record<F>>, labeller: string -> Option<int>): seq<Row<F>>
  {
    DropMissing(WithLabels(Loaded(records), labeller))
  }

  /**
   * The rows that survive dropna are exactly the records whose file name has
   * a label, in their original order, each with its position in the file as
   * index and its label in the label cell.
   */
  lemma KeptRows<F>(records: seq<Record<F>>, labeller: string -> Option<int>)
    ensures forall k :: 0 <= k < |Kept(records, labeller)| ==>
              var r := Kept(records, labeller)[k];
              && r.index < |records|
              && r.filename == records[r.index].filename
              && r.features == records[r.index].features
              && r.labelCell.Some?
              && labeller(r.filename) == r.labelCell
    ensures IndexIncreasing(Kept(records, labeller))
    ensures forall i :: 0 <= i < |records| && labeller(records[i].filename).Some? ==>
              exists k :: 0 <= k < |Kept(records, labeller)| && Kept(records, labeller)[k].index == i
  {
    var labelled := WithLabels(Loaded(records), labeller);
    var kept := Kept(records, labeller);
    assert |labelled| == |records|;
    assert forall i :: 0 <= i < |records| ==>
      labelled[i] == Row(i, records[i].filename, records[i].features, labeller(records[i].filename));
    DropMissingKeepsOrder(labelled);
    forall k | 0 <= k < |kept|
      ensures kept[k].index < |records|
      ensures kept[k].filename == records[kept[k].index].filename
      ensures kept[k].features == records[kept[k].index].features
      ensures kept[k].labelCell.Some?
      ensures labeller(kept[k].filename) == kept[k].labelCell
    {
      DropMissingMember(labelled, kept[k]);
      var i :| 0 <= i < |labelled| && labelled[i] == kept[k];
    }
    forall i | 0 <= i < |records| && labeller(records[i].filename).Some?
      ensures exists k :: 0 <= k < |kept| && kept[k].index == i
    {
      DropMissingMember(labelled, labelled[i]);
      assert labelled[i] in kept;
      var k :| 0 <= k < |kept| && kept[k] == labelled[i];
    }
  }

  /**
   * After the cast, the table holds exactly the records whose file name has a
   * label, in their original order, each with its position in the file as
   * index and its label as an integer.
   */
  lemma CastTable<F>(records: seq<Record<F>>, labeller: string -> Option<int>, table: seq<LabelledRow<F>>)
    requires AsInt(Kept(records, labeller)) == Some(table)
    ensures forall k :: 0 <= k < |table| ==>
              && table[k].index < |records|
              && table[k].filename == records[table[k].index].filename
              && table[k].features == records[table[k].index].features
              && labeller(table[k].filename) == Some(table[k].labelValue)
    ensures forall j, k :: 0 <= j < k < |table| ==> table[j].index < table[k].index
    ensures forall i :: 0 <= i < |records| && labeller(records[i].filename).Some? ==>
              exists k :: 0 <= k < |table| && table[k].index == i
  {
    var kept := Kept(records, labeller);
    KeptRows(records, labeller);
    CastRows(kept, table);
    forall i | 0 <= i < |records| && labeller(records[i].filename).Some?
      ensures exists k :: 0 <= k < |table| && table[k].index == i
    {
      var k :| 0 <= k < |kept| && kept[k].index == i;
      assert table[k].index == i;
    }
  }

  /**
   * Lines 50-57: load the records, label them with get_label, drop the
   * unlabelled rows and cast the labels. The result holds exactly the records
   * whose file name has a label, in their original order, each with its
   * position in the file as index and its label, 0 or 1, as an integer.
   */
  method LabelFeatures<F>(records: seq<Record<F>>) returns (table: seq<LabelledRow<F>>)
    ensures forall k :: 0 <= k < |table| ==>
              && table[k].index < |records|
              && table[k].filename == records[table[k].index].filename
              && table[k].features == records[table[k].index].features
              && EmotionLabel.GetLabel(table[k].filename) == Some(table[k].labelValue)
    ensures forall k :: 0 <= k < |table| ==> table[k].labelValue == 0 || table[k].labelValue == 1
    ensures forall j, k :: 0 <= j < k < |table| ==> table[j].index < table[k].index
    ensures forall i :: 0 <= i < |records| && EmotionLabel.GetLabel(records[i].filename).Some? ==>
              exists k :: 0 <= k < |table| && table[k].index == i
  {
    var df := new Frame(records);
    df.AssignLabels(EmotionLabel.GetLabel);
    df.DropMissingLabels();
    var cast := df.IntLabels();
    CastAfterDropSucceeds(WithLabels(Loaded(records), EmotionLabel.GetLabel));
    table := cast.value;
    CastTable(records, EmotionLabel.GetLabel, table);
    forall k | 0 <= k < |table|
      ensures table[k].labelValue == 0 || table[k].labelValue == 1
    {
      var r := EmotionLabel.GetLabel(table[k].filename);
      assert r == Some(table[k].labelValue);
    }
  }
}
