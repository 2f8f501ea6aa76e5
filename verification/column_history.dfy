/**
 What the columns of a cached record hold, and which of them are dirty, told from the history of operations alone; and
 with that what a flush stores.
 */
module ColumnHistory {
  import opened Options
  import opened SqlAssignments
  import opened RecordCache

  // ---------------------------------------------------------------- values

  /**
   The value last given to column `i` of record `k`: by a set, or by making the record (nothing) or loading it (the
   stored column, as it was then).
   */
  ghost function LastGiven(w: Cells, info: TableInfo, ops: seq<Op>, k: Key, i: nat): Value
    requires LegalRun(w, info, ops) && i < |info.columns|
    decreases |ops|
  {
    if ops == [] then ""
    else
      var before, op := ops[..|ops| - 1], ops[|ops| - 1];
      SplitRun(w, info, ops);
      if op.Set? && op.k == k && op.i == i then op.v
      else if op.Create? && op.k == k then ""
      else if op.Load? && op.k == k then StoredColumn(After(w, info, before), k, i)
      else LastGiven(w, info, before, k, i)
  }

  /** Column `i` of the stored row of `k`. */
  function StoredColumn(w: Cells, k: Key, i: nat): Value {
    if k in w && w[k].row.Some? && i < |w[k].row.value| then w[k].row.value[i] else ""
  }

  lemma SplitRun(w: Cells, info: TableInfo, ops: seq<Op>)
    requires LegalRun(w, info, ops) && ops != []
    ensures var before, op := ops[..|ops| - 1], ops[|ops| - 1];
            && LegalRun(w, info, before) && Enabled(After(w, info, before), info, op)
            && After(w, info, ops) == Apply(After(w, info, before), info, op)
  {
    var before, op := ops[..|ops| - 1], ops[|ops| - 1];
    assert ops == before + [op];
    AfterOneMore(w, info, before, op);
  }

  /** The columns of a cached record are what was last given to them. */
  ghost predicate HoldsGiven(w: Cells, info: TableInfo, ops: seq<Op>, k: Key)
    requires LegalRun(w, info, ops)
  {
    var m := After(w, info, ops);
    k in m && m[k].record.Some? ==>
      && |m[k].record.value.values| == |info.columns|
      && forall i: nat :: i < |info.columns| ==> m[k].record.value.values[i] == LastGiven(w, info, ops, k, i)
  }

  /** What a flush does to a record object: it may be gone, and keeps its values otherwise. */
  lemma FlushKeepsValues(info: TableInfo, k: Key, cell: Cell, left: Leaving)
    ensures var after := FlushCell(info, k, cell, left);
            after.record.Some? ==>
              cell.record.Some? && after.record.value.values == cell.record.value.values
  {
    hide Whole, UpdatedRow, AnyChanged;
  }

  /** A step leaves the values of record `k` alone unless it sets, makes or loads it. */
  lemma StepKeepsValues(w: Cells, info: TableInfo, op: Op, k: Key)
    requires AllInv(w, info) && Enabled(w, info, op)
    requires !(op.Create? || op.Load? || op.Set?) || op.k != k
    ensures var w1 := Apply(w, info, op);
            k in w1 && w1[k].record.Some? ==>
              k in w && w[k].record.Some? && w1[k].record.value.values == w[k].record.value.values
  {
    hide FlushAll, FlushCell, FlushOrder, AllWhole;
    if op.Flush? {
      FlushIsCellwise(info, w, op.order, op.left);
      if k in w {
        FlushKeepsValues(info, k, w[k], LeftAt(op.left, k));
      }
    }
  }

  /** Over every legal run from a database at rest, each column of a cached record holds what it was last given. */
  lemma {:induction false} ColumnsHoldLastGiven(w: Cells, info: TableInfo, ops: seq<Op>, k: Key)
    requires AtRest(w, info) && LegalRun(w, info, ops)
    ensures HoldsGiven(w, info, ops, k)
    decreases |ops|
  {
    hide LegalRun, After, Apply, Enabled;
    if ops == [] {
      NothingYet(w, info);
    } else {
      var before, op := ops[..|ops| - 1], ops[|ops| - 1];
      SplitRun(w, info, ops);
      ColumnsHoldLastGiven(w, info, before, k);
      RestIsFine(w, info);
      RunInvariant(w, info, before);
      var m := After(w, info, before);
      if (op.Create? || op.Load? || op.Set?) && op.k == k {
        StepGives(m, info, op);
      } else {
        StepKeepsValues(m, info, op, k);
      }
    }
  }

  lemma NothingYet(w: Cells, info: TableInfo)
    ensures LegalRun(w, info, []) && After(w, info, []) == w
  {
  }

  /** What setting, making or loading a record gives its columns. */
  lemma StepGives(w: Cells, info: TableInfo, op: Op)
    requires AllInv(w, info) && Enabled(w, info, op) && (op.Create? || op.Load? || op.Set?)
    ensures var w1 := Apply(w, info, op);
            && op.k in w1 && w1[op.k].record.Some?
            && |w1[op.k].record.value.values| == |info.columns|
            && (forall i: nat :: i < |info.columns| ==>
                  w1[op.k].record.value.values[i] ==
                  if op.Create? then ""
                  else if op.Load? then StoredColumn(w, op.k, i)
                  else if op.i == i then op.v
                  else w[op.k].record.value.values[i])
            && (op.Set? ==> w[op.k].record.Some? && |w[op.k].record.value.values| == |info.columns|)
  {
    hide FlushAll, FlushOrder, AllWhole;
    assert CellInv(w[op.k], info);
  }

  // ---------------------------------------------------------------- dirty columns

  /** The record `k` was written by the last operation, if that was a flush that met it pending insert or update. */
  predicate WrittenBy(m: Cells, op: Op, k: Key) {
    op.Flush? && k in m && m[k].pending in {Some(StateInsert), Some(StateUpdate)}
  }

  /** Column `i` of record `k` was set since it was made, loaded or last written. */
  ghost predicate SetSince(w: Cells, info: TableInfo, ops: seq<Op>, k: Key, i: nat)
    requires LegalRun(w, info, ops)
    decreases |ops|
  {
    ops != [] &&
    (var before, op := ops[..|ops| - 1], ops[|ops| - 1];
     SplitRun(w, info, ops);
     if op.Set? && op.k == k && op.i == i then true
     else if (op.Create? || op.Load?) && op.k == k then false
     else if WrittenBy(After(w, info, before), op, k) then false
     else SetSince(w, info, before, k, i))
  }

  ghost predicate DirtyIsSet(w: Cells, info: TableInfo, ops: seq<Op>, k: Key)
    requires LegalRun(w, info, ops)
  {
    var m := After(w, info, ops);
    k in m && m[k].record.Some? ==>
      && |m[k].record.value.cols| == |info.columns|
      && forall i: nat :: i < |info.columns| ==>
           (m[k].record.value.cols[i] == Changed <==> SetSince(w, info, ops, k, i))
  }

  /** After a flush that met it pending, a record has no dirty column; the flags of any other record stay. */
  lemma FlushCleans(info: TableInfo, k: Key, cell: Cell, left: Leaving)
    requires CellInv(cell, info)
    ensures var after := FlushCell(info, k, cell, left);
            after.record.Some? ==>
              && cell.record.Some? && |after.record.value.cols| == |cell.record.value.cols|
              && forall i :: 0 <= i < |cell.record.value.cols| ==>
                   (after.record.value.cols[i] == Changed <==>
                      cell.record.value.cols[i] == Changed
                      && cell.pending !in {Some(StateInsert), Some(StateUpdate)})
  {
    hide Whole, UpdatedRow;
    if cell.pending == Some(StateUpdate) && !AnyChanged(cell.record.value) {
      forall i | 0 <= i < |cell.record.value.cols| ensures cell.record.value.cols[i] != Changed {
      }
    }
  }

  lemma StepMarks(w: Cells, info: TableInfo, op: Op, k: Key)
    requires AllInv(w, info) && Enabled(w, info, op)
    ensures var w1 := Apply(w, info, op);
            k in w1 && w1[k].record.Some? ==>
              && |w1[k].record.value.cols| == |info.columns|
              && (!((op.Create? || op.Load?) && op.k == k) ==>
                    k in w && w[k].record.Some? && |w[k].record.value.cols| == |info.columns|)
              && forall i: nat :: i < |info.columns| ==>
                   (w1[k].record.value.cols[i] == Changed <==>
                      (op.Set? && op.k == k && op.i == i)
                      || (!((op.Create? || op.Load?) && op.k == k) && !WrittenBy(w, op, k)
                          && w[k].record.value.cols[i] == Changed))
  {
    hide FlushAll, FlushCell, FlushOrder, AllWhole;
    assert k in w ==> CellInv(w[k], info);
    if op.Flush? {
      FlushIsCellwise(info, w, op.order, op.left);
      if k in w {
        FlushCleans(info, k, w[k], LeftAt(op.left, k));
      }
    }
  }

  /** Over every legal run, the dirty columns of a cached record are exactly those set since it was last written. */
  lemma {:induction false} DirtyColumnsWereSet(w: Cells, info: TableInfo, ops: seq<Op>, k: Key)
    requires AtRest(w, info) && LegalRun(w, info, ops)
    ensures DirtyIsSet(w, info, ops, k)
    decreases |ops|
  {
    hide LegalRun, After, Apply, Enabled;
    if ops == [] {
      NothingYet(w, info);
    } else {
      var before, op := ops[..|ops| - 1], ops[|ops| - 1];
      SplitRun(w, info, ops);
      DirtyColumnsWereSet(w, info, before, k);
      RestIsFine(w, info);
      RunInvariant(w, info, before);
      StepMarks(After(w, info, before), info, op, k);
    }
  }

  // ---------------------------------------------------------------- what is stored

  /**
   What a flush stores, from the history alone: over runs whose flushed updates have gaps that divide by three, the row
   of each record that was pending insert or update holds in every column the value last given to it.
   */
  lemma FlushStoresLastGiven(w: Cells, info: TableInfo, ops: seq<Op>, order: seq<Key>, left: Leavings, k: Key)
    requires AtRest(w, info) && LegalRun(w, info, ops) && WritingRun(w, info, ops)
    requires CanFlush(info, After(w, info, ops), order) && AllWrite(After(w, info, ops))
    requires k in After(w, info, ops) && After(w, info, ops)[k].pending in {Some(StateInsert), Some(StateUpdate)}
    ensures var after := FlushAll(info, After(w, info, ops), order, left);
            && k in after && after[k].row.Some? && |after[k].row.value| == |info.columns|
            && forall i: nat :: i < |info.columns| ==> after[k].row.value[i] == LastGiven(w, info, ops, k, i)
  {
    hide LegalRun, WritingRun, After, FlushAll, LastGiven, CellInv, FlushOrder, AllWhole, AllWrite;
    ColumnsHoldLastGiven(w, info, ops, k);
    FlushStoresRecords(w, info, ops, order, left);
    var m := After(w, info, ops);
    RestIsFine(w, info);
    RunInvariant(w, info, ops);
    PendingHasRecord(m[k], info);
    FlushIsCellwise(info, m, order, left);
    FlushKeepsValues(info, k, m[k], LeftAt(left, k));
  }

  lemma PendingHasRecord(cell: Cell, info: TableInfo)
    requires CellInv(cell, info) && cell.pending.Some?
    ensures cell.record.Some?
  {
  }
}
