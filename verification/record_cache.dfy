/**
 The write-behind record cache, as values: what a batch of commits becomes when it is flushed, against
 executing every commit at once. An update request writes the columns its statement text assigns, which are
 not always the dirty ones (`SqlAssignments`), and a statement is executed as formatted only if it is short
 (`SqlStatements`).
 */
module RecordCache {
  import opened Options
  import opened SqlAssignments
  import opened SqlStatements
  import SqlText
  import SqlRing

  type Key = int
  type Value = string

  datatype RecordState = StateNone | StateInsert | StateDelete | StateUpdate

  datatype ColumnState = Idle | Inited | Changed | Committing | Committed

  /** The columns of a table but for its primary key, and the key its requests name, with its formatted values. */
  datatype TableInfo = TableInfo(name: string, columns: seq<string>, keyName: string, keyText: Key -> string)

  /** A record object: its columns but for the primary key, and whether each is dirty. */
  datatype Record = Record(values: seq<Value>, cols: seq<ColumnState>)

  datatype Commit = Insert | Delete | Update

  /** Everything about one key; `present` is the row's presence had every commit been executed at once. */
  datatype Cell = Cell(
    record: Option<Record>,
    pending: Option<RecordState>,
    row: Option<seq<Value>>,
    present: bool
  )

  /** A freshly constructed record. */
  function NewRecord(width: nat): Record {
    Record(seq(width, _ => ""), seq(width, _ => Idle))
  }

  // ---------------------------------------------------------------- commits

  /** `commit_insert`, `commit_delete` and `commit_update` on the pending state, if there is one. */
  function Pend(p: Option<RecordState>, c: Commit): RecordState {
    match c
    case Insert => (
      match p
      case None => StateInsert
      case Some(StateNone) => StateInsert
      case Some(StateDelete) => StateNone
      case Some(s) => s)
    case Delete => (
      match p
      case None => StateDelete
      case Some(StateNone) => StateDelete
      case Some(StateInsert) => StateNone
      case Some(StateUpdate) => StateDelete
      case Some(s) => s)
    case Update => (
      match p
      case None => StateUpdate
      case Some(StateNone) => StateUpdate
      case Some(s) => s)
  }

  /** The presence of a row after executing the commit at once. */
  function Eager(c: Commit): bool {
    !c.Delete?
  }

  /** Insert only what is absent, update or delete only what is present. */
  predicate Legal(cell: Cell, c: Commit) {
    cell.present == !c.Insert?
  }

  function CommitCell(cell: Cell, c: Commit): Cell {
    cell.(pending := Some(Pend(cell.pending, c)), present := Eager(c))
  }

  // ---------------------------------------------------------------- columns

  /** `set_x`, and changing `get_mutable_x` followed by `commit_x_changed`. */
  function SetColumn(r: Record, i: nat, v: Value): Record {
    if i < |r.values| && i < |r.cols| then Record(r.values[i := v], r.cols[i := Changed]) else r
  }

  /** A record filled by `init_x` from a stored row. */
  function Loaded(row: seq<Value>): Record {
    Record(row, seq(|row|, _ => Inited))
  }

  function AllCommitting(r: Record): Record {
    r.(cols := seq(|r.cols|, _ => Committing))
  }

  /** The dirty columns after an update was requested. */
  function ChangedCommitting(r: Record): Record {
    r.(cols := seq(|r.cols|, i requires 0 <= i < |r.cols| => if r.cols[i] == Changed then Committing else r.cols[i]))
  }

  /** Which columns are dirty. */
  function Dirty(r: Record): (dirty: seq<bool>)
    ensures |dirty| == |r.cols|
  {
    seq(|r.cols|, i requires 0 <= i < |r.cols| => r.cols[i] == Changed)
  }

  /** What a statement whose text is undefined, or cut, leaves of a row: anything the environment says. */
  type Leaving = Option<seq<Value>>

  /** The stored row after the update statement of a record: the columns its text assigns are written. */
  function UpdatedRow(r: Record, row: seq<Value>, left: Leaving): (after: seq<Value>)
    requires |r.values| == |r.cols| == |row|
    ensures |after| == |row|
  {
    match Statement(Dirty(r))
    case Written(columns) =>
      seq(|row|, i requires 0 <= i < |row| => if i in columns then r.values[i] else row[i])
    case Unknown => if left.Some? && |left.value| == |row| then left.value else row
  }

  predicate AnyChanged(r: Record) {
    exists i :: 0 <= i < |r.cols| && r.cols[i] == Changed
  }

  /** Each column that is not dirty equals the stored one. */
  predicate Clean(r: Record, row: seq<Value>) {
    && |r.values| == |r.cols| == |row|
    && forall i :: 0 <= i < |row| && r.cols[i] != Changed ==> r.values[i] == row[i]
  }

  // ---------------------------------------------------------------- flushing

  /** The fields `update_request` passes to the formatter: a column takes part if it is dirty. */
  function UpdateFields(names: seq<string>, r: Record): seq<SqlText.Field>
    requires |names| == |r.values| == |r.cols|
  {
    seq(|names|, i requires 0 <= i < |names| =>
      SqlText.Field(names[i], r.cols[i] == Changed, Some(r.values[i])))
  }

  /** The text of the update requested for a record, if it has one that is defined. */
  function UpdateRequested(info: TableInfo, k: Key, r: Record): Option<string> {
    if |info.columns| == |r.values| == |r.cols| then
      match SqlRing.Update(SqlRing.NoText, 0, UpdateFields(info.columns, r))
      case Text(t) => Some(UpdateSql(info.name, t, info.keyName, info.keyText(k)))
      case _ => None
    else None
  }

  lemma NothingRequested(info: TableInfo, k: Key, r: Record)
    requires !AnyChanged(r)
    ensures UpdateRequested(info, k, r) == None
  {
    if |info.columns| == |r.values| == |r.cols| {
      SqlRing.NothingChanged(0, UpdateFields(info.columns, r));
    }
  }

  /** The text a flush formats for a record. */
  function Requested(info: TableInfo, k: Key, cell: Cell): Option<string> {
    if cell.record.None? || cell.pending.None? then None
    else
      match cell.pending.value
      case StateNone => None
      case StateInsert => Some(InsertSql(info.name, info.columns, cell.record.value.values))
      case StateDelete => Some(DeleteSql(info.name, info.keyName, info.keyText(k)))
      case StateUpdate => UpdateRequested(info, k, cell.record.value)
  }

  predicate Short(sql: Option<string>) {
    sql.Some? ==> |sql.value| < LENGTHS
  }

  /** The statement a flush formats for a record, if any, is queued as it is. */
  predicate Whole(info: TableInfo, k: Key, cell: Cell) {
    Short(Requested(info, k, cell))
  }

  /** One record of a flush whose statement is executed as it was formatted. */
  function Executed(cell: Cell, left: Leaving): Cell {
    var c := cell.(pending := None);
    if cell.record.None? || cell.pending.None? then c
    else
      var r := cell.record.value;
      match cell.pending.value
      case StateNone => c
      case StateInsert => c.(record := Some(AllCommitting(r)), row := Some(r.values))
      case StateDelete => c.(record := None, row := None)
      case StateUpdate =>
        if !AnyChanged(r) then c
        else c.(record := Some(ChangedCommitting(r)),
                row := if cell.row.Some? && |cell.row.value| == |r.values| == |r.cols|
                       then Some(UpdatedRow(r, cell.row.value, left)) else cell.row)
  }

  /**
   One record of a flush: its request, then its entry is gone. A deleted record leaves the cache. `left` is what a
   statement leaves behind if its text is undefined or cut; the record does not learn of it.
   */
  function FlushCell(info: TableInfo, k: Key, cell: Cell, left: Leaving): Cell {
    if Whole(info, k, cell) then Executed(cell, left) else Executed(cell, left).(row := left)
  }

  // ---------------------------------------------------------------- the cell invariants

  /** Pending state, row and eager presence agree. */
  predicate CellInv(cell: Cell, info: TableInfo) {
    && (cell.record.Some? ==> |cell.record.value.values| == |cell.record.value.cols| == |info.columns|)
    && (cell.row.Some? ==> |cell.row.value| == |info.columns|)
    && (cell.pending.Some? ==> cell.record.Some?)
    && (match cell.pending
        case Some(StateInsert) => cell.row.None? && cell.present
        case Some(StateDelete) => cell.row.Some? && !cell.present
        case Some(StateUpdate) => cell.row.Some? && cell.present
        case _ => cell.present == cell.row.Some?)
  }

  /** The clean columns of a cached record equal those of its row. */
  predicate CleanCell(cell: Cell) {
    cell.record.Some? && cell.row.Some? ==> Clean(cell.record.value, cell.row.value)
  }

  /** A pending update whose statement assigns every dirty column. */
  ghost predicate Writes(cell: Cell) {
    cell.pending == Some(StateUpdate) && cell.record.Some? ==> GapsDivide(Dirty(cell.record.value))
  }

  lemma CommitKeepsCell(cell: Cell, c: Commit, info: TableInfo)
    requires CellInv(cell, info) && Legal(cell, c) && cell.record.Some?
    ensures CellInv(CommitCell(cell, c), info)
  {
  }

  lemma SetKeepsCell(cell: Cell, i: nat, v: Value, info: TableInfo)
    requires CellInv(cell, info) && cell.record.Some? && i < |info.columns|
    ensures CellInv(cell.(record := Some(SetColumn(cell.record.value, i, v))), info)
    ensures CleanCell(cell) ==> CleanCell(cell.(record := Some(SetColumn(cell.record.value, i, v))))
  {
  }

  lemma AnyFirst(r: Record) returns (f: nat)
    requires AnyChanged(r)
    ensures FirstDirty(Dirty(r), f)
  {
    f := 0;
    while r.cols[f] != Changed
      invariant f < |r.cols| && forall k :: 0 <= k < f ==> r.cols[k] != Changed
      decreases |r.cols| - f
    {
      f := f + 1;
    }
  }

  /** With gaps that divide by three the update writes exactly the dirty columns, so the row is the record. */
  lemma UpdateWritesAll(r: Record, row: seq<Value>, left: Leaving)
    requires Clean(r, row) && GapsDivide(Dirty(r))
    ensures AnyChanged(r) ==> UpdatedRow(r, row, left) == r.values
    ensures !AnyChanged(r) ==> row == r.values
  {
    hide GapsDivide, Statement;
    if AnyChanged(r) {
      var f := AnyFirst(r);
      StatementExact(Dirty(r), f);
      assert forall i: nat :: i < |row| ==> (i in Statement(Dirty(r)).columns <==> r.cols[i] == Changed);
    }
  }

  /** With other gaps a defined statement leaves the first dirty column of the row as it was. */
  lemma UpdateLosesFirst(r: Record, row: seq<Value>, left: Leaving, f: nat)
    requires |r.values| == |r.cols| == |row| && FirstDirty(Dirty(r), f)
    requires !GapsDivide(Dirty(r)) && Statement(Dirty(r)).Written?
    ensures UpdatedRow(r, row, left)[f] == row[f]
  {
    hide GapsDivide, Statement;
    StatementExact(Dirty(r), f);
  }

  /**
   A flush leaves present exactly what executing the commits at once would have, whatever its statements say.
   If a pending update has gaps that divide by three, it also keeps every clean column equal to the stored
   one, and leaves a record that was pending insert or update equal to its row.
   */
  lemma FlushSettles(info: TableInfo, k: Key, cell: Cell, left: Leaving)
    requires CellInv(cell, info) && Whole(info, k, cell)
    ensures CellInv(FlushCell(info, k, cell, left), info)
    ensures FlushCell(info, k, cell, left).row.Some? <==> cell.present
    ensures FlushCell(info, k, cell, left).present == cell.present && FlushCell(info, k, cell, left).pending.None?
    ensures CleanCell(cell) && Writes(cell) ==> CleanCell(FlushCell(info, k, cell, left))
    ensures CleanCell(cell) && Writes(cell) && cell.pending in {Some(StateInsert), Some(StateUpdate)} ==>
              && FlushCell(info, k, cell, left).record.Some?
              && FlushCell(info, k, cell, left).row == Some(FlushCell(info, k, cell, left).record.value.values)
  {
    hide Whole, GapsDivide, UpdatedRow;
    if cell.pending == Some(StateUpdate) && CleanCell(cell) && Writes(cell) {
      UpdateWritesAll(cell.record.value, cell.row.value, left);
    }
  }

  /**
   The condition is exact. Flushing a pending update whose first dirty column really differs from the stored
   one, with a statement that has a text, leaves clean columns clean exactly if its gaps divide by three.
   */
  lemma FlushUpdateExact(info: TableInfo, k: Key, cell: Cell, left: Leaving, f: nat)
    requires Whole(info, k, cell)
    requires CellInv(cell, info) && CleanCell(cell) && cell.pending == Some(StateUpdate)
    requires FirstDirty(Dirty(cell.record.value), f) && cell.record.value.values[f] != cell.row.value[f]
    requires Statement(Dirty(cell.record.value)).Written?
    ensures CleanCell(FlushCell(info, k, cell, left)) <==> GapsDivide(Dirty(cell.record.value))
    ensures !GapsDivide(Dirty(cell.record.value)) ==> FlushCell(info, k, cell, left).row.value[f] == cell.row.value[f]
  {
    hide Whole, GapsDivide, UpdatedRow, Statement;
    var r := cell.record.value;
    assert r.cols[f] == Changed && AnyChanged(r);
    FlushSettles(info, k, cell, left);
    if !GapsDivide(Dirty(r)) {
      UpdateLosesFirst(r, cell.row.value, left, f);
      var after := FlushCell(info, k, cell, left);
      assert after.record.value.cols[f] == Committing && after.record.value.values[f] != after.row.value[f];
    }
  }

  /** A stored row a, x, y, b whose outer columns were set to p and q, and an update committed. */
  function OuterTwoChanged(a: Value, x: Value, y: Value, b: Value, p: Value, q: Value): Cell {
    Cell(Some(Record([p, x, y, q], [Changed, Inited, Inited, Changed])), Some(StateUpdate), Some([a, x, y, b]), true)
  }

  /** Four columns of which the outer two are dirty: the first keeps its old value, and no longer counts as dirty. */
  lemma TwoCleanBetween(
    info: TableInfo, k: Key, a: Value, x: Value, y: Value, b: Value, p: Value, q: Value, left: Leaving)
    requires p != a && |info.columns| == 4 && Whole(info, k, OuterTwoChanged(a, x, y, b, p, q))
    ensures var cell := OuterTwoChanged(a, x, y, b, p, q);
            var after := FlushCell(info, k, cell, left);
            && CellInv(cell, info) && CleanCell(cell) && after.row == Some([a, x, y, q])
            && after.record == Some(Record([p, x, y, q], [Committing, Inited, Inited, Committing]))
            && !CleanCell(after)
  {
    hide Whole;
    var r := Record([p, x, y, q], [Changed, Inited, Inited, Changed]);
    var dirty := Dirty(r);
    assert dirty == [true, false, false, true] && r.cols[0] == Changed;
    assert Statement(dirty) == Written([3, 3]) by {
      assert Assign([], 0, dirty, 0) == Assign([0], 1, dirty, 1) == Assign([0], 2, dirty, 2);
      assert [3] + [3] == [3, 3];
      assert Assign([0], 2, dirty, 2) == Assign([0], 0, dirty, 3) == Assign([3, 3], 1, dirty, 4);
    }
    assert UpdatedRow(r, [a, x, y, b], left) == [a, x, y, q];
    assert ChangedCommitting(r).cols == [Committing, Inited, Inited, Committing];
    assert [Committing, Inited, Inited, Committing][0] != Changed;
  }

  // ---------------------------------------------------------------- runs over many records

  type Cells = map<Key, Cell>

  /** By key, what an update with an undefined text leaves. */
  type Leavings = map<Key, seq<Value>>

  function LeftAt(left: Leavings, k: Key): Leaving {
    if k in left then Some(left[k]) else None
  }

  datatype Op =
    | Load(k: Key)                       // a select filled a record from its row
    | Create(k: Key)                     // get_new
    | Set(k: Key, i: nat, v: Value)
    | Request(k: Key, c: Commit)
    | Flush(order: seq<Key>, left: Leavings)   // update(), meeting the pending records in this order

  predicate Distinct(order: seq<Key>) {
    forall i, j :: 0 <= i < j < |order| ==> order[i] != order[j]
  }

  predicate IsPending(w: Cells, k: Key) {
    k in w && w[k].pending.Some?
  }

  /** Each pending record is met once, in whatever order the hash map has. */
  ghost predicate FlushOrder(w: Cells, order: seq<Key>) {
    Distinct(order) && forall k :: k in order <==> IsPending(w, k)
  }

  /** What is formatted for the pending records is queued as it is. */
  ghost predicate AllWhole(info: TableInfo, w: Cells) {
    forall k :: k in w ==> Whole(info, k, w[k])
  }

  ghost predicate CanFlush(info: TableInfo, w: Cells, order: seq<Key>) {
    FlushOrder(w, order) && AllWhole(info, w)
  }

  function FlushOne(info: TableInfo, w: Cells, k: Key, left: Leavings): Cells {
    if k in w then w[k := FlushCell(info, k, w[k], LeftAt(left, k))] else w
  }

  function FlushAll(info: TableInfo, w: Cells, order: seq<Key>, left: Leavings): Cells {
    if order == [] then w else FlushAll(info, FlushOne(info, w, order[0], left), order[1..], left)
  }

  /** What a run may do next; keys are those of the map. */
  ghost predicate Enabled(w: Cells, info: TableInfo, op: Op) {
    match op
    case Load(k) => k in w && w[k].record.None? && w[k].row.Some?
    case Create(k) => k in w && w[k].record.None? && w[k].row.None?
    case Set(k, i, _) => k in w && w[k].record.Some? && i < |info.columns|
    case Request(k, c) => k in w && w[k].record.Some? && Legal(w[k], c)
    case Flush(order, _) => CanFlush(info, w, order)
  }

  /** An operation that is enabled. */
  function Apply(w: Cells, info: TableInfo, op: Op): Cells
    requires !op.Flush? ==> op.k in w
  {
    match op
    case Load(k) => if w[k].row.Some? then w[k := w[k].(record := Some(Loaded(w[k].row.value)))] else w
    case Create(k) => w[k := w[k].(record := Some(NewRecord(|info.columns|)))]
    case Set(k, i, v) =>
      if w[k].record.Some? then w[k := w[k].(record := Some(SetColumn(w[k].record.value, i, v)))] else w
    case Request(k, c) => w[k := CommitCell(w[k], c)]
    case Flush(order, left) => FlushAll(info, w, order, left)
  }

  predicate AllInv(w: Cells, info: TableInfo) {
    forall k :: k in w ==> CellInv(w[k], info)
  }

  predicate AllClean(w: Cells) {
    forall k :: k in w ==> CleanCell(w[k])
  }

  /** Every update a flush is about to request writes all its dirty columns. */
  ghost predicate AllWrite(w: Cells) {
    forall k :: k in w ==> Writes(w[k])
  }

  /** The order of the hash map does not matter: every pending record is flushed, the others are left. */
  lemma {:induction false} FlushIsPointwise(info: TableInfo, w: Cells, order: seq<Key>, left: Leavings)
    requires Distinct(order)
    ensures FlushAll(info, w, order, left).Keys == w.Keys
    ensures forall k :: k in w ==>
              FlushAll(info, w, order, left)[k] ==
              if k in order then FlushCell(info, k, w[k], LeftAt(left, k)) else w[k]
    decreases |order|
  {
    hide FlushCell;
    if order != [] {
      FlushIsPointwise(info, FlushOne(info, w, order[0], left), order[1..], left);
      assert order[0] !in order[1..];
      assert forall k :: k in order <==> k == order[0] || k in order[1..];
    }
  }

  /** A flush in its order treats every cell as `FlushCell` says. */
  lemma FlushIsCellwise(info: TableInfo, w: Cells, order: seq<Key>, left: Leavings)
    requires FlushOrder(w, order)
    ensures FlushAll(info, w, order, left).Keys == w.Keys
    ensures forall k :: k in w ==> FlushAll(info, w, order, left)[k] == FlushCell(info, k, w[k], LeftAt(left, k))
  {
    hide FlushAll;
    FlushIsPointwise(info, w, order, left);
    forall k | k in w ensures FlushAll(info, w, order, left)[k] == FlushCell(info, k, w[k], LeftAt(left, k)) {
      assert k in order <==> IsPending(w, k);
    }
  }

  lemma OrderIrrelevant(info: TableInfo, w: Cells, order: seq<Key>, other: seq<Key>, left: Leavings)
    requires CanFlush(info, w, order) && CanFlush(info, w, other)
    ensures FlushAll(info, w, order, left) == FlushAll(info, w, other, left)
  {
    hide FlushAll, FlushOrder;
    FlushIsCellwise(info, w, order, left);
    FlushIsCellwise(info, w, other, left);
    forall k | k in w ensures FlushAll(info, w, order, left)[k] == FlushAll(info, w, other, left)[k] {
    }
  }

  lemma FlushKeeps(w: Cells, info: TableInfo, order: seq<Key>, left: Leavings)
    requires AllInv(w, info) && CanFlush(info, w, order)
    ensures var w1 := FlushAll(info, w, order, left);
            && w1.Keys == w.Keys && AllInv(w1, info) && (AllClean(w) && AllWrite(w) ==> AllClean(w1))
            && forall k :: k in w ==> w1[k].pending.None? && w1[k].present == w[k].present
  {
    hide FlushAll, FlushCell, CellInv, CleanCell, Writes, FlushOrder, Whole;
    FlushIsCellwise(info, w, order, left);
    forall k | k in w
      ensures CellInv(FlushCell(info, k, w[k], LeftAt(left, k)), info)
      ensures FlushCell(info, k, w[k], LeftAt(left, k)).present == w[k].present
      ensures FlushCell(info, k, w[k], LeftAt(left, k)).pending.None?
      ensures CleanCell(w[k]) && Writes(w[k]) ==> CleanCell(FlushCell(info, k, w[k], LeftAt(left, k)))
    {
      FlushSettles(info, k, w[k], LeftAt(left, k));
    }
  }

  lemma StepKeeps(w: Cells, info: TableInfo, op: Op)
    requires AllInv(w, info) && Enabled(w, info, op)
    ensures var w1 := Apply(w, info, op);
            && AllInv(w1, info) && w1.Keys == w.Keys
            && (AllClean(w) && (op.Flush? ==> AllWrite(w)) ==> AllClean(w1))
            && (op.Flush? ==> forall k :: k in w ==> w1[k].pending.None? && w1[k].present == w[k].present)
  {
    hide FlushAll, CanFlush;
    match op
    case Set(k, i, v) => SetKeepsCell(w[k], i, v, info);
    case Request(k, c) => CommitKeepsCell(w[k], c, info);
    case Flush(order, left) => FlushKeeps(w, info, order, left);
    case _ =>
  }

  /** Each operation is enabled when its turn comes. */
  ghost predicate LegalRun(w: Cells, info: TableInfo, ops: seq<Op>)
    decreases |ops|
  {
    ops == [] || (Enabled(w, info, ops[0]) && LegalRun(Apply(w, info, ops[0]), info, ops[1..]))
  }

  /** And whenever a flush comes, every pending update writes all its dirty columns. */
  ghost predicate WritingRun(w: Cells, info: TableInfo, ops: seq<Op>)
    requires LegalRun(w, info, ops)
    decreases |ops|
  {
    ops == [] || ((ops[0].Flush? ==> AllWrite(w)) && WritingRun(Apply(w, info, ops[0]), info, ops[1..]))
  }

  ghost function After(w: Cells, info: TableInfo, ops: seq<Op>): Cells
    requires LegalRun(w, info, ops)
    decreases |ops|
  {
    if ops == [] then w else After(Apply(w, info, ops[0]), info, ops[1..])
  }

  /** The presence of a row if every commit of the run is executed at once. */
  function EagerPresence(k: Key, present: bool, ops: seq<Op>): bool
    decreases |ops|
  {
    if ops == [] then present
    else EagerPresence(k, if ops[0].Request? && ops[0].k == k then Eager(ops[0].c) else present, ops[1..])
  }

  /** No record cached, nothing pending: the database alone. */
  predicate AtRest(w: Cells, info: TableInfo) {
    forall k :: k in w ==>
      && w[k].record.None? && w[k].pending.None?
      && w[k].present == w[k].row.Some? && (w[k].row.Some? ==> |w[k].row.value| == |info.columns|)
  }

  lemma RestIsFine(w: Cells, info: TableInfo)
    requires AtRest(w, info)
    ensures AllInv(w, info) && AllClean(w)
  {
  }

  lemma {:induction false} RunInvariant(w: Cells, info: TableInfo, ops: seq<Op>)
    requires AllInv(w, info) && LegalRun(w, info, ops)
    ensures After(w, info, ops).Keys == w.Keys && AllInv(After(w, info, ops), info)
    ensures forall k :: k in w ==> After(w, info, ops)[k].present == EagerPresence(k, w[k].present, ops)
    ensures AllClean(w) && WritingRun(w, info, ops) ==> AllClean(After(w, info, ops))
    decreases |ops|
  {
    hide CellInv, CleanCell, Writes, FlushAll, CanFlush, AllClean, AllWrite;
    if ops != [] {
      StepKeeps(w, info, ops[0]);
      RunInvariant(Apply(w, info, ops[0]), info, ops[1..]);
    }
  }

  lemma {:induction false} AfterOneMore(w: Cells, info: TableInfo, ops: seq<Op>, op: Op)
    requires LegalRun(w, info, ops + [op])
    ensures LegalRun(w, info, ops) && Enabled(After(w, info, ops), info, op)
    ensures After(w, info, ops + [op]) == Apply(After(w, info, ops), info, op)
    decreases |ops|
  {
    hide Apply;
    var all := ops + [op];
    if ops == [] {
      assert all == [op] && all[1..] == [];
    } else {
      assert all[0] == ops[0] && all[1..] == ops[1..] + [op];
      AfterOneMore(Apply(w, info, ops[0]), info, ops[1..], op);
    }
  }

  /**
   Write-behind refines eager: for any number of batches of legal commits, in any order of the hash map and
   whatever the update statements write, the rows present after each flush are those present had every commit
   been executed at once.
   */
  lemma WriteBehindRefinesEager(w: Cells, info: TableInfo, ops: seq<Op>, order: seq<Key>, left: Leavings)
    requires AtRest(w, info) && LegalRun(w, info, ops + [Flush(order, left)])
    ensures var run := ops + [Flush(order, left)];
            var m := After(w, info, run);
            && m.Keys == w.Keys
            && forall k :: k in w ==> (m[k].row.Some? <==> EagerPresence(k, w[k].row.Some?, run))
  {
    hide FlushAll;
    var run := ops + [Flush(order, left)];
    RestIsFine(w, info);
    RunInvariant(w, info, run);
    AfterOneMore(w, info, ops, Flush(order, left));
    RunInvariant(w, info, ops);
    FlushKeeps(After(w, info, ops), info, order, left);
  }

  /**
   The dirty-column invariant: over every legal run whose flushed updates have gaps that divide by three, in a
   cached record whose row is stored each column not marked as changed equals the stored column.
   */
  lemma CleanColumns(w: Cells, info: TableInfo, ops: seq<Op>)
    requires AtRest(w, info) && LegalRun(w, info, ops) && WritingRun(w, info, ops)
    ensures var m := After(w, info, ops);
            forall k :: k in m && m[k].record.Some? && m[k].row.Some? ==> Clean(m[k].record.value, m[k].row.value)
  {
    hide FlushAll, WritingRun, LegalRun, After;
    RestIsFine(w, info);
    RunInvariant(w, info, ops);
  }

  /**
   Where it ends: after such a run, a flush of a pending update whose statement has a text and whose first
   dirty column differs from the stored one keeps the invariant exactly if that update has such gaps too.
   */
  lemma CleanColumnsExact(
    w: Cells, info: TableInfo, ops: seq<Op>, order: seq<Key>, left: Leavings, k: Key, f: nat, dirty: seq<bool>)
    requires AtRest(w, info) && LegalRun(w, info, ops) && WritingRun(w, info, ops)
    requires CanFlush(info, After(w, info, ops), order)
    requires PendingUpdate(After(w, info, ops), k, f, dirty) && Statement(dirty).Written?
    ensures var after := FlushAll(info, After(w, info, ops), order, left);
            k in after && (CleanCell(after[k]) <==> GapsDivide(dirty))
  {
    hide FlushAll, WritingRun, LegalRun, After, FlushOrder, Whole, FlushCell, CellInv, CleanCell, GapsDivide, Statement;
    RestIsFine(w, info);
    RunInvariant(w, info, ops);
    var m := After(w, info, ops);
    FlushIsCellwise(info, m, order, left);
    FlushUpdateExact(info, k, m[k], LeftAt(left, k), f);
  }

  /** Record `k` waits to be updated, its dirty columns are these, and the first, `f`, has a new value. */
  ghost predicate PendingUpdate(w: Cells, k: Key, f: nat, dirty: seq<bool>) {
    && k in w && w[k].pending == Some(StateUpdate) && w[k].record.Some? && w[k].row.Some?
    && dirty == Dirty(w[k].record.value) && FirstDirty(dirty, f)
    && f < |w[k].record.value.values| && f < |w[k].row.value|
    && w[k].record.value.values[f] != w[k].row.value[f]
  }

  /** After a flush of such a run, every record that was pending insert or update equals its stored row. */
  lemma FlushStoresRecords(w: Cells, info: TableInfo, ops: seq<Op>, order: seq<Key>, left: Leavings)
    requires AtRest(w, info) && LegalRun(w, info, ops) && WritingRun(w, info, ops)
    requires CanFlush(info, After(w, info, ops), order) && AllWrite(After(w, info, ops))
    ensures var m := After(w, info, ops);
            var m1 := FlushAll(info, m, order, left);
            forall k :: k in m && m[k].pending in {Some(StateInsert), Some(StateUpdate)} ==>
              k in m1 && m1[k].record.Some? && m1[k].row == Some(m1[k].record.value.values)
  {
    hide FlushAll, WritingRun, LegalRun, After, FlushOrder, Whole, FlushCell, CellInv, CleanCell, Writes;
    RestIsFine(w, info);
    RunInvariant(w, info, ops);
    var m := After(w, info, ops);
    FlushIsCellwise(info, m, order, left);
    forall k | k in m && m[k].pending in {Some(StateInsert), Some(StateUpdate)}
      ensures var cell := FlushCell(info, k, m[k], LeftAt(left, k));
              cell.record.Some? && cell.row == Some(cell.record.value.values)
    {
      FlushSettles(info, k, m[k], LeftAt(left, k));
    }
  }

  // ---------------------------------------------------------------- batches

  /** The operations between two flushes. */
  predicate IsBatch(ops: seq<Op>) {
    forall i :: 0 <= i < |ops| ==> !ops[i].Flush?
  }

  /** The commits a batch makes on one record. */
  function CommitsOn(k: Key, ops: seq<Op>): seq<Commit> {
    if ops == [] then []
    else (if ops[0].Request? && ops[0].k == k then [ops[0].c] else []) + CommitsOn(k, ops[1..])
  }

  /** What is pending after commits on a record: it depends on the row and on the last of them. */
  predicate PendingAfter(before: Option<RecordState>, stored: bool, cs: seq<Commit>, after: Option<RecordState>) {
    if cs == [] then after == before
    else if !stored then after == Some(if cs[|cs| - 1].Delete? then StateNone else StateInsert)
    else
      after == Some(
        match cs[|cs| - 1]
        case Insert => StateNone
        case Delete => StateDelete
        case Update => StateUpdate)
  }

  /** A pending state that some batch could have left. */
  predicate Settled(cell: Cell, cs: seq<Commit>) {
    PendingAfter(None, cell.row.Some?, cs, cell.pending)
  }

  lemma OneCommitSettles(cell: Cell, cs: seq<Commit>, c: Commit, info: TableInfo)
    requires CellInv(cell, info) && Legal(cell, c) && Settled(cell, cs)
    ensures Settled(CommitCell(cell, c), cs + [c])
  {
    assert (cs + [c])[|cs + [c]| - 1] == c;
  }

  lemma {:induction false} BatchPendsFrom(w: Cells, info: TableInfo, ops: seq<Op>, k: Key, cs: seq<Commit>)
    requires AllInv(w, info) && IsBatch(ops) && LegalRun(w, info, ops) && k in w && Settled(w[k], cs)
    ensures var m := After(w, info, ops);
            k in m && m[k].row == w[k].row && Settled(m[k], cs + CommitsOn(k, ops))
    decreases |ops|
  {
    hide CellInv, Settled, FlushAll;
    if ops == [] {
      assert cs + CommitsOn(k, ops) == cs;
    } else {
      var op := ops[0];
      StepKeeps(w, info, op);
      var w1 := Apply(w, info, op);
      assert !op.Flush?;
      var more := if op.Request? && op.k == k then [op.c] else [];
      if op.Request? && op.k == k {
        OneCommitSettles(w[k], cs, op.c, info);
      } else {
        assert cs + more == cs && w1[k].pending == w[k].pending && w1[k].row == w[k].row;
        SameSettled(w[k], w1[k], cs);
      }
      BatchPendsFrom(w1, info, ops[1..], k, cs + more);
      assert (cs + more) + CommitsOn(k, ops[1..]) == cs + CommitsOn(k, ops);
    }
  }

  lemma SameSettled(cell: Cell, after: Cell, cs: seq<Commit>)
    requires Settled(cell, cs) && after.pending == cell.pending && after.row == cell.row
    ensures Settled(after, cs)
  {
  }

  /** After any legal batch on a settled record its pending state is that of its last commit. */
  lemma BatchPends(w: Cells, info: TableInfo, ops: seq<Op>, k: Key)
    requires AllInv(w, info) && IsBatch(ops) && LegalRun(w, info, ops) && k in w && w[k].pending.None?
    ensures var m := After(w, info, ops);
            && k in m && m[k].row == w[k].row
            && PendingAfter(None, w[k].row.Some?, CommitsOn(k, ops), m[k].pending)
  {
    BatchPendsFrom(w, info, ops, k, []);
    assert [] + CommitsOn(k, ops) == CommitsOn(k, ops);
  }

  /**
   A delete and an insert cancel, whatever the record holds by then: nothing is written, a stored row stays
   as it is, and the record equals the row after the flush exactly if it did before or there was none.
   */
  lemma DeleteThenInsert(info: TableInfo, k: Key, cell: Cell, left: Leaving)
    requires Whole(info, k, CommitCell(CommitCell(cell, Delete), Insert))
    requires CellInv(cell, info) && cell.record.Some? && Legal(cell, Delete)
    ensures var flushed := FlushCell(info, k, CommitCell(CommitCell(cell, Delete), Insert), left);
            && flushed.present
            && (cell.row.Some? ==> flushed.row == cell.row)
            && (flushed.row == Some(cell.record.value.values) <==>
                cell.row.None? || cell.row == Some(cell.record.value.values))
  {
  }

  /**
   Over whole batches: on a stored row the flush leaves the old contents, whatever the record holds, if the
   last commit is an insert or there was none; after an update it writes what its statement assigns; without a
   stored row it writes the record.
   */
  lemma BatchStores(w: Cells, info: TableInfo, ops: seq<Op>, order: seq<Key>, left: Leavings, k: Key)
    requires AllInv(w, info) && IsBatch(ops) && LegalRun(w, info, ops) && k in w && w[k].pending.None?
    requires CanFlush(info, After(w, info, ops), order)
    ensures var m, cs := After(w, info, ops), CommitsOn(k, ops);
            var after := FlushAll(info, m, order, left);
            k in m && k in after &&
            (m[k].record.Some? && m[k].present ==>
               && after[k].record.Some? && after[k].record.value.values == m[k].record.value.values
               && (w[k].row.None? ==> after[k].row == Some(m[k].record.value.values))
               && (w[k].row.Some? && (cs == [] || cs[|cs| - 1].Insert?) ==> after[k].row == w[k].row)
               && (w[k].row.Some? && cs != [] && cs[|cs| - 1].Update? ==>
                     && |m[k].record.value.values| == |m[k].record.value.cols| == |w[k].row.value|
                     && after[k].row == if AnyChanged(m[k].record.value)
                                     then Some(UpdatedRow(m[k].record.value, w[k].row.value, LeftAt(left, k)))
                                     else w[k].row))
  {
    hide FlushAll, LegalRun, After, FlushOrder, Whole, UpdatedRow, IsBatch, AnyChanged;
    RunInvariant(w, info, ops);
    BatchPends(w, info, ops, k);
    FlushIsCellwise(info, After(w, info, ops), order, left);
    assert CellInv(After(w, info, ops)[k], info);
  }

  lemma {:induction false} BatchWrites(w: Cells, info: TableInfo, ops: seq<Op>)
    requires IsBatch(ops) && LegalRun(w, info, ops)
    ensures WritingRun(w, info, ops)
    decreases |ops|
  {
    hide Apply, AllWrite;
    if ops != [] {
      assert !ops[0].Flush?;
      BatchWrites(Apply(w, info, ops[0]), info, ops[1..]);
    }
  }

  /**
   Which batches fall behind: a record left present, whose update, if that is what is pending, has gaps that
   divide by three, agrees with its row after the flush exactly if no row was stored, or the batch ends in an
   update, or the two agreed before anything was written.
   */
  lemma BatchFallsBehind(w: Cells, info: TableInfo, ops: seq<Op>, order: seq<Key>, left: Leavings, k: Key)
    requires AllInv(w, info) && AllClean(w) && IsBatch(ops) && LegalRun(w, info, ops)
    requires k in w && w[k].pending.None? && CanFlush(info, After(w, info, ops), order)
    ensures var m, cs := After(w, info, ops), CommitsOn(k, ops);
            var after := FlushAll(info, m, order, left);
            k in m && k in after &&
            (m[k].record.Some? && m[k].present && Writes(m[k]) ==>
               (after[k].row == Some(m[k].record.value.values) <==>
                  w[k].row.None? || (cs != [] && cs[|cs| - 1].Update?) || w[k].row == Some(m[k].record.value.values)))
  {
    hide FlushAll, LegalRun, WritingRun, After, FlushOrder, Whole, UpdatedRow, IsBatch, Writes, GapsDivide, Dirty;
    BatchWrites(w, info, ops);
    RunInvariant(w, info, ops);
    BatchPends(w, info, ops, k);
    BatchStores(w, info, ops, order, left, k);
    var m := After(w, info, ops);
    FlushIsCellwise(info, m, order, left);
    FlushSettles(info, k, m[k], LeftAt(left, k));
  }

  // ---------------------------------------------------------------- the update statement

  /**
   `UpdatedRow` is what the statement says: the text formatted for the dirty columns is undefined exactly where
   the row is left open, and else the join of the assignments that make the row.
   */
  lemma UpdateSaysWhatItWrites(names: seq<string>, r: Record, row: seq<Value>, left: Leaving)
    requires |names| == |r.values| == |r.cols| == |row|
    ensures var fields, written := UpdateFields(names, r), Statement(Dirty(r));
            && (written.Written? ==> Known(fields, written.columns))
            && SqlRing.Update(SqlRing.NoText, 0, fields) == TextOf(fields, written)
            && (written.Written? ==> forall i: nat :: i < |row| ==>
                  UpdatedRow(r, row, left)[i] == if i in written.columns then r.values[i] else row[i])
  {
    hide Statement, SqlRing.Update, TextOf;
    var fields := UpdateFields(names, r);
    assert Flags(fields) == Dirty(r);
    StatementText(fields);
  }

  /**
   The statement text is the join of all dirty columns exactly for the dirty sets whose gaps divide by three;
   for the others the formatter loses the first assignment or has no defined text.
   */
  lemma UpdateStatementExact(names: seq<string>, r: Record)
    requires |names| == |r.values| == |r.cols| && AnyChanged(r)
    requires SqlRing.Columns(UpdateFields(names, r))
    ensures SqlRing.Correct(UpdateFields(names, r)) <==> GapsDivide(Dirty(r))
  {
    var fields, dirty := UpdateFields(names, r), Dirty(r);
    var f := AnyFirst(r);
    assert forall k :: 0 <= k < |fields| ==> fields[k].changed == dirty[k];
    assert SqlRing.FirstChanged(fields, f);
    SqlRing.UpdateExact(0, fields, f);
    forall i: nat, j: nat ensures SqlRing.Neighbours(fields, i, j) <==> DirtyNeighbours(dirty, i, j) {
      if DirtyNeighbours(dirty, i, j) {
        assert forall k :: i < k < j ==> !fields[k].changed;
      }
    }
    assert SqlRing.AllValued(fields);
  }

  /** The SET clause is the text of the columns the statement assigns. */
  lemma ClauseIs(info: TableInfo, k: Key, r: Record)
    requires |info.columns| == |r.values| == |r.cols| && AnyChanged(r) && Statement(Dirty(r)).Written?
    ensures var fields, columns := UpdateFields(info.columns, r), Statement(Dirty(r)).columns;
            && Known(fields, columns)
            && UpdateRequested(info, k, r) ==
               Some(UpdateSql(
                 info.name, SqlText.Fit(SqlText.Join(ItemsAt(fields, columns))), info.keyName, info.keyText(k)))
  {
    hide Statement, SqlRing.Update, GapsDivide, UpdateSql;
    var fields := UpdateFields(info.columns, r);
    assert Flags(fields) == Dirty(r);
    StatementText(fields);
    var f := AnyFirst(r);
    StatementExact(Dirty(r), f);
    assert r.cols[f] == Changed;
  }

  /**
   What is queued for a short update is all of it: the assignments of its columns, none of them cut, and the key.
   Together with `UpdateSaysWhatItWrites` this is why such a row becomes what the flush says.
   */
  lemma ShortUpdateIsExecuted(info: TableInfo, k: Key, r: Record)
    requires |info.columns| == |r.values| == |r.cols| && AnyChanged(r) && Statement(Dirty(r)).Written?
    requires Short(UpdateRequested(info, k, r))
    ensures var fields, columns := UpdateFields(info.columns, r), Statement(Dirty(r)).columns;
            && Known(fields, columns) && UpdateRequested(info, k, r).Some?
            && Queued(UpdateRequested(info, k, r).value) ==
               "UPDATE " + info.name + " SET " + SqlText.Join(ItemsAt(fields, columns)) +
               " WHERE " + info.keyName + "=" + info.keyText(k)
  {
    hide Statement, UpdateSql, UpdateRequested, AnyChanged, Where;
    ClauseIs(info, k, r);
    var items := ItemsAt(UpdateFields(info.columns, r), Statement(Dirty(r)).columns);
    ShortUpdateIsWhole(info.name, items, info.keyName, info.keyText(k));
  }

  /**
   What is queued for a short delete names the table and the key, and the row of that key is what goes; that of an
   insert names every column with its value, and the row holds those.
   */
  lemma ShortRequestIsExecuted(info: TableInfo, k: Key, cell: Cell, left: Leaving)
    requires cell.record.Some? && Whole(info, k, cell)
    ensures cell.pending == Some(StateDelete) ==>
              && Requested(info, k, cell).Some?
              && Queued(Requested(info, k, cell).value) ==
                 "DELETE FROM " + info.name + " WHERE " + info.keyName + "=" + info.keyText(k)
              && FlushCell(info, k, cell, left).row == None && FlushCell(info, k, cell, left).record == None
    ensures cell.pending == Some(StateInsert) ==>
              && Requested(info, k, cell).Some?
              && Queued(Requested(info, k, cell).value) ==
                 "INSERT INTO " + info.name + " (" + SqlText.Join(info.columns) + ") VALUES (" +
                 SqlText.Join(cell.record.value.values) + ")"
              && FlushCell(info, k, cell, left).row == Some(cell.record.value.values)
  {
    hide InsertSql, DeleteSql, Queued;
    if cell.pending == Some(StateDelete) {
      ShortDeleteIsWhole(info.name, info.keyName, info.keyText(k));
    } else if cell.pending == Some(StateInsert) {
      ShortInsertIsWhole(info.name, info.columns, cell.record.value.values);
    }
  }

  /** A long update is queued without its key: the text is a proper beginning of what stands before the WHERE. */
  lemma LongUpdateLosesKey(info: TableInfo, k: Key, r: Record)
    requires !Short(UpdateRequested(info, k, r)) && |Where(info.keyName, info.keyText(k))| < LENGTHS
    ensures |info.columns| == |r.values| == |r.cols|
    ensures var acc := SqlRing.Update(SqlRing.NoText, 0, UpdateFields(info.columns, r));
            && acc.Text?
            && Queued(UpdateRequested(info, k, r).value) < UpdateHead(info.name, acc.t)
  {
    hide UpdateSql, Where, UpdateHead, Queued;
    var acc := SqlRing.Update(SqlRing.NoText, 0, UpdateFields(info.columns, r));
    CutLosesWhere(info.name, acc.t, info.keyName, info.keyText(k));
  }

  /** A stored row whose two columns were set, the second to a long value, and an update committed. */
  function LongSecond(info: TableInfo, k: Key, row: seq<Value>, first: Value): Cell
    requires |info.columns| == 2
    requires |info.columns[1]| + |Where(info.keyName, info.keyText(k))| + 3 < LENGTHS
  {
    var second := LongValue(info.columns[1], info.keyName, info.keyText(k));
    Cell(Some(Record([first, second], [Changed, Changed])), Some(StateUpdate), Some(row), true)
  }

  /**
   Gaps that divide by three do not help such a record: what is queued is the update of its first column alone, for
   every row of the table.
   */
  lemma LongUpdateReachesEveryRow(info: TableInfo, k: Key, row: seq<Value>, first: Value)
    requires |info.columns| == 2 && |row| == 2
    requires |UpdateHead(info.name, info.columns[0] + "=" + first)| + |info.columns[1]| +
             |Where(info.keyName, info.keyText(k))| + 3 < LENGTHS
    ensures var cell := LongSecond(info, k, row, first);
            && CellInv(cell, info) && CleanCell(cell) && Writes(cell)
            && Requested(info, k, cell).Some? && !Whole(info, k, cell)
            && Queued(Requested(info, k, cell).value) == UpdateHead(info.name, info.columns[0] + "=" + first)
  {
    hide Where, UpdateHead, UpdateSql, LongValue, Queued, Statement;
    var r := LongSecond(info, k, row, first).record.value;
    var fields, dirty := UpdateFields(info.columns, r), Dirty(r);
    assert dirty == [true, true];
    assert r.cols[0] == Changed;
    assert Statement(dirty) == Written([0, 1]) by {
      TwoDirty(dirty);
    }
    ClauseIs(info, k, r);
    var item := info.columns[0] + "=" + first;
    assert ItemsAt(fields, [0, 1]) == [item, info.columns[1] + "=" + r.values[1]];
    UpdatesEveryRow(info.name, item, info.columns[1], info.keyName, info.keyText(k));
  }

  lemma TwoDirty(dirty: seq<bool>)
    requires dirty == [true, true]
    ensures Statement(dirty) == Written([0, 1])
  {
    assert Assign([], 0, dirty, 0) == Assign([0], 1, dirty, 1);
    assert [0] + [1] == [0, 1];
    assert Assign([0], 1, dirty, 1) == Assign([0, 1], 1, dirty, 2);
  }
}
