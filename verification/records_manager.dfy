/**
 `mysql_records_manager` with its state manager and the generated record classes, proved against the cells
 of `RecordCache`. SQL requests are row operations on a table; they succeed if their text is queued whole. An update
 writes what the text of its statement assigns; where that text is undefined, `left` is what the environment makes of
 the row, and where a text is cut, `cut` is what it makes of the table. Neither is noticed by the code.
 */
module RecordsManagers {
  import opened Options
  import opened BiMaps
  import opened SqlStatements
  import opened RecordCache

  type Rows = map<Key, seq<Value>>

  /** What the statement of a record leaves of the table if its text is cut. */
  type Cuts = Key -> Rows

  /** The stored rows of one table, by the key its requests name. */
  class Table {
    var rows: Rows

    constructor (rows: Rows)
      ensures this.rows == rows
    {
      this.rows := rows;
    }

    /** A command is made of a text, queued and executed. */
    method Execute(sql: string, meant: Rows, cut: Rows)
      modifies this
      ensures rows == if |sql| < LENGTHS then meant else cut
    {
      QueuedExactly(sql);
      rows := if |Queued(sql)| == |sql| then meant else cut;
    }
  }

  /** A generated record class: columns other than the key, each with its state. */
  class TableRecord {
    const key: Key
    var values: seq<Value>
    var cols: seq<ColumnState>

    constructor (key: Key, width: nat)
      ensures this.key == key && View() == NewRecord(width)
    {
      this.key := key;
      values := seq(width, _ => "");
      cols := seq(width, _ => Idle);
    }

    function View(): Record
      reads this
    {
      Record(values, cols)
    }

    predicate Valid(width: nat)
      reads this
    {
      |values| == |cols| == width
    }

    /** `init_x` on every column, with the values a select returned. */
    method InitAll(row: seq<Value>)
      modifies this
      ensures View() == Loaded(row)
    {
      values := row;
      cols := seq(|row|, _ => Inited);
    }

    /** `set_x`. */
    method SetValue(i: nat, v: Value)
      requires i < |values| == |cols|
      modifies this
      ensures View() == SetColumn(old(View()), i, v)
      ensures values == old(values)[i := v] && cols == old(cols)[i := Changed]
    {
      values := values[i := v];
      cols := cols[i := Changed];
    }

    /** `insert_request`: all columns are written and become committing. */
    method InsertRequest(info: TableInfo, table: Table, cut: Rows) returns (ok: bool)
      modifies this, table
      ensures ok && View() == AllCommitting(old(View()))
      ensures table.rows == if |InsertSql(info.name, info.columns, old(values))| < LENGTHS
                            then old(table.rows)[key := old(values)] else cut
    {
      table.Execute(InsertSql(info.name, info.columns, values), table.rows[key := values], cut);
      cols := seq(|cols|, _ => Committing);
      return true;
    }

    /** `delete_request`. */
    method DeleteRequest(info: TableInfo, table: Table, cut: Rows) returns (ok: bool)
      modifies table
      ensures ok
      ensures table.rows == if |DeleteSql(info.name, info.keyName, info.keyText(key))| < LENGTHS
                            then old(table.rows) - {key} else cut
    {
      table.Execute(DeleteSql(info.name, info.keyName, info.keyText(key)), table.rows - {key}, cut);
      return true;
    }

    /** `update_request`: the dirty columns are formatted; without any there is no statement. */
    method UpdateRequest(info: TableInfo, table: Table, left: Leaving, cut: Rows) returns (ok: bool)
      requires |values| == |cols|
      modifies this, table
      ensures ok == AnyChanged(old(View()))
      ensures !ok ==> View() == old(View()) && table.rows == old(table.rows)
      ensures ok ==> View() == ChangedCommitting(old(View()))
      ensures ok && !Short(UpdateRequested(info, key, old(View()))) ==> table.rows == cut
      ensures ok && Short(UpdateRequested(info, key, old(View()))) ==>
                table.rows == if key in old(table.rows) && |old(table.rows)[key]| == |old(values)|
                              then old(table.rows)[key := UpdatedRow(old(View()), old(table.rows)[key], left)]
                              else old(table.rows)
    {
      hide UpdateRequested, UpdatedRow;
      if !(exists i :: 0 <= i < |cols| && cols[i] == Changed) {
        return false;
      }
      var meant := table.rows;
      if key in table.rows && |table.rows[key]| == |values| {
        meant := table.rows[key := UpdatedRow(View(), table.rows[key], left)];
      }
      var sql := UpdateRequested(info, key, View());
      if sql.Some? {
        table.Execute(sql.value, meant, cut);
      } else {
        table.rows := meant;
      }
      cols := ChangedCommitting(View()).cols;
      return true;
    }
  }

  class RecordsManager {
    const info: TableInfo
    const table: Table
    const keyRecordMap: BiMap<Key, TableRecord>
    var states: map<TableRecord, RecordState>

    // History: the keys whose row would be present had every commit been executed at once.
    ghost var eager: set<Key>

    constructor (info: TableInfo, table: Table)
      ensures Valid() && states == map[] && keyRecordMap.one == map[] && eager == table.rows.Keys
      ensures this.info == info && this.table == table && fresh(keyRecordMap)
    {
      this.info, this.table := info, table;
      keyRecordMap := new BiMap();
      states := map[];
      eager := table.rows.Keys;
    }

    ghost predicate Valid()
      reads this, table, keyRecordMap, keyRecordMap.one.Values
    {
      Mapped() && forall r :: r in states ==> r in keyRecordMap.two
    }

    /** Keys and record objects are in bijection, and every record sits under its own key. */
    ghost predicate Mapped()
      reads this, keyRecordMap, keyRecordMap.one.Values
    {
      && keyRecordMap.Valid()
      && forall k :: k in keyRecordMap.one ==> keyRecordMap.one[k].key == k && keyRecordMap.one[k].Valid(|info.columns|)
    }

    lemma OwnKey(record: TableRecord)
      requires Mapped() && record in keyRecordMap.two
      ensures record.key in keyRecordMap.one && keyRecordMap.one[record.key] == record
    {
      var k := keyRecordMap.two[record];
      assert k in keyRecordMap.one && keyRecordMap.one[k] == record && keyRecordMap.one[k].key == k;
    }

    /** Everything the manager, its records and the table hold about one key. */
    ghost function CellOf(k: Key): Cell
      reads this, table, keyRecordMap, keyRecordMap.one.Values
    {
      var r := if k in keyRecordMap.one then Some(keyRecordMap.one[k]) else None;
      Cell(
        if r.Some? then Some(r.value.View()) else None,
        if r.Some? && r.value in states then Some(states[r.value]) else None,
        RowAt(table.rows, k),
        k in eager)
    }

    /** No statement is cut that flushing what is pending now formats. */
    ghost predicate Uncut()
      reads this, table, keyRecordMap, keyRecordMap.one.Values
    {
      forall k :: Whole(info, k, CellOf(k))
    }

    method Get(key: Key) returns (r: Option<TableRecord>)
      ensures r == if key in keyRecordMap.one then Some(keyRecordMap.one[key]) else None
    {
      r := keyRecordMap.Find1(key);
    }

    /** `get_new`: a record for a key that has one already is made but not mapped. */
    method GetNew(key: Key) returns (r: TableRecord)
      requires Valid()
      modifies keyRecordMap
      ensures Valid() && fresh(r) && r.key == key && r.View() == NewRecord(|info.columns|)
      ensures key in old(keyRecordMap.one) ==> keyRecordMap.one == old(keyRecordMap.one)
      ensures key !in old(keyRecordMap.one) ==> keyRecordMap.one == old(keyRecordMap.one)[key := r]
      ensures CellOf(key) == if old(CellOf(key)).record.Some? then old(CellOf(key))
                             else old(CellOf(key)).(record := Some(NewRecord(|info.columns|)), pending := None)
      ensures forall k :: k != key ==> CellOf(k) == old(CellOf(k))
    {
      r := new TableRecord(key, |info.columns|);
      var _ := keyRecordMap.Insert(key, r);
    }

    /** The three branches of `mysql_record_state_manager` on one record. */
    method CommitRecord(record: TableRecord, c: Commit)
      requires Valid() && record in keyRecordMap.two
      modifies this
      ensures Valid()
      ensures CellOf(record.key) == CommitCell(old(CellOf(record.key)), c)
      ensures forall k :: k != record.key ==> CellOf(k) == old(CellOf(k))
    {
      ghost var key := record.key;
      OwnKey(record);
      eager := if c.Delete? then eager - {key} else eager + {key};
      if record !in states {
        var s :=
          match c
          case Insert => StateInsert
          case Delete => StateDelete
          case Update => StateUpdate;
        states := states[record := s];
        return;
      }
      var s := states[record];
      match c {
        case Insert =>
          if s == StateNone {
            states := states[record := StateInsert];
          } else if s == StateDelete {
            states := states[record := StateNone];
          }
        case Delete =>
          if s == StateNone || s == StateUpdate {
            states := states[record := StateDelete];
          } else if s == StateInsert {
            states := states[record := StateNone];
          }
        case Update =>
          if s == StateNone {
            states := states[record := StateUpdate];
          }
      }
    }

    /** `commit_insert_request(key)`: makes the record if there is none. */
    method CommitInsertRequest(key: Key)
      requires Valid()
      modifies this, keyRecordMap
      ensures Valid()
      ensures var before := old(CellOf(key));
              var made := before.(record := Some(NewRecord(|info.columns|)), pending := None);
              CellOf(key) == CommitCell(if before.record.Some? then before else made, Insert)
      ensures forall k :: k != key ==> CellOf(k) == old(CellOf(k))
    {
      var found := Get(key);
      if found.Some? {
        CommitRecord(found.value, Insert);
      } else {
        var record := GetNew(key);
        CommitRecord(record, Insert);
      }
    }

    /** `commit_delete_request(key)` and `commit_update_request(key)`: refused without a record. */
    method CommitRequest(key: Key, c: Commit) returns (ok: bool)
      requires Valid() && !c.Insert?
      modifies this
      ensures Valid() && ok == old(CellOf(key)).record.Some?
      ensures CellOf(key) == if ok then CommitCell(old(CellOf(key)), c) else old(CellOf(key))
      ensures forall k :: k != key ==> CellOf(k) == old(CellOf(k))
    {
      var found := Get(key);
      if found.None? {
        return false;
      }
      CommitRecord(found.value, c);
      return true;
    }

    /** `remove(record)`: it leaves both maps. */
    method Remove(record: TableRecord) returns (ok: bool)
      requires Mapped()
      modifies keyRecordMap
      ensures Mapped() && ok == (record in old(keyRecordMap.two))
      ensures keyRecordMap.two == old(keyRecordMap.two) - {record}
      ensures keyRecordMap.one == old(keyRecordMap.one) - if ok then {record.key} else {}
    {
      var key := keyRecordMap.Find2(record);
      if key.None? {
        assert keyRecordMap.one - {} == keyRecordMap.one && keyRecordMap.two - {record} == keyRecordMap.two;
        return false;
      }
      OwnKey(record);
      ok := keyRecordMap.Remove2(record);
    }

    /** `update_one_record`: 2 for a deleted record, 0 for a refused request, else 1. */
    method UpdateOne(record: TableRecord, left: Leaving, cut: Rows) returns (res: nat)
      requires Mapped() && record in keyRecordMap.two && record in states
      modifies table, record
      ensures Mapped() && (res == 2 <==> states[record] == StateDelete)
      ensures states[record] != StateDelete ==> Executed(old(CellOf(record.key)), left).record == Some(record.View())
      ensures !old(Whole(info, record.key, CellOf(record.key))) ==> table.rows == cut
      ensures old(Whole(info, record.key, CellOf(record.key))) ==>
                && RowAt(table.rows, record.key) == Executed(old(CellOf(record.key)), left).row
                && forall k :: k != record.key ==> RowAt(table.rows, k) == RowAt(old(table.rows), k)
    {
      hide InsertSql, DeleteSql, UpdateRequested, UpdatedRow, AnyChanged;
      OwnKey(record);
      var s := states[record];
      if s == StateInsert {
        var _ := record.InsertRequest(info, table, cut);
      } else if s == StateDelete {
        var _ := record.DeleteRequest(info, table, cut);
        return 2;
      } else if s == StateUpdate {
        var ok := record.UpdateRequest(info, table, left, cut);
        if !ok {
          NothingRequested(info, record.key, record.View());
          return 0;
        }
      }
      return 1;
    }

    /** One record of `update`: its request and, if it was deleted, its removal. */
    method FlushRecord(record: TableRecord, left: Leaving, cut: Rows)
      requires Mapped() && record in keyRecordMap.two && record in states
      modifies table, keyRecordMap, record
      ensures Mapped()
      ensures keyRecordMap.two == old(keyRecordMap.two) - if states[record] == StateDelete then {record} else {}
      ensures keyRecordMap.one == old(keyRecordMap.one) - if states[record] == StateDelete then {record.key} else {}
      ensures old(Whole(info, record.key, CellOf(record.key))) ==>
                && CellOf(record.key).(pending := None) ==
                   FlushCell(info, record.key, old(CellOf(record.key)), left)
                && forall k :: k != record.key ==> CellOf(k) == old(CellOf(k))
      ensures forall k :: k != record.key ==> Same(CellOf(k), old(CellOf(k)), false)
      ensures !old(Whole(info, record.key, CellOf(record.key))) ==>
                && table.rows == cut
                && CellOf(record.key).(pending := None) ==
                   FlushCell(info, record.key, old(CellOf(record.key)), CellOf(record.key).row)
    {
      hide Whole, Executed, FlushCell;
      OwnKey(record);
      assert keyRecordMap.one - {} == keyRecordMap.one && keyRecordMap.two - {} == keyRecordMap.two;
      ghost var cell := CellOf(record.key);
      var res := UpdateOne(record, left, cut);
      FlushIs(info, record.key, cell, left, RowAt(table.rows, record.key));
      if res == 2 {
        var _ := Remove(record);
      }
    }

    /** Where a flush of `records` out of the cells `before` stands; of the rows there is no telling if one is cut. */
    ghost predicate Settled(records: seq<TableRecord>, before: imap<Key, Cell>, left: Leavings)
      requires forall k: Key :: k in before
      reads this, table, keyRecordMap, keyRecordMap.one.Values
    {
      forall k: Key ::
        SettledAt(info, k, CellOf(k), before[k], FlushedIn(records, k), LeftAt(left, k), NoneCut(info, before))
    }

    lemma NothingSettled(before: imap<Key, Cell>, left: Leavings)
      requires forall k: Key :: k in before && before[k] == CellOf(k)
      ensures Settled([], before, left)
    {
    }

    /** One turn of the loop of `update`. */
    method FlushNext(
      done: seq<TableRecord>, record: TableRecord, ghost before: imap<Key, Cell>, left: Leavings, cut: Rows)
      requires forall k: Key :: k in before
      requires Mapped() && record in keyRecordMap.two && record in states
      requires Settled(done, before, left) && !FlushedIn(done, record.key)
      modifies table, keyRecordMap, record
      ensures Mapped() && Settled(done + [record], before, left)
      ensures keyRecordMap.two == old(keyRecordMap.two) - if states[record] == StateDelete then {record} else {}
      ensures keyRecordMap.one == old(keyRecordMap.one) - if states[record] == StateDelete then {record.key} else {}
    {
      hide Whole, FlushCell;
      var key := record.key;
      ghost var rows := NoneCut(info, before);
      ghost var cell := CellOf(key);
      assert SettledAt(info, key, cell, before[key], false, LeftAt(left, key), rows);
      FlushRecord(record, LeftAt(left, key), cut);
      FlushSame(info, key, cell, before[key], LeftAt(left, key), CellOf(key).row);
      forall k: Key
        ensures SettledAt(info, k, CellOf(k), before[k], FlushedIn(done + [record], k), LeftAt(left, k), rows)
      {
        assert old(SettledAt(info, k, CellOf(k), before[k], FlushedIn(done, k), LeftAt(left, k), rows));
        assert FlushedIn(done + [record], k) <==> FlushedIn(done, k) || k == record.key by {
          if k == record.key {
            assert record in done + [record];
          }
          if r :| r in done && r.key == k {
            assert r in done + [record];
          }
        }
      }
    }

    /** The loop of `update`; `order` is the order in which the hash map yields the pending records. */
    method FlushLoop(order: seq<TableRecord>, ghost before: imap<Key, Cell>, left: Leavings, cuts: Cuts)
      requires forall k: Key :: k in before
      requires Valid() && forall i, j :: 0 <= i < j < |order| ==> order[i] != order[j]
      requires forall r :: r in order ==> r in states
      requires Settled([], before, left)
      modifies table, keyRecordMap, keyRecordMap.one.Values
      ensures Mapped() && Settled(order, before, left)
    {
      hide FlushCell, SettledAt;
      ghost var one := keyRecordMap.one;
      forall r | r in order ensures r.key in one && one[r.key] == r {
        OwnKey(r);
      }
      var i := 0;
      while i < |order|
        invariant i <= |order| && Mapped()
        invariant keyRecordMap.one.Values <= one.Values
        invariant forall j :: i <= j < |order| ==> order[j] in keyRecordMap.two
        invariant Settled(order[..i], before, left)
      {
        assert order[i] in order;
        assert order[..i + 1] == order[..i] + [order[i]];
        FlushNext(order[..i], order[i], before, left, cuts(order[i].key));
        i := i + 1;
      }
      assert order[..i] == order;
    }

    /** `update()`: every pending record is flushed, and the pending states are forgotten. */
    method UpdateAll(order: seq<TableRecord>, left: Leavings, cuts: Cuts)
      requires Valid()
      requires forall i, j :: 0 <= i < j < |order| ==> order[i] != order[j]
      requires forall r :: r in order <==> r in states
      modifies this, table, keyRecordMap, keyRecordMap.one.Values
      ensures Valid() && states == map[]
      ensures forall k ::
                Same(CellOf(k), FlushCell(info, k, old(CellOf(k)), LeftAt(left, k)), old(Uncut()))
    {
      hide FlushCell, SettledAt, Whole;
      ghost var before := imap k: Key | true :: CellOf(k);
      NothingSettled(before, left);
      forall k: Key ensures before[k].pending.Some? ==> FlushedIn(order, k) {
        if before[k].pending.Some? {
          assert keyRecordMap.one[k] in order && keyRecordMap.one[k].key == k;
        }
      }
      FlushLoop(order, before, left, cuts);
      ghost var rows := NoneCut(info, before);
      forall k: Key
        ensures Same(CellOf(k).(pending := None), FlushCell(info, k, before[k], LeftAt(left, k)), rows)
      {
        SettledIsFlushed(info, k, CellOf(k), before[k], FlushedIn(order, k), LeftAt(left, k), rows);
      }
      ForgetPending();
    }

    /** `state_mgr_.clear()`. */
    method ForgetPending()
      requires Mapped()
      modifies this`states
      ensures Valid() && states == map[]
      ensures forall k :: CellOf(k) == old(CellOf(k)).(pending := None)
    {
      states := map[];
    }
  }

  function RowAt(rows: Rows, k: Key): Option<seq<Value>> {
    if k in rows then Some(rows[k]) else None
  }

  ghost predicate FlushedIn(records: seq<TableRecord>, k: Key) {
    exists r :: r in records && r.key == k
  }

  /** No statement a flush of these cells formats is cut. */
  ghost predicate NoneCut(info: TableInfo, before: imap<Key, Cell>)
    requires forall k: Key :: k in before
  {
    forall k: Key :: Whole(info, k, before[k])
  }

  /** Equal, and if `rows` also in the row. */
  ghost predicate Same(a: Cell, b: Cell, rows: bool) {
    a.(row := None) == b.(row := None) && (rows ==> a.row == b.row)
  }

  /** A cell during a flush: done, or still as it was. */
  ghost predicate SettledAt(
    info: TableInfo, k: Key, now: Cell, before: Cell, flushed: bool, left: Leaving, rows: bool)
  {
    if flushed then Same(now.(pending := None), FlushCell(info, k, before, left), rows) else Same(now, before, rows)
  }

  /** What a flush makes of a pending record, if its statement is queued whole and if it is cut. */
  lemma FlushIs(info: TableInfo, k: Key, cell: Cell, left: Leaving, other: Leaving)
    requires cell.record.Some? && cell.pending.Some?
    ensures Executed(cell, left).(row := None) ==
            Cell(if cell.pending.value.StateDelete? then None else Executed(cell, left).record,
                 None, None, cell.present)
    ensures Whole(info, k, cell) ==> FlushCell(info, k, cell, left) == Executed(cell, left)
    ensures !Whole(info, k, cell) ==> FlushCell(info, k, cell, other) == Executed(cell, left).(row := other)
  {
    hide Whole, UpdatedRow, AnyChanged;
  }

  /** Neither whether a statement is cut nor what becomes of the record depends on the row. */
  lemma FlushSame(info: TableInfo, k: Key, a: Cell, b: Cell, left: Leaving, other: Leaving)
    requires Same(a, b, false)
    ensures Whole(info, k, a) == Whole(info, k, b)
    ensures Same(FlushCell(info, k, a, left), FlushCell(info, k, b, left), false)
    ensures Same(FlushCell(info, k, a, other), FlushCell(info, k, b, left), false)
  {
    hide InsertSql, DeleteSql, UpdateRequested, UpdatedRow, AnyChanged;
  }

  lemma SettledIsFlushed(
    info: TableInfo, k: Key, now: Cell, before: Cell, flushed: bool, left: Leaving, rows: bool)
    requires SettledAt(info, k, now, before, flushed, left, rows) && (before.pending.Some? ==> flushed)
    ensures Same(now.(pending := None), FlushCell(info, k, before, left), rows)
  {
  }
}
