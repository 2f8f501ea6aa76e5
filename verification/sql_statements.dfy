/** Whole statements, and what of them is queued: a command keeps the length of its text in 16 bits. */
module SqlStatements {
  import opened SqlText

  /** sizeof of the buffer a statement is formatted in. */
  const BIG_SIZE := 1024 * 1024

  /** The lengths a command can hold lie below this. */
  const LENGTHS := 0x1_0000

  /** What `snprintf` leaves in the large buffer. */
  function FitBig(s: string): (r: string)
    ensures r <= s && |r| < BIG_SIZE
  {
    if |s| < BIG_SIZE then s else s[..BIG_SIZE - 1]
  }

  /** The text a command is made with: as many characters as its length, narrowed to 16 bits, says. */
  function Queued(sql: string): string {
    sql[..|sql| % LENGTHS]
  }

  // ---------------------------------------------------------------- the statements

  function InsertHead(table: string, names: seq<string>): string {
    "INSERT INTO " + table + " (" + Fit(Join(names)) + ") VALUES ("
  }

  function InsertSql(table: string, names: seq<string>, values: seq<string>): string {
    FitBig(InsertHead(table, names) + Fit(Join(values)) + ")")
  }

  /** An update up to its WHERE. */
  function UpdateHead(table: string, clause: string): string {
    "UPDATE " + table + " SET " + clause
  }

  function Where(keyName: string, key: string): string {
    " WHERE " + keyName + "=" + key
  }

  function UpdateSql(table: string, clause: string, keyName: string, key: string): string {
    FitBig(UpdateHead(table, clause) + Where(keyName, key))
  }

  function DeleteSql(table: string, keyName: string, key: string): string {
    FitBig("DELETE FROM " + table + Where(keyName, key))
  }

  // ---------------------------------------------------------------- what is queued

  /** A statement is queued as it was formatted exactly if it is shorter than 65536 characters. */
  lemma QueuedExactly(sql: string)
    ensures Queued(sql) == sql <==> |sql| < LENGTHS
    ensures |sql| >= LENGTHS ==> Queued(sql) < sql && |Queued(sql)| <= |sql| - LENGTHS
  {
    if |sql| >= LENGTHS {
      assert |sql| % LENGTHS < LENGTHS;
      assert |sql| == |sql| / LENGTHS * LENGTHS + |sql| % LENGTHS;
    }
  }

  /** A text of 70000 characters is queued as its first 4464. */
  lemma CutSeventyThousand(sql: string)
    requires |sql| == 70000
    ensures Queued(sql) == sql[..4464] && Queued(sql) != sql
  {
  }

  /** Nothing was cut on the way to a short insert. */
  lemma ShortInsertIsWhole(table: string, names: seq<string>, values: seq<string>)
    requires |InsertSql(table, names, values)| < LENGTHS
    ensures Queued(InsertSql(table, names, values)) ==
            "INSERT INTO " + table + " (" + Join(names) + ") VALUES (" + Join(values) + ")"
  {
    hide Join;
    QueuedExactly(InsertSql(table, names, values));
  }

  /** Nor on the way to a short update. */
  lemma ShortUpdateIsWhole(table: string, items: seq<string>, keyName: string, key: string)
    requires |UpdateSql(table, Fit(Join(items)), keyName, key)| < LENGTHS
    ensures Queued(UpdateSql(table, Fit(Join(items)), keyName, key)) ==
            "UPDATE " + table + " SET " + Join(items) + " WHERE " + keyName + "=" + key
  {
    hide Join;
    QueuedExactly(UpdateSql(table, Fit(Join(items)), keyName, key));
    WhereBehind("UPDATE " + table + " SET " + Join(items), keyName, key);
  }

  lemma WhereBehind(head: string, keyName: string, key: string)
    ensures head + Where(keyName, key) == head + " WHERE " + keyName + "=" + key
  {
  }

  /** Nor on the way to a short delete, which names its key. */
  lemma ShortDeleteIsWhole(table: string, keyName: string, key: string)
    requires |DeleteSql(table, keyName, key)| < LENGTHS
    ensures Queued(DeleteSql(table, keyName, key)) == "DELETE FROM " + table + " WHERE " + keyName + "=" + key
  {
    QueuedExactly(DeleteSql(table, keyName, key));
    WhereBehind("DELETE FROM " + table, keyName, key);
  }

  /**
   A longer delete has lost its whole WHERE and more, as long as that is not itself of such a length: what is queued
   ends within the name of the table.
   */
  lemma LongDeleteLosesWhere(table: string, keyName: string, key: string)
    requires |DeleteSql(table, keyName, key)| >= LENGTHS && |" WHERE " + keyName + "=" + key| < LENGTHS
    ensures Queued(DeleteSql(table, keyName, key)) < "DELETE FROM " + table
  {
    hide Where;
    WhereBehind("DELETE FROM " + table, keyName, key);
    WhereBehind("", keyName, key);
    var sql, head := DeleteSql(table, keyName, key), "DELETE FROM " + table;
    assert |Where(keyName, key)| == |" WHERE " + keyName + "=" + key|;
    QueuedExactly(sql);
    assert |Queued(sql)| < |head|;
    assert sql[..|Queued(sql)|] == head[..|Queued(sql)|];
  }

  /**
   An update that is cut has lost its whole WHERE, as long as that is not itself of such a length: what is queued is
   a proper beginning of what stands in front of it.
   */
  lemma CutLosesWhere(table: string, clause: string, keyName: string, key: string)
    requires |UpdateSql(table, clause, keyName, key)| >= LENGTHS && |Where(keyName, key)| < LENGTHS
    ensures Queued(UpdateSql(table, clause, keyName, key)) < UpdateHead(table, clause)
  {
    hide Where, UpdateHead;
    QueuedExactly(UpdateSql(table, clause, keyName, key));
    var sql, head := UpdateSql(table, clause, keyName, key), UpdateHead(table, clause);
    assert |Queued(sql)| < |head|;
    assert sql[..|Queued(sql)|] == head[..|Queued(sql)|];
  }

  /**
   Exactly when the cut falls behind a given beginning of the set clause: what is left out is then a multiple of
   65536 long. Behind whole assignments what is queued is an update of every row of the table.
   */
  lemma CutFallsBehind(table: string, clause: string, more: string, keyName: string, key: string)
    requires |UpdateHead(table, clause + more) + Where(keyName, key)| < BIG_SIZE
    ensures Queued(UpdateSql(table, clause + more, keyName, key)) == UpdateHead(table, clause) <==>
            |UpdateHead(table, clause)| < LENGTHS && (|more| + |Where(keyName, key)|) % LENGTHS == 0
  {
    hide Where;
    var sql, head, rest := UpdateSql(table, clause + more, keyName, key), UpdateHead(table, clause),
                           more + Where(keyName, key);
    assert UpdateHead(table, clause + more) == head + more;
    assert sql == head + rest;
    CutAt(|head|, |rest|);
    assert sql[..|head|] == head;
  }

  lemma CutAt(head: nat, rest: nat)
    ensures (head + rest) % LENGTHS == head <==> head < LENGTHS && rest % LENGTHS == 0
  {
    var q := (head + rest) / LENGTHS;
    assert head + rest == q * LENGTHS + (head + rest) % LENGTHS;
    if (head + rest) % LENGTHS == head {
      assert rest == q * LENGTHS;
    }
    if head < LENGTHS && rest % LENGTHS == 0 {
      assert head + rest == rest / LENGTHS * LENGTHS + head;
    }
  }

  /** A value after which the cut falls behind the assignment in front of it. */
  function LongValue(name: string, keyName: string, key: string): (value: string)
    requires |name| + |Where(keyName, key)| + 3 < LENGTHS
    ensures |", " + name + "=" + value| + |Where(keyName, key)| == LENGTHS
  {
    seq(LENGTHS - 3 - |name| - |Where(keyName, key)|, _ => 'x')
  }

  lemma JoinTwo(a: string, b: string)
    ensures Join([a, b]) == a + (", " + b)
  {
    assert [a, b][1..] == [b] && [b][1..] == [];
    assert JoinMore(a, [b]) == JoinMore(a + ", " + b, []);
  }

  /**
   Such an update exists: a first column with any assignment, a second with a long value. The text queued is the
   update of the first column without a WHERE.
   */
  lemma UpdatesEveryRow(table: string, item: string, name: string, keyName: string, key: string)
    requires |UpdateHead(table, item)| + |name| + |Where(keyName, key)| + 3 < LENGTHS
    ensures var clause := Join([item, name + "=" + LongValue(name, keyName, key)]);
            && Fit(clause) == clause
            && |UpdateSql(table, Fit(clause), keyName, key)| >= LENGTHS
            && Queued(UpdateSql(table, Fit(clause), keyName, key)) == UpdateHead(table, item)
  {
    hide Where;
    var value := LongValue(name, keyName, key);
    JoinTwo(item, name + "=" + value);
    var more := ", " + name + "=" + value;
    assert ", " + (name + "=" + value) == more;
    CutFallsBehind(table, item, more, keyName, key);
  }
}
