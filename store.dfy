/**
 * The relational store as the loader sees it through Python's `sqlite3`
 * module: tables of rows under the constraints of their `CREATE TABLE`
 * statements, with foreign keys enforced (`PRAGMA foreign_keys = ON`), and
 * the module's implicit transactions: a DELETE or INSERT opens a
 * transaction when none is open, `commit` makes the working state durable,
 * `rollback` returns to the last committed state.
 */
module Store {
  import opened Wrappers
  import opened Schema

  /** The contents of the database: rows per existing table. */
  type Tables = map<TableName, seq<Row>>

  /** Some row of `rows` holds `v` at position `column`. */
  predicate Referenced(rows: seq<Row>, column: nat, v: Value)
  {
    exists i | 0 <= i < |rows| :: column < |rows[i]| && rows[i][column] == v
  }

  /** Why SQLite refuses one row of an INSERT. */
  datatype Violation =
    // the tuple does not bind one value per `?` marker
    | WrongBindingCount
    // a Python int outside SQLite's 64-bit INTEGER range (`OverflowError` while binding)
    | IntegerOutOfRange
    // NULL in a NOT NULL column
    | NullInNotNullColumn
    // a row with the same non-NULL primary key exists
    | DuplicatePrimaryKey
    // a non-NULL foreign key value matches no row of the parent table
    | DanglingForeignKey

  predicate FitsColumns(t: TableName, row: Row)
  {
    |row| == |Columns(t)|
  }

  /** SQLite stores an INTEGER as a signed 64-bit number. */
  const MinInteger: int := -0x8000_0000_0000_0000
  const MaxInteger: int := 0x7FFF_FFFF_FFFF_FFFF

  /** Some value of `row` is an integer that does not fit SQLite's INTEGER, so it cannot be bound. */
  predicate HasUnboundInteger(row: Row)
  {
    exists c | 0 <= c < |row| :: row[c].Integer? && !(MinInteger <= row[c].integer <= MaxInteger)
  }

  predicate HasForbiddenNull(t: TableName, row: Row)
  {
    exists c | c in TableConstraints(t).notNull :: c < |row| && row[c] == Null
  }

  /** `a` and `b` agree on every primary key column, with no NULL among them (SQLite treats NULLs as distinct). */
  predicate KeyClash(t: TableName, a: Row, b: Row)
  {
    var pk := TableConstraints(t).primaryKey;
    forall k | 0 <= k < |pk| :: pk[k] < |a| && pk[k] < |b| && a[pk[k]] != Null && a[pk[k]] == b[pk[k]]
  }

  predicate DuplicateKey(db: Tables, t: TableName, row: Row)
    requires t in db
  {
    exists i | 0 <= i < |db[t]| :: KeyClash(t, db[t][i], row)
  }

  /** Some foreign key of `row` is non-NULL and matches no row of its parent table. */
  predicate Dangling(db: Tables, t: TableName, row: Row)
  {
    exists k | 0 <= k < |ForeignKeys(t)| ::
      var fk := ForeignKeys(t)[k];
      && fk.column < |row|
      && row[fk.column] != Null
      && !(fk.parent in db && Referenced(db[fk.parent], fk.parentColumn, row[fk.column]))
  }

  /** What SQLite says to inserting `row` into table `t` of `db`: `None` when it accepts. */
  function Check(db: Tables, t: TableName, row: Row): Option<Violation>
    requires t in db
  {
    if !FitsColumns(t, row) then Some(WrongBindingCount)
    else if HasUnboundInteger(row) then Some(IntegerOutOfRange)
    else if HasForbiddenNull(t, row) then Some(NullInNotNullColumn)
    else if DuplicateKey(db, t, row) then Some(DuplicatePrimaryKey)
    else if Dangling(db, t, row) then Some(DanglingForeignKey)
    else None
  }

  /**
   * What SQLite's constraints keep in table `t`: every row fits the table,
   * holds only integers SQLite can store, has no forbidden NULL and no
   * dangling foreign key, and no two rows share a primary key.
   */
  ghost predicate TableConsistent(db: Tables, t: TableName)
    requires t in db
  {
    && (forall i | 0 <= i < |db[t]| ::
          && FitsColumns(t, db[t][i]) && !HasUnboundInteger(db[t][i])
          && !HasForbiddenNull(t, db[t][i]) && !Dangling(db, t, db[t][i]))
    && (forall i, j | 0 <= i < j < |db[t]| :: !KeyClash(t, db[t][i], db[t][j]))
  }

  /** The state SQLite's constraints keep: every table is consistent. */
  ghost predicate Consistent(db: Tables)
  {
    forall t {:trigger TableConsistent(db, t)} | t in db :: TableConsistent(db, t)
  }

  /** Some row of a table referencing `t` holds a non-NULL value in that foreign key. */
  predicate DeleteBlocked(db: Tables, t: TableName)
  {
    exists u, i, k | u in db && 0 <= i < |db[u]| && 0 <= k < |ForeignKeys(u)| ::
      && ForeignKeys(u)[k].parent == t
      && ForeignKeys(u)[k].column < |db[u][i]|
      && db[u][i][ForeignKeys(u)[k].column] != Null
  }

  function Appended(db: Tables, t: TableName, rows: seq<Row>): Tables
    requires t in db
  {
    db[t := db[t] + rows]
  }

  /** The first `n` rows of a batch are each accepted, given the rows of the batch before them. */
  predicate Admits(db: Tables, t: TableName, rows: seq<Row>, n: nat)
    requires t in db && n <= |rows|
  {
    forall i | 0 <= i < n :: Check(Appended(db, t, rows[..i]), t, rows[i]).None?
  }

  /** The batch is accepted up to its `r.row`-th row, which is refused for `r.violation`. */
  predicate RefusedAt(db: Tables, t: TableName, rows: seq<Row>, r: Rejection)
    requires t in db
  {
    && r.row < |rows|
    && Admits(db, t, rows, r.row)
    && Check(Appended(db, t, rows[..r.row]), t, rows[r.row]) == Some(r.violation)
  }

  /** Accepting the next row extends the accepted prefix of a batch by one. */
  lemma AdmitsStep(db: Tables, t: TableName, rows: seq<Row>, i: nat)
    requires t in db && i < |rows| && Admits(db, t, rows, i)
    requires Check(Appended(db, t, rows[..i]), t, rows[i]).None?
    ensures Admits(db, t, rows, i + 1)
    ensures Appended(Appended(db, t, rows[..i]), t, [rows[i]]) == Appended(db, t, rows[..i + 1])
  {
    assert rows[..i + 1] == rows[..i] + [rows[i]];
    assert db[t] + rows[..i] + [rows[i]] == db[t] + rows[..i + 1];
  }

  /** Every table of the schema, with the rows `db` has for it or none. */
  function WithAllTables(db: Tables): Tables
  {
    map t | t in AllTables :: if t in db then db[t] else []
  }

  /** Every table of the schema, empty. */
  function EmptyTables(): Tables
  {
    map t | t in AllTables :: []
  }

  /** A value found in some rows is still found once more rows are added. */
  lemma ReferencedGrows(rows: seq<Row>, more: seq<Row>, column: nat, v: Value)
    requires Referenced(rows, column, v)
    ensures Referenced(rows + more, column, v)
  {
    var i :| 0 <= i < |rows| && column < |rows[i]| && rows[i][column] == v;
    assert (rows + more)[i] == rows[i];
  }

  /**
   * Whether a row of `t` dangles depends only on the parent tables of `t`:
   * with those present and at least as full, a row that did not dangle still does not.
   */
  lemma DanglingFrame(db: Tables, db': Tables, t: TableName, row: Row)
    requires !Dangling(db, t, row)
    requires forall k | 0 <= k < |ForeignKeys(t)| ::
               var p := ForeignKeys(t)[k].parent;
               p in db ==> p in db' && db[p] <= db'[p]
    ensures !Dangling(db', t, row)
  {
    forall k | 0 <= k < |ForeignKeys(t)|
      ensures var fk := ForeignKeys(t)[k];
        !(fk.column < |row| && row[fk.column] != Null &&
          !(fk.parent in db' && Referenced(db'[fk.parent], fk.parentColumn, row[fk.column])))
    {
      var fk := ForeignKeys(t)[k];
      if fk.column < |row| && row[fk.column] != Null {
        var p := fk.parent;
        assert db[p] + db'[p][|db[p]|..] == db'[p];
        ReferencedGrows(db[p], db'[p][|db[p]|..], fk.parentColumn, row[fk.column]);
      }
    }
  }

  /** After accepting a row, no row of the store dangles: the new one was checked, the others keep their parents. */
  lemma InsertKeepsReferences(db: Tables, t: TableName, row: Row, u: TableName, i: nat)
    requires Consistent(db) && t in db && Check(db, t, row).None?
    requires u in Appended(db, t, [row]) && i < |Appended(db, t, [row])[u]|
    ensures !Dangling(Appended(db, t, [row]), u, Appended(db, t, [row])[u][i])
  {
    var db' := Appended(db, t, [row]);
    assert db'[t] == db[t] + [row];
    assert TableConsistent(db, u);
    forall k | 0 <= k < |ForeignKeys(u)|
      ensures var p := ForeignKeys(u)[k].parent; p in db ==> p in db' && db[p] <= db'[p]
    {
    }
    if u == t && i == |db[t]| {
      DanglingFrame(db, db', u, row);
    } else {
      DanglingFrame(db, db', u, db[u][i]);
    }
  }

  /** Accepting a row keeps the constraints. */
  lemma {:induction false} InsertKeepsConsistent(db: Tables, t: TableName, row: Row)
    requires Consistent(db) && t in db && Check(db, t, row).None?
    ensures Consistent(Appended(db, t, [row]))
  {
    var db' := Appended(db, t, [row]);
    assert db'[t] == db[t] + [row];
    forall u | u in db' ensures TableConsistent(db', u) {
      assert TableConsistent(db, u);
      forall i | 0 <= i < |db'[u]| ensures !Dangling(db', u, db'[u][i]) {
        InsertKeepsReferences(db, t, row, u, i);
      }
    }
  }

  /** Deleting every row of a table no row refers to keeps the constraints. */
  lemma DeleteKeepsConsistent(db: Tables, t: TableName)
    requires Consistent(db) && t in db && !DeleteBlocked(db, t)
    ensures Consistent(db[t := []])
  {
    var db' := db[t := []];
    forall u | u in db' && u != t ensures TableConsistent(db', u) {
      assert TableConsistent(db, u);
      forall i | 0 <= i < |db'[u]| ensures !Dangling(db', u, db'[u][i]) {
        var row := db'[u][i];
        assert row == db[u][i];
        forall k | 0 <= k < |ForeignKeys(u)|
          ensures var fk := ForeignKeys(u)[k];
            !(fk.column < |row| && row[fk.column] != Null &&
              !(fk.parent in db' && Referenced(db'[fk.parent], fk.parentColumn, row[fk.column])))
        {
          var fk := ForeignKeys(u)[k];
          if fk.column < |row| && row[fk.column] != Null {
            assert fk.parent != t;
          }
        }
      }
    }
    assert TableConsistent(db', t);
  }

  /** Creating a missing table empty keeps the constraints. */
  lemma AddEmptyTableKeepsConsistent(db: Tables, t: TableName)
    requires Consistent(db) && t !in db
    ensures Consistent(db[t := []])
  {
    var db' := db[t := []];
    forall u | u in db' && u != t ensures TableConsistent(db', u) {
      assert u in db && db'[u] == db[u] && TableConsistent(db, u);
      forall i | 0 <= i < |db'[u]| ensures !Dangling(db', u, db'[u][i]) {
        forall k | 0 <= k < |ForeignKeys(u)|
          ensures var p := ForeignKeys(u)[k].parent; p in db ==> p in db' && db[p] <= db'[p]
        {
        }
        DanglingFrame(db, db', u, db[u][i]);
      }
    }
    assert TableConsistent(db', t);
  }

  /** A batch refused at some row: which row (0-based) and why. */
  datatype Rejection = Rejection(row: nat, violation: Violation)

  class Database {
    /** What a new connection would see: the state as of the last commit. */
    var committed: Tables
    /** What this connection sees: the committed state plus the open transaction's changes. */
    var working: Tables
    var inTransaction: bool

    ghost predicate Valid()
      reads this
    {
      && Consistent(committed)
      && Consistent(working)
      && (!inTransaction ==> working == committed)
    }

    /** `sqlite3.connect` to a database file holding `existing`, with no transaction open. */
    constructor Open(existing: Tables)
      requires Consistent(existing)
      ensures Valid() && !inTransaction
      ensures committed == existing && working == existing
    {
      committed := existing;
      working := existing;
      inTransaction := false;
    }

    /**
     * One `CREATE TABLE IF NOT EXISTS t`: adds the table, empty, only when it
     * is missing; DDL opens no transaction, so outside one it takes effect
     * immediately.
     */
    method CreateTable(t: TableName)
      requires Valid()
      modifies this
      ensures Valid() && inTransaction == old(inTransaction)
      ensures working == if t in old(working) then old(working) else old(working)[t := []]
      ensures committed == if inTransaction then old(committed) else working
    {
      if t !in working {
        AddEmptyTableKeepsConsistent(working, t);
        working := working[t := []];
        if !inTransaction {
          committed := working;
        }
      }
    }

    /** `create_tables`: the statements of the schema, one per table, in load order. */
    method CreateTables()
      requires Valid()
      modifies this
      ensures Valid() && inTransaction == old(inTransaction)
      ensures working == WithAllTables(old(working))
      ensures committed == if inTransaction then old(committed) else working
    {
      ghost var start := working;
      var i := 0;
      while i < |LoadSequence|
        invariant 0 <= i <= |LoadSequence|
        invariant Valid() && inTransaction == old(inTransaction)
        invariant committed == if inTransaction then old(committed) else working
        invariant forall u :: u in working <==> u in start || Position(u) < i
        invariant forall u | u in working :: working[u] == if u in start then start[u] else []
      {
        PositionInLoadSequence(i);
        CreateTable(LoadSequence[i]);
        i := i + 1;
      }
      forall u ensures u in AllTables {
        assert LoadSequence[Position(u)] == u;
      }
      assert working == WithAllTables(start);
    }

    /**
     * `DELETE FROM t`: refused, changing nothing, while a row of a
     * referencing table still holds a foreign key value; otherwise the table
     * is emptied inside the (implicitly opened) transaction.
     */
    method Delete(t: TableName) returns (ok: bool)
      requires Valid() && t in working
      modifies this
      ensures Valid() && inTransaction && committed == old(committed)
      ensures ok == !DeleteBlocked(old(working), t)
      ensures working == if ok then old(working)[t := []] else old(working)
    {
      inTransaction := true;
      ok := !DeleteBlocked(working, t);
      if ok {
        DeleteKeepsConsistent(working, t);
        working := working[t := []];
      }
    }

    /** Inside a batch: the transaction is open and the first `i` rows are accepted and inserted. */
    ghost predicate Inserting(start: Tables, t: TableName, rows: seq<Row>, i: nat)
      reads this
    {
      && i <= |rows|
      && Valid() && inTransaction
      && t in start && Admits(start, t, rows, i)
      && working == Appended(start, t, rows[..i])
    }

    /**
     * One row of an INSERT, inside the (implicitly opened) transaction:
     * added when SQLite accepts it, refused with the violated constraint
     * otherwise.
     */
    method InsertRow(t: TableName, row: Row) returns (violation: Option<Violation>)
      requires Valid() && t in working
      modifies this
      ensures Valid() && inTransaction && committed == old(committed)
      ensures violation == Check(old(working), t, row)
      ensures working == if violation.None? then Appended(old(working), t, [row]) else old(working)
    {
      inTransaction := true;
      violation := Check(working, t, row);
      if violation.None? {
        InsertKeepsConsistent(working, t, row);
        working := Appended(working, t, [row]);
      }
    }

    /**
     * `executemany(INSERT ..., rows)`: the rows are inserted one by one inside
     * the (implicitly opened) transaction; the first refused row stops the
     * batch and reports why, with the rows before it already inserted.
     */
    method ExecuteMany(t: TableName, rows: seq<Row>) returns (rejected: Option<Rejection>)
      requires Valid() && t in working
      modifies this
      ensures Valid() && inTransaction && committed == old(committed)
      ensures rejected.None? ==>
                Admits(old(working), t, rows, |rows|) && working == Appended(old(working), t, rows)
      ensures rejected.Some? ==>
                && RefusedAt(old(working), t, rows, rejected.value)
                && working == Appended(old(working), t, rows[..rejected.value.row])
    {
      inTransaction := true;
      rejected := None;
      ghost var start := working;
      var i := 0;
      assert start[t] + rows[..0] == start[t];
      assert working == Appended(start, t, rows[..0]);
      while i < |rows|
        invariant committed == old(committed)
        invariant Inserting(start, t, rows, i)
      {
        var verdict := InsertRow(t, rows[i]);
        if verdict.Some? {
          return Some(Rejection(i, verdict.value));
        }
        AdmitsStep(start, t, rows, i);
        i := i + 1;
      }
      assert rows[..i] == rows;
    }

    /** `commit()`: the working state becomes the durable one. */
    method Commit()
      requires Valid()
      modifies this
      ensures Valid() && !inTransaction
      ensures committed == old(working) && working == old(working)
    {
      committed := working;
      inTransaction := false;
    }

    /** `rollback()`: the open transaction's changes are discarded. */
    method Rollback()
      requires Valid()
      modifies this
      ensures Valid() && !inTransaction
      ensures committed == old(committed) && working == old(committed)
    {
      working := committed;
      inTransaction := false;
    }
  }
}
