/** The load loop and summary of `main`, over the parsed source files. */
module Run {
  import opened Wrappers
  import opened Schema
  import opened Rows
  import opened Statements
  import opened Store
  import opened Loader

  /** Why a run stopped. */
  datatype Cause =
    // `read_rows` raised: a missing file or a field that does not convert
    | ReadFailed(fault: Fault)
    // `executemany` raised: SQLite refused a row of the batch
    | InsertFailed(rejection: Rejection)

  /**
   * How a run ends: with the summary it prints, one `(table, count)` entry
   * per table in load order, or stopped at the `position`-th table of the
   * load sequence, having printed nothing.
   */
  datatype RunOutcome =
    | Completed(summary: seq<(string, nat)>)
    | Aborted(position: nat, cause: Cause)

  /** The rows read for `t`, or none when reading fails. */
  ghost function RowsOf(files: map<TableName, seq<Record>>, parseFloat: DecimalParser, t: TableName)
    : seq<Row>
  {
    if ReadTable(files, t, parseFloat).Success? then ReadTable(files, t, parseFloat).value else []
  }

  /**
   * The store while the `k`-th table of the load sequence is loaded: each
   * earlier table holds the rows read for it, the others are empty.
   */
  ghost function LoadedBefore(files: map<TableName, seq<Record>>, parseFloat: DecimalParser, k: nat)
    : Tables
    requires k <= |LoadSequence|
  {
    FilledBefore(t => RowsOf(files, parseFloat, t), k)
  }

  /** The tables, empty at first, with `rowsOf` of each of the first `k` of the load sequence set one by one. */
  ghost function FilledBefore(rowsOf: TableName -> seq<Row>, k: nat): (db: Tables)
    requires k <= |LoadSequence|
    ensures db.Keys == AllTables
  {
    if k == 0 then EmptyTables()
    else FilledBefore(rowsOf, k - 1)[LoadSequence[k - 1] := rowsOf(LoadSequence[k - 1])]
  }

  /** Each table before the `k`-th of the load sequence holds `rowsOf` of it, the others are empty. */
  lemma {:induction false} FilledBeforeHolds(rowsOf: TableName -> seq<Row>, k: nat, j: nat)
    requires k <= |LoadSequence| && j < |LoadSequence|
    ensures LoadSequence[j] in FilledBefore(rowsOf, k)
    ensures FilledBefore(rowsOf, k)[LoadSequence[j]] == if j < k then rowsOf(LoadSequence[j]) else []
  {
    if k > 0 {
      FilledBeforeHolds(rowsOf, k - 1, j);
      if j != k - 1 {
        PositionInLoadSequence(j);
        PositionInLoadSequence(k - 1);
        assert LoadSequence[j] != LoadSequence[k - 1];
      }
    }
  }

  /** The `k`-th table reads without error and SQLite accepts all of its rows. */
  ghost predicate TableLoads(files: map<TableName, seq<Record>>, parseFloat: DecimalParser, k: nat)
    requires k < |LoadSequence|
  {
    var t := LoadSequence[k];
    && ReadTable(files, t, parseFloat).Success?
    && Admits(LoadedBefore(files, parseFloat, k), t, RowsOf(files, parseFloat, t),
              |RowsOf(files, parseFloat, t)|)
  }

  /** Each of the first `k` tables of the load sequence loads. */
  ghost predicate LoadsThrough(files: map<TableName, seq<Record>>, parseFloat: DecimalParser, k: nat)
    requires k <= |LoadSequence|
  {
    forall j | 0 <= j < k :: TableLoads(files, parseFloat, j)
  }

  /** The run stops at the `k`-th table for `cause`: the read error, or the first row SQLite refuses. */
  ghost predicate FailsAt(files: map<TableName, seq<Record>>, parseFloat: DecimalParser, k: nat,
                          cause: Cause)
    requires k < |LoadSequence|
  {
    var t := LoadSequence[k];
    var db := LoadedBefore(files, parseFloat, k);
    match ReadTable(files, t, parseFloat)
    case Failure(e) => cause == ReadFailed(e)
    case Success(rows) => cause.InsertFailed? && RefusedAt(db, t, rows, cause.rejection)
  }

  lemma LoadedBeforeStart(files: map<TableName, seq<Record>>, parseFloat: DecimalParser)
    ensures LoadedBefore(files, parseFloat, 0) == EmptyTables()
  {
  }

  /** Loading the `k`-th table's rows into the store before it gives the store before the next table. */
  lemma LoadedBeforeStep(files: map<TableName, seq<Record>>, parseFloat: DecimalParser, k: nat)
    requires k < |LoadSequence|
    ensures LoadSequence[k] in LoadedBefore(files, parseFloat, k)
    ensures Appended(LoadedBefore(files, parseFloat, k), LoadSequence[k],
                     RowsOf(files, parseFloat, LoadSequence[k]))
            == LoadedBefore(files, parseFloat, k + 1)
  {
    FilledBeforeHolds(t => RowsOf(files, parseFloat, t), k, k);
    assert [] + RowsOf(files, parseFloat, LoadSequence[k]) == RowsOf(files, parseFloat, LoadSequence[k]);
  }

  /**
   * `with conn: inserted = insert_rows(conn, t, rows)`: the statement runs
   * only for a non-empty batch; the block commits when it succeeds (also
   * when there was nothing to insert) and rolls back when a row is refused.
   */
  method InsertTable(db: Database, t: TableName, rows: seq<Row>)
    returns (rejected: Option<Rejection>, inserted: nat)
    requires db.Valid() && t in db.working
    modifies db
    ensures db.Valid() && !db.inTransaction
    ensures rejected.None? ==>
              && Admits(old(db.working), t, rows, |rows|)
              && db.committed == Appended(old(db.working), t, rows)
              && inserted == |rows|
    ensures rejected.Some? ==>
              RefusedAt(old(db.working), t, rows, rejected.value) && db.committed == old(db.committed)
  {
    var insert := InsertRows(t, rows);
    rejected := None;
    if insert.query.Some? {
      rejected := db.ExecuteMany(t, rows);
      if rejected.Some? {
        db.Rollback();
        return rejected, 0;
      }
    } else {
      assert rows == [] && db.working[t] + rows == db.working[t];
      assert Appended(db.working, t, rows) == db.working;
    }
    db.Commit();
    inserted := insert.count;
  }

  /**
   * One iteration of the load loop of `main`: read the `k`-th table, then
   * insert its rows in their own transaction; a read error leaves `main`,
   * and its `with sqlite3.connect(...)` rolls back.  The store holds the
   * earlier tables when it starts.
   */
  method LoadTable(db: Database, files: map<TableName, seq<Record>>, parseFloat: DecimalParser,
                   k: nat)
    returns (failure: Option<Cause>, count: nat)
    requires k < |LoadSequence|
    requires db.Valid() && db.working == LoadedBefore(files, parseFloat, k)
    modifies db
    ensures db.Valid() && !db.inTransaction
    ensures failure.None? <==> TableLoads(files, parseFloat, k)
    ensures failure.None? ==>
              && db.committed == db.working == LoadedBefore(files, parseFloat, k + 1)
              && LoadSequence[k] in files && count == |files[LoadSequence[k]]|
    ensures failure.Some? ==>
              FailsAt(files, parseFloat, k, failure.value) && db.committed == old(db.committed)
  {
    var t := LoadSequence[k];
    count := 0;
    LoadedBeforeStep(files, parseFloat, k);
    var read := ReadRows(files, t, parseFloat);
    if read.Failure? {
      db.Rollback();
      return Some(ReadFailed(read.error)), 0;
    }
    ReadTableCount(files, t, parseFloat);
    var rejected, inserted := InsertTable(db, t, read.value);
    if rejected.Some? {
      return Some(InsertFailed(rejected.value)), 0;
    }
    failure, count := None, inserted;
  }

  /** The summary line of table `t`: its name and the number of records in its file. */
  function Entry(files: map<TableName, seq<Record>>, t: TableName): (string, nat)
  {
    (Name(t), if t in files then |files[t]| else 0)
  }

  /**
   * The summary after the first `k` tables of the load sequence: one entry
   * per table, in load order.
   */
  function Summary(files: map<TableName, seq<Record>>, k: nat): (r: seq<(string, nat)>)
    requires k <= |LoadSequence|
    ensures |r| == k
  {
    if k == 0 then [] else Summary(files, k - 1) + [Entry(files, LoadSequence[k - 1])]
  }

  /** The `j`-th entry of the summary is that of the `j`-th table of the load sequence. */
  lemma {:induction false} SummaryEntries(files: map<TableName, seq<Record>>, k: nat)
    requires k <= |LoadSequence|
    ensures forall j | 0 <= j < k :: Summary(files, k)[j] == Entry(files, LoadSequence[j])
  {
    if k > 0 {
      SummaryEntries(files, k - 1);
      assert forall j | 0 <= j < k - 1 :: Summary(files, k)[j] == Summary(files, k - 1)[j];
    }
  }

  /**
   * The summary of a run that got past the first `k` tables names each of
   * them once, in load order, with the number of records in its file.
   */
  lemma SummaryCounts(files: map<TableName, seq<Record>>, parseFloat: DecimalParser, k: nat)
    requires k <= |LoadSequence| && LoadsThrough(files, parseFloat, k)
    ensures |Summary(files, k)| == k
    ensures forall j | 0 <= j < k ::
              && LoadSequence[j] in files
              && Summary(files, k)[j].0 == Name(LoadSequence[j])
              && Summary(files, k)[j].1 == |files[LoadSequence[j]]|
  {
    SummaryEntries(files, k);
    forall j | 0 <= j < k ensures LoadSequence[j] in files {
      assert TableLoads(files, parseFloat, j);
    }
  }

  /**
   * After a completed run every table holds exactly the rows read from its
   * file, one per record, whatever the store held before.
   */
  lemma CompletedRunHoldsEveryRecord(files: map<TableName, seq<Record>>, parseFloat: DecimalParser,
                                     t: TableName)
    requires LoadsThrough(files, parseFloat, |LoadSequence|)
    ensures t in files && t in LoadedBefore(files, parseFloat, |LoadSequence|)
    ensures LoadedBefore(files, parseFloat, |LoadSequence|)[t] == RowsOf(files, parseFloat, t)
    ensures |RowsOf(files, parseFloat, t)| == |files[t]|
  {
    assert TableLoads(files, parseFloat, Position(t));
    FilledBeforeHolds(t => RowsOf(files, parseFloat, t), |LoadSequence|, Position(t));
    ReadTableCount(files, t, parseFloat);
  }

  lemma LoadsThroughStep(files: map<TableName, seq<Record>>, parseFloat: DecimalParser, k: nat)
    requires k < |LoadSequence|
    requires LoadsThrough(files, parseFloat, k) && TableLoads(files, parseFloat, k)
    ensures LoadsThrough(files, parseFloat, k + 1)
  {
  }

  /** A table that fails, by a read error or a refused row, does not load, so the run does not complete. */
  lemma FailureStopsRun(files: map<TableName, seq<Record>>, parseFloat: DecimalParser, k: nat, cause: Cause)
    requires k < |LoadSequence| && FailsAt(files, parseFloat, k, cause)
    ensures !TableLoads(files, parseFloat, k)
    ensures !LoadsThrough(files, parseFloat, |LoadSequence|)
  {
    var t := LoadSequence[k];
    if ReadTable(files, t, parseFloat).Success? {
      var rows := RowsOf(files, parseFloat, t);
      var i := cause.rejection.row;
      assert !Check(Appended(LoadedBefore(files, parseFloat, k), t, rows[..i]), t, rows[i]).None?;
    }
    LoadsThroughStops(files, parseFloat, k);
  }

  lemma LoadsThroughStops(files: map<TableName, seq<Record>>, parseFloat: DecimalParser, k: nat)
    requires k < |LoadSequence| && !TableLoads(files, parseFloat, k)
    ensures !LoadsThrough(files, parseFloat, |LoadSequence|)
  {
  }

  /**
   * The state of the load loop before its `k`-th table: the earlier tables
   * loaded and are committed, unless none has been, in which case the
   * store still commits `start`; the summary lists the earlier tables.
   */
  ghost predicate Progress(db: Database, files: map<TableName, seq<Record>>, parseFloat: DecimalParser,
                           start: Tables, k: nat, summary: seq<(string, nat)>)
    reads db
  {
    && k <= |LoadSequence|
    && db.Valid()
    && LoadsThrough(files, parseFloat, k)
    && db.working == LoadedBefore(files, parseFloat, k)
    && (k == 0 ==> db.committed == start)
    && (k > 0 ==> !db.inTransaction && db.committed == db.working)
    && summary == Summary(files, k)
  }

  /**
   * The run stopped at the `k`-th table for `cause`, with the earlier tables
   * loaded: the store commits them, or still `start` when `k` is 0.
   */
  ghost predicate Stopped(db: Database, files: map<TableName, seq<Record>>, parseFloat: DecimalParser,
                          start: Tables, k: nat, cause: Cause)
    reads db
  {
    && k < |LoadSequence|
    && db.Valid() && !db.inTransaction
    && LoadsThrough(files, parseFloat, k)
    && FailsAt(files, parseFloat, k, cause)
    && db.committed == if k == 0 then start else LoadedBefore(files, parseFloat, k)
  }

  /** The load loop ended: every table loaded, or the run stopped where the outcome says. */
  ghost predicate Ended(db: Database, files: map<TableName, seq<Record>>, parseFloat: DecimalParser,
                        start: Tables, outcome: RunOutcome)
    reads db
  {
    match outcome
    case Completed(summary) => Progress(db, files, parseFloat, start, |LoadSequence|, summary)
    case Aborted(position, cause) => Stopped(db, files, parseFloat, start, position, cause)
  }

  /** A table that loads extends the loop state by one table and one summary entry. */
  lemma Advances(db: Database, files: map<TableName, seq<Record>>, parseFloat: DecimalParser,
                 start: Tables, k: nat, summary: seq<(string, nat)>, count: nat)
    requires k < |LoadSequence| && LoadsThrough(files, parseFloat, k) && TableLoads(files, parseFloat, k)
    requires summary == Summary(files, k)
    requires db.Valid() && !db.inTransaction
    requires db.committed == db.working == LoadedBefore(files, parseFloat, k + 1)
    requires LoadSequence[k] in files && count == |files[LoadSequence[k]]|
    ensures Progress(db, files, parseFloat, start, k + 1, summary + [(Name(LoadSequence[k]), count)])
  {
    LoadsThroughStep(files, parseFloat, k);
  }

  /** A table that fails ends the run there. */
  lemma StopsAt(db: Database, files: map<TableName, seq<Record>>, parseFloat: DecimalParser,
                start: Tables, k: nat, cause: Cause)
    requires k < |LoadSequence| && LoadsThrough(files, parseFloat, k)
    requires FailsAt(files, parseFloat, k, cause)
    requires db.Valid() && !db.inTransaction
    requires db.committed == if k == 0 then start else LoadedBefore(files, parseFloat, k)
    ensures Stopped(db, files, parseFloat, start, k, cause)
  {
  }

  /**
   * The load loop of `main`, started on the cleared store inside the
   * transaction the clear opened: each table in load order is read and
   * inserted, and the first failure ends the run.
   */
  method LoadAll(db: Database, files: map<TableName, seq<Record>>, parseFloat: DecimalParser)
    returns (outcome: RunOutcome)
    requires db.Valid() && db.working == EmptyTables()
    modifies db
    ensures Ended(db, files, parseFloat, old(db.committed), outcome)
  {
    LoadedBeforeStart(files, parseFloat);
    var summary: seq<(string, nat)> := [];
    var k := 0;
    while k < |LoadSequence|
      invariant k <= |LoadSequence|
      invariant Progress(db, files, parseFloat, old(db.committed), k, summary)
    {
      var failure;
      failure, summary := LoadNext(db, files, parseFloat, old(db.committed), k, summary);
      if failure.Some? {
        return Aborted(k, failure.value);
      }
      k := k + 1;
    }
    outcome := Completed(summary);
  }

  /**
   * One pass of the load loop: the `k`-th table is read and inserted and its
   * entry added to the summary, or the run stops there.
   */
  method LoadNext(db: Database, files: map<TableName, seq<Record>>, parseFloat: DecimalParser,
                  ghost start: Tables, k: nat, summary: seq<(string, nat)>)
    returns (failure: Option<Cause>, next: seq<(string, nat)>)
    requires k < |LoadSequence| && Progress(db, files, parseFloat, start, k, summary)
    modifies db
    ensures failure.None? ==> Progress(db, files, parseFloat, start, k + 1, next)
    ensures failure.Some? ==> Stopped(db, files, parseFloat, start, k, failure.value)
  {
    var count;
    failure, count := LoadTable(db, files, parseFloat, k);
    if failure.Some? {
      StopsAt(db, files, parseFloat, start, k, failure.value);
      return failure, summary;
    }
    Advances(db, files, parseFloat, start, k, summary, count);
    next := summary + [(Name(LoadSequence[k]), count)];
  }

  /**
   * `main`: create the tables, clear them in reverse order, then for each
   * table in load order read its rows and insert them in one transaction,
   * recording the count; print the summary once every table is done.
   *
   * The DELETEs of the clear open the transaction that the first table's
   * `with conn:` block commits, so a run that stops at the first table rolls
   * the clear back and leaves the earlier contents; a run that stops at a
   * later table keeps the tables before it, with the rows read for them, and
   * leaves that table and the ones after it empty.  A completed run leaves
   * exactly the rows read, whatever the store held before.
   */
  method Ingest(db: Database, files: map<TableName, seq<Record>>, parseFloat: DecimalParser)
    returns (outcome: RunOutcome)
    requires db.Valid() && !db.inTransaction
    modifies db
    ensures db.Valid() && !db.inTransaction
    ensures outcome.Completed? <==> LoadsThrough(files, parseFloat, |LoadSequence|)
    ensures outcome.Completed? ==>
              && db.committed == LoadedBefore(files, parseFloat, |LoadSequence|)
              && outcome.summary == Summary(files, |LoadSequence|)
              && |outcome.summary| == |LoadSequence|
              && forall j | 0 <= j < |LoadSequence| ::
                   LoadSequence[j] in files &&
                   outcome.summary[j] == (Name(LoadSequence[j]), |files[LoadSequence[j]]|)
    ensures outcome.Aborted? ==>
              && outcome.position < |LoadSequence|
              && LoadsThrough(files, parseFloat, outcome.position)
              && FailsAt(files, parseFloat, outcome.position, outcome.cause)
              && db.committed == if outcome.position == 0 then WithAllTables(old(db.committed))
                                 else LoadedBefore(files, parseFloat, outcome.position)
  {
    db.CreateTables();
    forall u ensures u in db.working {
      assert LoadSequence[Position(u)] == u;
    }
    ClearTables(db);
    outcome := LoadAll(db, files, parseFloat);
    if outcome.Completed? {
      SummaryCounts(files, parseFloat, |LoadSequence|);
    } else {
      FailureStopsRun(files, parseFloat, outcome.position, outcome.cause);
    }
  }
}
