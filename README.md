# A verified model of the e-commerce CSV-to-SQLite loader

`ingest_to_sqlite.py` loads five related tables (customers, products,
orders, order items and reviews) from one CSV file each into a SQLite
database. It creates the schema, clears every table in reverse dependency
order, and then reads, coerces and inserts each table in dependency order,
with one transaction per table. At the end it prints one line per table
giving the number of rows inserted.

This project models that program in Dafny and proves what it does.

- **`Schema`** (`schema.dfy`) holds the registry as data:
  - the five tables and their SQL names;
  - `TABLE_CONFIGS`: file, declared columns, float fields and int fields;
  - the constraints the `CREATE TABLE` statements declare: NOT NULL columns,
    primary keys and foreign keys;
  - `LOAD_SEQUENCE`.

  It proves that the load sequence is a topological order of the foreign keys.
- **`Strings`** and **`Integers`** stand for the Python string and integer
  operations the coercion uses:
  - `str.strip()`, with Python's `isspace` character set;
  - `", ".join`;
  - `int()` on ASCII text, with Python's default limit of 4300 digits,
    proved to invert decimal formatting within that limit.
- **`Sequences`** (`sequences.dfy`) gives `MapAll`, a fold that stops at the
  first failure, and its specification. Both loop-built lists are traversals
  of this kind.
- **`Rows`** covers `convert_row` and `read_rows`.
  - They are loops, proved against the functions `ConvertRecord` and `ReadTable`.
  - A record is the map `csv.DictReader` yields. A short line maps the missing
    header names to `None`.
  - `float()` is an abstract partial function passed in as a parameter.
- **`Statements`** covers `insert_rows`: the INSERT text it builds and the
  count it returns.
- **`Store`** models the database as Python's `sqlite3` presents it.
  - It keeps a committed state and a working state. DML implicitly opens a
    transaction; `commit` and `rollback` end it.
  - Foreign keys are enforced. For every inserted row `sqlite3` checks that
    each integer fits SQLite's 64-bit INTEGER, and SQLite checks NOT NULL,
    the primary key and the foreign keys.
  - Every operation keeps the constraint invariant `Consistent`, which is how
    referential integrity holds after every step.
- **`Loader`** (`loader.dfy`) and **`Run`** (`run.dfy`) cover `clear_tables`
  and the body of `main`.
  - `clear_tables` is proved never to be refused and to empty every table.
  - The load loop is proved to end in one of two ways:
    - It completes, committing exactly the rows read for every table, with a
      summary entry `(table, record count)` for each table in load order.
    - It stops at the first table that fails. When that is not the first
      table, the tables before it stay committed and that table and the later
      ones are empty. When it is the first table, the clear is rolled back too
      (see below).

Three consequences of the code are easy to miss, and the model keeps them:

- **The clear is committed with the first table.** The `DELETE`s of
  `clear_tables` open the implicit transaction that the first table's
  `with conn:` block commits. A run that fails while reading or inserting
  customers therefore rolls the clear back, and the database keeps its
  previous contents (`Run.Ingest`, the case `position == 0`). A failure at
  any later table finds the clear already committed.
- **A failed run prints nothing.** The summary is printed only after the whole
  loop, so when the run stops no line is printed for the tables before the
  failure either.
- **Short lines raise; absent columns become NULL.** A column missing from the
  CSV header becomes NULL. A line with fewer fields than the header gives
  `None` for the missing fields, and `None.strip()` raises, which aborts the
  run (`Rows.Fault.MissingField`).

## Model

| member | source | states |
|---|---|---|
| Schema.Position | ingest_to_sqlite.py:74 | every table has a position in the load sequence, and that entry is the table itself |
| Schema.PositionInLoadSequence | ingest_to_sqlite.py:74 | the table at the k-th entry of the load sequence has position k |
| Schema.LoadSequenceListsEachTableOnce | ingest_to_sqlite.py:74 | each of the five tables occurs in the load sequence, and no two entries are equal |
| Schema.LoadSequenceIsTopological | ingest_to_sqlite.py:10-74 | whenever a table declares a foreign key into another, the referenced table comes strictly earlier in the load sequence |
| Schema.NoSelfReference | ingest_to_sqlite.py:10-72 | no table declares a foreign key into itself |
| Schema.Config | ingest_to_sqlite.py:76-146 | `TABLE_CONFIGS` as data: each table's file, declared columns, float fields and int fields. Its properties are stated by Schema.CoercedFieldsAreColumns and Statements.ColumnNamesArePlain |
| Schema.CoercedFieldsAreColumns | ingest_to_sqlite.py:76-146 | every float field and int field is a declared column of its table, and no column is both |
| Schema.TableConstraints | ingest_to_sqlite.py:10-72 | the NOT NULL, PRIMARY KEY and FOREIGN KEY clauses of each `CREATE TABLE`, by column position. Its properties are stated by Schema.ConstraintsNameColumns and Schema.LoadSequenceIsTopological |
| Schema.ConstraintsNameColumns | ingest_to_sqlite.py:10-146 | every constrained column position is a declared column; each foreign key column has the same name as the parent column it references, which is the parent's whole primary key |
| Sequences.MapAllSpec | ingest_to_sqlite.py:163-168 | a stop-at-first-error traversal succeeds iff every step succeeds, and then gives one result per element in element order; otherwise it fails with the error of the first failing element |
| Strings.Strip | ingest_to_sqlite.py:176 | the result is a contiguous slice of the input, with only whitespace before and after it, and it neither starts nor ends with whitespace |
| Strings.StripEmptyIff | ingest_to_sqlite.py:176-177 | stripping gives the empty string exactly when the input is all whitespace |
| Strings.StripIdempotent | ingest_to_sqlite.py:176 | stripping a stripped value changes nothing |
| Strings.CountJoin | ingest_to_sqlite.py:192 | joining entries that each contain one marker, with a separator free of markers, gives one marker per entry |
| Strings.SplitJoin | ingest_to_sqlite.py:193 | splitting a `", "`-join of comma-free names at `", "` gives back the names, in order |
| Integers.ParseInt | ingest_to_sqlite.py:183 | `int()` of stripped text: an optional sign, then digits with single underscores between them, at most 4300 digits; any other text is the `ValueError`. Its properties are the rows below |
| Integers.ParseFormat | ingest_to_sqlite.py:183 | `int()` of the decimal form of any integer with at most 4300 digits gives that integer back |
| Integers.FormatNatLength | ingest_to_sqlite.py:183 | a number's decimal form has at most d digits exactly when the number is below 10^d, so the limit admits exactly the magnitudes below 10^4300 |
| Integers.ParseIntRejectsLong | ingest_to_sqlite.py:183 | `int()` fails on any text with more than 4300 digits, signed or not |
| Integers.ParseIntNeedsDigit | ingest_to_sqlite.py:183 | `int()` fails on a string that contains no decimal digit |
| Rows.Coerce | ingest_to_sqlite.py:176-185 | the per-field rule of `convert_row`. What it yields and when it fails are stated by Rows.CoerceSucceedsIff and Rows.CoerceValue |
| Rows.CoerceSucceedsIff | ingest_to_sqlite.py:176-185 | one field converts iff it is absent from the record, or present and blank after stripping, or non-blank and accepted by the parser its kind selects (decimal before integer) |
| Rows.CoerceValue | ingest_to_sqlite.py:176-185 | a converted field is NULL iff it is blank or absent. Otherwise it holds the decimal parse for a float column (even one also listed as int), the integer parse for an int-only column, or the stripped text unchanged |
| Rows.ConvertRecord | ingest_to_sqlite.py:171-186 | `convert_row` as the per-field rule over the declared columns, stopping at the first failing field. Its meaning is stated by Rows.ConvertSucceedsIff and Rows.ConvertedValues, and Rows.ConvertRow is proved equal to it |
| Rows.ConvertSucceedsIff | ingest_to_sqlite.py:175-186 | a record converts iff every declared column converts, so a short line or a malformed number fails the whole record instead of defaulting |
| Rows.ConvertedValues | ingest_to_sqlite.py:171-186 | a converted record has exactly one value per declared column, in declared column order, and each value is that column's converted field |
| Rows.ConvertRow | ingest_to_sqlite.py:171-186 | the append loop returns exactly the stop-at-first-error conversion of the declared columns, including the error of the first failing field |
| Rows.ReadTable | ingest_to_sqlite.py:160-168 | `read_rows` as record conversion over the table's file, stopping at the first failing record; a missing file fails. Its meaning is stated by Rows.ReadTableSpec, and Rows.ReadRows is proved equal to it |
| Rows.ReadTableSpec | ingest_to_sqlite.py:160-168 | reading succeeds iff the file exists and every record converts; it then gives one row per record in record order; otherwise it fails with the first failing record's error, or with the missing file |
| Rows.ReadTableCount | ingest_to_sqlite.py:163-168 | a table that reads successfully has exactly as many rows as its file has records |
| Rows.ReadRows | ingest_to_sqlite.py:160-168 | the record loop returns exactly what `ReadTable` specifies |
| Statements.ColumnNamesArePlain | ingest_to_sqlite.py:76-146 | every declared column name consists of lower-case letters and underscores only |
| Statements.PlaceholderListMarkers | ingest_to_sqlite.py:192 | the placeholder list holds one `?` per column, and splitting it gives one `"?"` per column |
| Statements.StatementMarkers | ingest_to_sqlite.py:194 | the fixed text of the INSERT adds no `?` beyond those of the placeholder list |
| Statements.StatementMatchesColumns | ingest_to_sqlite.py:192-194 | for plain names, the built statement lists the columns in the given order and has exactly one `?` per column |
| Statements.Statement | ingest_to_sqlite.py:192-194 | the f-string of `insert_rows` for a table name and column list. Its properties are stated by Statements.StatementMatchesColumns |
| Statements.InsertQuery | ingest_to_sqlite.py:192-194 | the statement for a table from its declared columns. Its properties are stated by Statements.InsertQueryMatchesColumns |
| Statements.InsertQueryMatchesColumns | ingest_to_sqlite.py:192-194 | each table's INSERT names its declared columns in order and has one `?` per declared column |
| Statements.InsertRows | ingest_to_sqlite.py:189-196 | an empty batch issues no statement and reports 0; a non-empty batch issues one statement with a `?` per declared column and reports the number of rows |
| Store.Check | ingest_to_sqlite.py:195 | SQLite's verdict on one row, in the order the checks happen: the binding count, then an integer outside the signed 64-bit range (`OverflowError` while binding), then NOT NULL, the primary key and the foreign keys. The insert methods below are stated in terms of it |
| Store.Consistent | ingest_to_sqlite.py:10-72 | the state the declared constraints keep: every row fits its table, holds only storable integers, has no forbidden NULL and no dangling foreign key, and no two rows share a primary key. Every operation is proved to preserve it |
| Store.AdmitsStep | ingest_to_sqlite.py:195 | accepting the next row of a batch extends the accepted prefix by that row |
| Store.InsertKeepsReferences | ingest_to_sqlite.py:195 | after an accepted insert no stored row has a dangling foreign key: earlier rows keep their parents |
| Store.InsertKeepsConsistent | ingest_to_sqlite.py:195 | inserting a row SQLite accepts keeps every constraint of the store |
| Store.DeleteKeepsConsistent | ingest_to_sqlite.py:157 | emptying a table that no row references keeps every constraint |
| Store.AddEmptyTableKeepsConsistent | ingest_to_sqlite.py:151 | creating a missing table, empty, keeps every constraint |
| Store.Database.Open | ingest_to_sqlite.py:201 | a new connection sees the database's contents, with no transaction open |
| Store.Database.CreateTable | ingest_to_sqlite.py:12 | `CREATE TABLE IF NOT EXISTS` adds the table, empty, only when it is missing, and otherwise changes nothing; outside a transaction its effect is durable at once |
| Store.Database.CreateTables | ingest_to_sqlite.py:149-151 | afterwards every table exists; existing tables keep their rows; the transaction state is unchanged |
| Store.Database.Delete | ingest_to_sqlite.py:157 | `DELETE FROM t` is refused exactly when a referencing row holds a foreign key value, and otherwise empties the table inside the open transaction |
| Store.Database.InsertRow | ingest_to_sqlite.py:195 | one row is added exactly when SQLite's check accepts it; otherwise nothing changes and the violation is reported |
| Store.Database.ExecuteMany | ingest_to_sqlite.py:195 | either all rows are accepted and appended in order, or the first refused row is reported with its violation, and only the rows before it are in the working state |
| Store.Database.Commit | ingest_to_sqlite.py:208-209 | the working state becomes the committed one |
| Store.Database.Rollback | ingest_to_sqlite.py:208-209 | the working state returns to the last committed one |
| Loader.ReverseOrderUnblocked | ingest_to_sqlite.py:155-157 | once every table after the i-th is empty, deleting the i-th is not refused |
| Loader.ClearTables | ingest_to_sqlite.py:154-157 | deleting in reverse load order is never refused and leaves every table empty, inside a transaction that is not yet committed |
| Run.LoadedBeforeStart | ingest_to_sqlite.py:206 | before the first table, the expected store is the empty one |
| Run.FilledBeforeHolds | ingest_to_sqlite.py:206-209 | in the store expected before the k-th table, each earlier table holds exactly the rows read for it, and that table and every later one are empty |
| Run.LoadedBeforeStep | ingest_to_sqlite.py:206-209 | appending the k-th table's rows to the store expected before it gives the store expected before the next table |
| Run.LoadsThroughStep | ingest_to_sqlite.py:206-209 | the first k tables loading, and then the k-th loading, means the first k + 1 tables loaded |
| Run.LoadsThroughStops | ingest_to_sqlite.py:206-209 | a table that fails to load means the run does not complete |
| Run.FailureStopsRun | ingest_to_sqlite.py:206-209 | a table that fails, by a read error or by a refused row, does not load, so the run does not complete |
| Run.InsertTable | ingest_to_sqlite.py:208-209 | the table's `with conn:` block commits all of the rows read for it (or nothing, for no rows), or, when SQLite refuses a row, rolls back to the state before the block and reports the first refused row |
| Run.LoadTable | ingest_to_sqlite.py:206-210 | one iteration succeeds iff the table reads without error and every row is accepted. On success it commits the expected store through that table and counts its records; on failure it reports why and keeps the committed state |
| Run.Advances | ingest_to_sqlite.py:206-210 | a table that loads extends the loop state by that table and its summary entry |
| Run.StopsAt | ingest_to_sqlite.py:206-209 | a table that fails stops the run there, in the failure state |
| Run.Summary | ingest_to_sqlite.py:205-212 | the summary after k tables has exactly one entry per table loaded, k in all. What the entries are is stated by Run.SummaryEntries |
| Run.SummaryEntries | ingest_to_sqlite.py:205-212 | the j-th summary entry is the name of the j-th table of the load sequence with the number of records in its file |
| Run.SummaryCounts | ingest_to_sqlite.py:205-212 | the summary of a run past k tables has one entry per table, in load order, giving its name and its file's record count |
| Run.CompletedRunHoldsEveryRecord | ingest_to_sqlite.py:199-210 | after a completed run each table holds exactly the rows read from its file, one per record |
| Run.LoadAll | ingest_to_sqlite.py:205-210 | the loop either completes, committing every table's rows with the full summary, or stops at the first failing table, committing the tables before it |
| Run.LoadNext | ingest_to_sqlite.py:206-210 | one pass of the loop: the k-th table loads, the store commits every table through it and its summary entry is appended; or the run stops at that table, in the failure state |
| Run.Ingest | ingest_to_sqlite.py:199-212 | a run completes iff every table reads and loads. It then commits exactly the rows read, whatever the database held, so a second run on the same files yields the same state, and it reports `(table, record count)` per table in load order. Otherwise it stops at the first failing table and gives the cause. The earlier tables stay committed with their rows, the later ones empty; a stop at the first table rolls the clear back |

## Left out

- Files and paths (`BASE_DIR`, `DB_PATH.touch`, `path.open`) are I/O. The
  parsed files are a parameter: a map from table to the records of its file.
  A missing file is a table absent from that map.
- `csv.DictReader`'s grammar is not modelled. Its output, a list of maps
  from header name to text (or `None` for a short line), is the input.
- `float()` and REAL storage are floating point. The decimal parse is an
  abstract partial function passed in as a parameter, and decimals are
  `real`.
- Integers.ParseInt models `int()` only on ASCII text: an optional sign,
  then digits with single underscores between them. Unicode digits are left
  out. The digit limit is Python's default of 4300, as in Python 3.11 and
  later and in the security releases of earlier versions. Older versions have
  no limit, and a limit changed with `sys.set_int_max_str_digits` is left
  out.
- The text of the `CREATE TABLE` statements is not modelled. Their constraints
  are data in `Schema.TableConstraints`; column types and affinity are left
  out.
- Store.Database.CreateTables follows load order. `SCHEMAS` is a dict
  written in the same order, so `SCHEMAS.values()` visits the tables in
  that order.
- `PRAGMA foreign_keys = ON` is assumed throughout: the store always
  enforces foreign keys.
- The checks on an inserted row are modelled only as the binding count, the
  64-bit range of bound integers, NOT NULL, primary-key uniqueness (NULLs
  distinct) and foreign keys. Type affinity is left out.
- Store.Database.Open requires a database that already satisfies the
  declared constraints. A file that violates them is left out.
- The console output is the summary, a sequence of `(table name, count)`
  pairs in print order. The `print` format is left out.
- Closing the connection is left out. On an exception, leaving
  `with sqlite3.connect(...)` rolls back the open transaction, and the model
  performs that rollback where the run stops.
- Everything outside the load run is left out: errors opening the database,
  other processes using it, and the diagnostic trace of an aborted run.
