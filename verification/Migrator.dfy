/** Applying migrations at boot: read what is applied, take the write lock, re-read, apply what is missing in one transaction. */
module Migrator {
  import opened Wrappers
  import opened TransactionControl
  import SqlSplitter

  type Name = nat
  type Statement = string

  /** A listed migration: its statements as the plain split finds them, and whether the guard lets it pass. */
  datatype Migration = Migration(name: Name, checksum: nat, statements: seq<Statement>, isSafe: bool)

  function Listed(name: Name, checksum: nat, sql: string): Migration {
    Migration(name, checksum, SqlSplitter.SplitSqlStatements(sql), SqlSplitter.Guard(sql) == None)
  }

  datatype Row = Row(name: Name, checksum: nat)

  /** The migrations table, and the statements that have taken effect, in order. */
  datatype Db = Db(rows: seq<Row>, effects: seq<Statement>)

  datatype Failure = UnsafeMigration | Drift | LockBusy | ApplyFailed

  function RowOf(m: Migration): Row {
    Row(m.name, m.checksum)
  }

  /** One connection: the committed database, what the connection sees, and whether it has a transaction open. */
  datatype Connection = Connection(db: Db, view: Db, isOpen: bool)

  function Begun(db: Db): Connection {
    Connection(db, db, true)
  }

  /** A write inside the transaction is seen by this connection only; without one it is committed at once. */
  function Written(c: Connection, view: Db): Connection {
    if c.isOpen then c.(view := view) else Connection(view, view, false)
  }

  /** A statement that the database accepts. Ending a transaction is refused when none is open. */
  function Executed(c: Connection, statement: Statement): Option<Connection> {
    match ControlOf(statement)
    case Plain => Some(Written(c, c.view.(effects := c.view.effects + [statement])))
    case Commits => if c.isOpen then Some(Connection(c.view, c.view, false)) else None
    case RollsBack => if c.isOpen then Some(Connection(c.db, c.db, false)) else None
  }

  function Recorded(c: Connection, m: Migration): Connection {
    Written(c, c.view.(rows := c.view.rows + [RowOf(m)]))
  }

  /**
   * A plain statement and a table row wait for the commit inside the transaction, and are committed at once outside it. A
   * commit saves what is waiting, a rollback drops it; both are refused outside.
   */
  lemma StatementsMean(c: Connection, statement: Statement, m: Migration)
    ensures ControlOf(statement) == Plain ==>
              var after := Db(c.view.rows, c.view.effects + [statement]);
              Executed(c, statement) == Some(if c.isOpen then Connection(c.db, after, true) else Connection(after, after, false))
    ensures ControlOf(statement) != Plain ==>
              var kept := if ControlOf(statement) == Commits then c.view else c.db;
              Executed(c, statement) == if c.isOpen then Some(Connection(kept, kept, false)) else None
    ensures var after := Db(c.view.rows + [Row(m.name, m.checksum)], c.view.effects);
            Recorded(c, m) == if c.isOpen then Connection(c.db, after, true) else Connection(after, after, false)
  {
  }

  predicate EndsTransaction(ms: seq<Migration>, i: nat, k: nat) {
    i < |ms| && k < |ms[i].statements| && ControlOf(ms[i].statements[k]) != Plain
  }

  /** No statement of the migrations commits or rolls back. */
  ghost predicate NoControl(ms: seq<Migration>) {
    forall i, k :: !EndsTransaction(ms, i, k)
  }

  predicate AllSafe(files: seq<Migration>) {
    forall k :: 0 <= k < |files| ==> files[k].isSafe
  }

  /** The directory lists its migrations in name order, each once. */
  predicate InNameOrder(files: seq<Migration>) {
    forall i, j :: 0 <= i < j < |files| ==> files[i].name < files[j].name
  }

  function AppliedNames(rows: seq<Row>): set<Name> {
    set row | row in rows :: row.name
  }

  /** An applied migration whose file has changed since. */
  predicate HasDrift(files: seq<Migration>, rows: seq<Row>) {
    exists i, k :: 0 <= i < |files| && 0 <= k < |rows| && files[i].name == rows[k].name && files[i].checksum != rows[k].checksum
  }

  /** The migrations whose names are not among those given. */
  function Missing(files: seq<Migration>, names: set<Name>): seq<Migration> {
    if files == [] then []
    else (if files[0].name in names then [] else [files[0]]) + Missing(files[1..], names)
  }

  function RowsFor(ms: seq<Migration>): (rows: seq<Row>)
    ensures |rows| == |ms| && forall k :: 0 <= k < |ms| ==> rows[k] == RowOf(ms[k])
  {
    seq(|ms|, k requires 0 <= k < |ms| => RowOf(ms[k]))
  }

  function NamesOf(ms: seq<Migration>): (names: seq<Name>)
    ensures |names| == |ms| && forall k :: 0 <= k < |ms| ==> names[k] == ms[k].name
  {
    seq(|ms|, k requires 0 <= k < |ms| => ms[k].name)
  }

  /** All statements of the migrations, in order. */
  function EffectsOf(ms: seq<Migration>): seq<Statement> {
    if ms == [] then [] else EffectsOf(ms[..|ms| - 1]) + ms[|ms| - 1].statements
  }

  /** The database once the missing migrations are applied. */
  function Migrated(files: seq<Migration>, db: Db): Db {
    var missing := Missing(files, AppliedNames(db.rows));
    Db(db.rows + RowsFor(missing), db.effects + EffectsOf(missing))
  }

  lemma {:induction false} MissingElements(files: seq<Migration>, names: set<Name>)
    ensures forall m :: m in Missing(files, names) <==> m in files && m.name !in names
  {
    if files != [] {
      MissingElements(files[1..], names);
    }
  }

  /** What is missing is applied in name order. */
  lemma {:induction false} MissingInNameOrder(files: seq<Migration>, names: set<Name>)
    requires InNameOrder(files)
    ensures InNameOrder(Missing(files, names))
  {
    if files != [] {
      var rest := Missing(files[1..], names);
      MissingInNameOrder(files[1..], names);
      MissingElements(files[1..], names);
      forall k | 0 <= k < |rest| ensures files[0].name < rest[k].name {
        assert rest[k] in files[1..];
      }
    }
  }

  lemma {:induction false} NothingMissing(files: seq<Migration>, names: set<Name>)
    requires forall m :: m in files ==> m.name in names
    ensures Missing(files, names) == []
  {
    if files != [] {
      NothingMissing(files[1..], names);
    }
  }

  lemma NamesAfter(files: seq<Migration>, db: Db)
    ensures forall m :: m in files ==> m.name in AppliedNames(Migrated(files, db).rows)
    ensures AppliedNames(db.rows) <= AppliedNames(Migrated(files, db).rows)
  {
    var missing := Missing(files, AppliedNames(db.rows));
    MissingElements(files, AppliedNames(db.rows));
    var rows := Migrated(files, db).rows;
    forall m | m in files ensures m.name in AppliedNames(rows) {
      if m.name !in AppliedNames(db.rows) {
        assert m in missing;
        var k :| 0 <= k < |missing| && missing[k] == m;
        assert RowsFor(missing)[k] == RowOf(m) && RowOf(m) in rows;
      }
    }
    forall row | row in db.rows ensures row in rows {
    }
  }

  /** Migrating a migrated database changes nothing. */
  lemma MigratedIsStable(files: seq<Migration>, db: Db)
    ensures Missing(files, AppliedNames(Migrated(files, db).rows)) == []
    ensures Migrated(files, Migrated(files, db)) == Migrated(files, db)
  {
    NamesAfter(files, db);
    NothingMissing(files, AppliedNames(Migrated(files, db).rows));
  }

  /** The names in the table stay distinct, and the new ones are exactly the missing ones. */
  lemma MigratedRowsDistinct(files: seq<Migration>, db: Db)
    requires InNameOrder(files)
    requires forall i, j :: 0 <= i < j < |db.rows| ==> db.rows[i].name != db.rows[j].name
    ensures var rows := Migrated(files, db).rows; forall i, j :: 0 <= i < j < |rows| ==> rows[i].name != rows[j].name
  {
    var missing := Missing(files, AppliedNames(db.rows));
    MissingInNameOrder(files, AppliedNames(db.rows));
    MissingElements(files, AppliedNames(db.rows));
    var rows, n := Migrated(files, db).rows, |db.rows|;
    forall i, j | 0 <= i < j < |rows| ensures rows[i].name != rows[j].name {
      if i < n <= j {
        assert missing[j - n] in missing;
        assert db.rows[i] in db.rows;
      }
    }
  }
}
