/** The migrator of one instance: its reads, its wait for the write lock and its transaction. */
module DbMigrator {
  import opened Wrappers
  import opened Migrator
  import opened MigratorProtocol
  import opened TransactionControl

  const ATTEMPTS: nat := 100

  datatype LockAnswer = Granted | Busy | Refused

  /** The lock is granted at this try, after nothing but busy answers. */
  predicate GrantedAt(answers: seq<LockAnswer>, i: nat) {
    i < |answers| && answers[i] == Granted && forall j :: 0 <= j < i ==> answers[j] == Busy
  }

  /** Try for the write lock, waiting out a concurrent migrator; any other refusal is final. */
  method AcquireWriteLock(answers: seq<LockAnswer>) returns (acquired: bool, waits: nat)
    requires |answers| == ATTEMPTS
    ensures acquired <==> exists i :: GrantedAt(answers, i)
    ensures acquired ==> GrantedAt(answers, waits)
    ensures waits < ATTEMPTS
  {
    waits := 0;
    var i := 0;
    while i < ATTEMPTS
      invariant 0 <= i < ATTEMPTS && waits == i
      invariant forall j :: 0 <= j < i ==> answers[j] == Busy
    {
      if answers[i] == Granted {
        assert GrantedAt(answers, i);
        return true, waits;
      }
      if answers[i] != Busy || i == ATTEMPTS - 1 {
        return false, waits;
      }
      waits := waits + 1;
      i := i + 1;
    }
  }

  predicate Refuses(broken: set<Statement>, ms: seq<Migration>) {
    exists i, k :: 0 <= i < |ms| && 0 <= k < |ms[i].statements| && ms[i].statements[k] in broken
  }

  lemma {:induction false} MissingStep(files: seq<Migration>, names: set<Name>, i: nat)
    requires i < |files|
    ensures Missing(files[..i + 1], names) ==
            Missing(files[..i], names) + (if files[i].name in names then [] else [files[i]])
  {
    if i == 0 {
      assert files[..1][1..] == [];
    } else {
      assert files[1..][..i] == files[..i + 1][1..] && files[1..][..i - 1] == files[..i][1..];
      MissingStep(files[1..], names, i - 1);
    }
  }

  class MigratorRun {
    var db: Db

    constructor (start: Db)
      ensures db == start
    {
      db := start;
    }

    /** The read outside the lock: what there is to do, or why to stop. */
    method ReadPending(files: seq<Migration>) returns (phase: Phase)
      ensures phase == AfterRead(files, db.rows)
    {
      for i := 0 to |files|
        invariant forall j :: 0 <= j < i ==> files[j].isSafe
      {
        if !files[i].isSafe {
          return Done(Err(UnsafeMigration));
        }
      }
      for i := 0 to |files|
        invariant !HasDrift(files[..i], db.rows)
      {
        for k := 0 to |db.rows|
          invariant forall j :: 0 <= j < k ==> !(files[i].name == db.rows[j].name && files[i].checksum != db.rows[j].checksum)
        {
          if files[i].name == db.rows[k].name && files[i].checksum != db.rows[k].checksum {
            return Done(Err(Drift));
          }
        }
      }
      assert files[..|files|] == files;
      var pending := Missing(files, AppliedNames(db.rows));
      return if pending == [] then Done(Ok([])) else Waiting(pending);
    }

    /**
     * The transaction, the lock being held and nothing else running: skip what others have applied meanwhile, apply
     * the rest, commit. Any refusal ends the call with a rollback, of what the transaction, if still open, holds.
     */
    method ApplyPending(pending: seq<Migration>, broken: set<Statement>) returns (outcome: Result<seq<Name>, Failure>)
      modifies this
      ensures var todo := Missing(pending, AppliedNames(old(db).rows));
              (outcome, db) == Finished(AfterMigrations(Begun(old(db)), todo, broken), NamesOf(todo))
      ensures var todo := Missing(pending, AppliedNames(old(db).rows));
              NoControl(todo) ==>
                if Refuses(broken, todo) then outcome == Err(ApplyFailed) && db == old(db)
                else outcome == Ok(NamesOf(todo)) && db == Migrated(pending, old(db))
    {
      var known := AppliedNames(db.rows);
      var appliedNow: seq<Name> := [];
      var c := Begun(db);
      ghost var done: seq<Migration> := [];
      for i := 0 to |pending|
        invariant db == old(db)
        invariant done == Missing(pending[..i], known) && appliedNow == NamesOf(done)
        invariant AfterMigrations(Begun(db), done, broken) == Progress(c, true)
      {
        MissingStep(pending, known, i);
        var m := pending[i];
        if m.name !in known {
          assert (done + [m])[..|done|] == done;
          var accepted, now := ExecuteAll(m.statements, c, broken);
          if !accepted {
            RefusalStays(Begun(db), pending, known, i, broken);
            db := now.db;
            ApplyingIsAtomic(old(db), pending, broken);
            return Err(ApplyFailed);
          }
          c := Recorded(now, m);
          appliedNow := appliedNow + [m.name];
          done := done + [m];
        }
      }
      assert pending[..|pending|] == pending;
      ApplyingIsAtomic(db, pending, broken);
      if !c.isOpen {
        db := c.db;
        return Err(ApplyFailed);
      }
      db := c.view;
      return Ok(appliedNow);
    }
  }

  /** How far a sequence of statements got, and whether all were accepted. */
  datatype Progress = Progress(at: Connection, accepted: bool)

  /** The final COMMIT is refused when no transaction is open any more. */
  function Finished(p: Progress, names: seq<Name>): (Result<seq<Name>, Failure>, Db) {
    if p.accepted && p.at.isOpen then (Ok(names), p.at.view) else (Err(ApplyFailed), p.at.db)
  }

  function AfterStatement(p: Progress, statement: Statement, broken: set<Statement>): Progress {
    if !p.accepted then p
    else if statement in broken || Executed(p.at, statement).None? then p.(accepted := false)
    else p.(at := Executed(p.at, statement).value)
  }

  function AfterStatements(c: Connection, statements: seq<Statement>, broken: set<Statement>): Progress {
    if statements == [] then Progress(c, true)
    else AfterStatement(AfterStatements(c, statements[..|statements| - 1], broken), statements[|statements| - 1], broken)
  }

  function AfterMigrations(c: Connection, ms: seq<Migration>, broken: set<Statement>): Progress {
    if ms == [] then Progress(c, true)
    else
      var before, m := AfterMigrations(c, ms[..|ms| - 1], broken), ms[|ms| - 1];
      if !before.accepted then before
      else
        var p := AfterStatements(before.at, m.statements, broken);
        if p.accepted then p.(at := Recorded(p.at, m)) else p
  }

  /** Execute the statements of one migration in order, up to the first the database refuses. */
  method ExecuteAll(statements: seq<Statement>, before: Connection, broken: set<Statement>)
    returns (accepted: bool, after: Connection)
    ensures AfterStatements(before, statements, broken) == Progress(after, accepted)
  {
    after := before;
    for k := 0 to |statements|
      invariant AfterStatements(before, statements[..k], broken) == Progress(after, true)
    {
      assert statements[..k + 1][..k] == statements[..k];
      var next := Executed(after, statements[k]);
      if statements[k] in broken || next.None? {
        RefusedStatementsStay(before, statements, k + 1, broken);
        return false, after;
      }
      after := next.value;
    }
    assert statements[..|statements|] == statements;
    return true, after;
  }

  lemma {:induction false} RefusedStatementsStay(c: Connection, statements: seq<Statement>, k: nat, broken: set<Statement>)
    requires k <= |statements| && !AfterStatements(c, statements[..k], broken).accepted
    ensures AfterStatements(c, statements, broken) == AfterStatements(c, statements[..k], broken)
    decreases |statements|
  {
    if k < |statements| {
      var init := statements[..|statements| - 1];
      assert init[..k] == statements[..k];
      RefusedStatementsStay(c, init, k, broken);
    } else {
      assert statements[..k] == statements;
    }
  }

  lemma {:induction false} RefusedMigrationsStay(c: Connection, ms: seq<Migration>, k: nat, broken: set<Statement>)
    requires k <= |ms| && !AfterMigrations(c, ms[..k], broken).accepted
    ensures AfterMigrations(c, ms, broken) == AfterMigrations(c, ms[..k], broken)
    decreases |ms|
  {
    if k < |ms| {
      var init := ms[..|ms| - 1];
      assert init[..k] == ms[..k];
      RefusedMigrationsStay(c, init, k, broken);
    } else {
      assert ms[..k] == ms;
    }
  }

  /** A refusal at the i-th pending migration is where applying all of them ends. */
  lemma RefusalStays(c: Connection, pending: seq<Migration>, names: set<Name>, i: nat, broken: set<Statement>)
    requires i < |pending| && !AfterMigrations(c, Missing(pending[..i + 1], names), broken).accepted
    ensures AfterMigrations(c, Missing(pending, names), broken) == AfterMigrations(c, Missing(pending[..i + 1], names), broken)
  {
    MissingPrefix(pending, names, i + 1);
    var part, all := Missing(pending[..i + 1], names), Missing(pending, names);
    assert all[..|part|] == part;
    RefusedMigrationsStay(c, all, |part|, broken);
  }

  lemma {:induction false} MissingPrefix(files: seq<Migration>, names: set<Name>, k: nat)
    requires k <= |files|
    ensures Missing(files[..k], names) <= Missing(files, names)
    decreases |files| - k
  {
    if k < |files| {
      MissingPrefix(files, names, k + 1);
      MissingStep(files, names, k);
    } else {
      assert files[..k] == files;
    }
  }

  // ---- without transaction control ----

  function Applied(ms: seq<Migration>, db: Db): Db {
    Db(db.rows + RowsFor(ms), db.effects + EffectsOf(ms))
  }

  predicate AllPlain(statements: seq<Statement>) {
    forall k :: 0 <= k < |statements| ==> ControlOf(statements[k]) == Plain
  }

  lemma {:induction false} PlainStatements(c: Connection, statements: seq<Statement>, broken: set<Statement>)
    requires c.isOpen && AllPlain(statements)
    ensures var p := AfterStatements(c, statements, broken);
            && p.at.isOpen && p.at.db == c.db
            && (p.accepted <==> forall k :: 0 <= k < |statements| ==> statements[k] !in broken)
            && (p.accepted ==> p.at.view == c.view.(effects := c.view.effects + statements))
  {
    if statements != [] {
      var n := |statements| - 1;
      var init, last := statements[..n], statements[n];
      PlainStatements(c, init, broken);
      assert statements == init + [last];
      assert c.view.effects + init + [last] == c.view.effects + statements;
    }
  }

  /** Without a statement that ends the transaction, all is applied or nothing is committed. */
  lemma {:induction false} PlainMigrations(db: Db, ms: seq<Migration>, broken: set<Statement>)
    requires NoControl(ms)
    ensures var p := AfterMigrations(Begun(db), ms, broken);
            && p.at.isOpen && p.at.db == db
            && (p.accepted <==> !Refuses(broken, ms))
            && (p.accepted ==> p.at.view == Applied(ms, db))
  {
    if ms != [] {
      var init, m := ms[..|ms| - 1], ms[|ms| - 1];
      forall i: nat, k: nat ensures !EndsTransaction(init, i, k) {
        assert !EndsTransaction(ms, i, k);
      }
      forall k | 0 <= k < |m.statements| ensures ControlOf(m.statements[k]) == Plain {
        assert !EndsTransaction(ms, |ms| - 1, k);
      }
      PlainMigrations(db, init, broken);
      RefusesOneMore(init, m, broken);
      assert ms == init + [m];
      var before := AfterMigrations(Begun(db), init, broken);
      if before.accepted {
        PlainStatements(before.at, m.statements, broken);
        AppliedOneMore(init, m, db);
      }
    }
  }

  lemma RefusesOneMore(before: seq<Migration>, m: Migration, broken: set<Statement>)
    ensures Refuses(broken, before + [m]) <==>
              Refuses(broken, before) || exists k :: 0 <= k < |m.statements| && m.statements[k] in broken
  {
    var all := before + [m];
    if i, k :| 0 <= i < |before| && 0 <= k < |before[i].statements| && before[i].statements[k] in broken {
      assert all[i] == before[i];
    }
    if k :| 0 <= k < |m.statements| && m.statements[k] in broken {
      assert all[|before|] == m;
    }
  }

  lemma AppliedOneMore(before: seq<Migration>, m: Migration, db: Db)
    ensures Applied(before + [m], db) == Db(Applied(before, db).rows + [RowOf(m)], Applied(before, db).effects + m.statements)
  {
    assert (before + [m])[..|before|] == before;
    assert RowsFor(before + [m]) == RowsFor(before) + [RowOf(m)];
    assert db.effects + (EffectsOf(before) + m.statements) == db.effects + EffectsOf(before) + m.statements;
  }

  lemma ApplyingIsAtomic(db: Db, pending: seq<Migration>, broken: set<Statement>)
    ensures var todo := Missing(pending, AppliedNames(db.rows));
            NoControl(todo) ==>
              Finished(AfterMigrations(Begun(db), todo, broken), NamesOf(todo)) ==
              if Refuses(broken, todo) then (Err(ApplyFailed), db) else (Ok(NamesOf(todo)), Migrated(pending, db))
  {
    var todo := Missing(pending, AppliedNames(db.rows));
    if NoControl(todo) {
      PlainMigrations(db, todo, broken);
    }
  }
}
