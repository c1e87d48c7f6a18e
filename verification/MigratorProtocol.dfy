/**
 * Any number of instances booting at once against one database, with the same migration files. A statement
 * may be accepted or refused; one that ends the transaction gives up the write lock.
 */
module MigratorProtocol {
  import opened Wrappers
  import opened Migrator

  type Booter = nat

  datatype Phase =
    | Starting
    | Waiting(pending: seq<Migration>)
    | Locked(pending: seq<Migration>)
    | Applying(rest: seq<Migration>, executed: nat, known: set<Name>, appliedNow: seq<Name>)
    | Done(outcome: Result<seq<Name>, Failure>)

  /** The committed database, the database as the open transaction sees it, and who holds the write lock. */
  datatype State = State(db: Db, tx: Db, holder: Option<Booter>, booters: map<Booter, Phase>)

  datatype Event =
    | Boot(b: Booter)
    | ReadApplied(b: Booter)
    | TakeLock(b: Booter)
    | GiveUpWaiting(b: Booter)
    | Reread(b: Booter)
    | SkipApplied(b: Booter)
    | ExecuteStatement(b: Booter)
    | RecordApplied(b: Booter)
    | Commit(b: Booter)
    | FailAndRollBack(b: Booter)

  function PhaseOf(s: State, b: Booter): Phase {
    if b in s.booters then s.booters[b] else Starting
  }

  /** The database as the instance sees it. */
  function ConnectionOf(s: State, b: Booter): Connection {
    if s.holder == Some(b) then Connection(s.db, s.tx, true) else Connection(s.db, s.db, false)
  }

  function WithConnection(s: State, c: Connection): State {
    if c.isOpen then s.(db := c.db, tx := c.view) else s.(db := c.db, tx := c.db, holder := None)
  }

  /** Nobody else holds the write lock. */
  predicate MayWrite(s: State, b: Booter) {
    s.holder == None || s.holder == Some(b)
  }

  predicate Enabled(s: State, e: Event) {
    match e
    case Boot(b) => b !in s.booters
    case ReadApplied(b) => b in s.booters && s.booters[b] == Starting
    case TakeLock(b) => PhaseOf(s, b).Waiting? && s.holder == None
    case GiveUpWaiting(b) => PhaseOf(s, b).Waiting?
    case Reread(b) => PhaseOf(s, b).Locked?
    case SkipApplied(b) =>
      var p := PhaseOf(s, b);
      p.Applying? && p.rest != [] && p.executed == 0 && p.rest[0].name in p.known
    case ExecuteStatement(b) =>
      var p := PhaseOf(s, b);
      p.Applying? && p.rest != [] && p.rest[0].name !in p.known && p.executed < |p.rest[0].statements| &&
      MayWrite(s, b) && Executed(ConnectionOf(s, b), p.rest[0].statements[p.executed]).Some?
    case RecordApplied(b) =>
      var p := PhaseOf(s, b);
      p.Applying? && p.rest != [] && p.rest[0].name !in p.known && p.executed == |p.rest[0].statements| && MayWrite(s, b)
    case Commit(b) => PhaseOf(s, b).Applying? && PhaseOf(s, b).rest == [] && s.holder == Some(b)
    case FailAndRollBack(b) => PhaseOf(s, b).Locked? || PhaseOf(s, b).Applying?
  }

  /** What an instance decides after its first read, outside the lock. */
  function AfterRead(files: seq<Migration>, rows: seq<Row>): Phase {
    if !AllSafe(files) then Done(Err(UnsafeMigration))
    else if HasDrift(files, rows) then Done(Err(Drift))
    else
      var pending := Missing(files, AppliedNames(rows));
      if pending == [] then Done(Ok([])) else Waiting(pending)
  }

  function Next(files: seq<Migration>, s: State, e: Event): State
    requires Enabled(s, e)
  {
    match e
    case Boot(b) => s.(booters := s.booters[b := Starting])
    case ReadApplied(b) => s.(booters := s.booters[b := AfterRead(files, s.db.rows)])
    case TakeLock(b) => s.(holder := Some(b), tx := s.db, booters := s.booters[b := Locked(s.booters[b].pending)])
    case GiveUpWaiting(b) => s.(booters := s.booters[b := Done(Err(LockBusy))])
    case Reread(b) =>
      s.(booters := s.booters[b := Applying(s.booters[b].pending, 0, AppliedNames(s.tx.rows), [])])
    case SkipApplied(b) =>
      var p := s.booters[b];
      s.(booters := s.booters[b := p.(rest := p.rest[1..], executed := 0)])
    case ExecuteStatement(b) =>
      var p := s.booters[b];
      var c := Executed(ConnectionOf(s, b), p.rest[0].statements[p.executed]).value;
      WithConnection(s, c).(booters := s.booters[b := p.(executed := p.executed + 1)])
    case RecordApplied(b) =>
      var p := s.booters[b];
      WithConnection(s, Recorded(ConnectionOf(s, b), p.rest[0]))
        .(booters := s.booters[b := p.(rest := p.rest[1..], executed := 0, appliedNow := p.appliedNow + [p.rest[0].name])])
    case Commit(b) =>
      s.(db := s.tx, holder := None, booters := s.booters[b := Done(Ok(s.booters[b].appliedNow))])
    case FailAndRollBack(b) =>
      var failed := s.(booters := s.booters[b := Done(Err(ApplyFailed))]);
      if s.holder == Some(b) then failed.(tx := s.db, holder := None) else failed
  }

  function Initial(db: Db): State {
    State(db, db, None, map[])
  }

  predicate IsRun(files: seq<Migration>, db0: Db, states: seq<State>, events: seq<Event>) {
    |states| == |events| + 1 && states[0] == Initial(db0) &&
    forall k :: 0 <= k < |events| ==> Enabled(states[k], events[k]) && states[k + 1] == Next(files, states[k], events[k])
  }

  function ToApply(files: seq<Migration>, db0: Db): seq<Migration> {
    Missing(files, AppliedNames(db0.rows))
  }

  /** The transaction once the first i missing migrations and k statements of the next one are done. */
  function Partly(missing: seq<Migration>, db0: Db, i: nat, k: nat): Db
    requires i <= |missing| && (if i < |missing| then k <= |missing[i].statements| else k == 0)
  {
    Db(db0.rows + RowsFor(missing[..i]),
       db0.effects + EffectsOf(missing[..i]) + (if i < |missing| then missing[i].statements[..k] else []))
  }

  /** What an instance in this phase knows and has done, in terms of the database at the start. */
  predicate PhaseOk(files: seq<Migration>, db0: Db, s: State, b: Booter, p: Phase) {
    var missing := ToApply(files, db0);
    match p
    case Starting => true
    case Waiting(pending) => pending == missing && missing != [] && AllSafe(files) && !HasDrift(files, db0.rows)
    case Locked(pending) =>
      pending == missing && missing != [] && s.holder == Some(b) && s.tx == s.db && AllSafe(files) && !HasDrift(files, db0.rows)
    case Applying(rest, executed, known, appliedNow) =>
      missing != [] && AllSafe(files) && !HasDrift(files, db0.rows) &&
      s.holder == Some(b) && known == AppliedNames(s.db.rows) && |rest| <= |missing| &&
      var i := |missing| - |rest|;
      rest == missing[i..] &&
      if s.db == db0 then
        (if i < |missing| then executed <= |missing[i].statements| else executed == 0) &&
        appliedNow == NamesOf(missing[..i]) && s.tx == Partly(missing, db0, i, executed)
      else
        executed == 0 && appliedNow == [] && s.tx == s.db
    case Done(Ok(names)) =>
      s.db == Migrated(files, db0) && AllSafe(files) && (names == [] || names == NamesOf(missing))
    case Done(Err(failure)) =>
      (failure == UnsafeMigration ==> !AllSafe(files)) && (failure == Drift ==> HasDrift(files, Migrated(files, db0).rows))
  }

  predicate Reports(s: State, b: Booter) {
    b in s.booters && s.booters[b].Done? && s.booters[b].outcome.Ok? && s.booters[b].outcome.value != []
  }

  ghost predicate Inv(files: seq<Migration>, db0: Db, s: State) {
    (s.db == db0 || s.db == Migrated(files, db0)) &&
    (s.holder.Some? ==> PhaseOf(s, s.holder.value).Locked? || PhaseOf(s, s.holder.value).Applying?) &&
    (forall b :: b in s.booters ==> PhaseOk(files, db0, s, b, s.booters[b])) &&
    (forall a, b :: Reports(s, a) && Reports(s, b) ==> a == b) &&
    (s.db != db0 ==> exists b :: Reports(s, b))
  }

  /** Whoever gets to apply anything finds no statement that ends the transaction. The files show this before they are run. */
  ghost predicate KeepsTransaction(files: seq<Migration>, db0: Db) {
    AllSafe(files) && !HasDrift(files, db0.rows) ==> NoControl(ToApply(files, db0))
  }

  lemma MissingFromMigrated(files: seq<Migration>, db0: Db, db: Db)
    requires db == db0 || db == Migrated(files, db0)
    ensures Missing(files, AppliedNames(db.rows)) == if db == db0 then ToApply(files, db0) else []
  {
    MigratedIsStable(files, db0);
  }

  lemma DriftOnlyGrows(files: seq<Migration>, db0: Db)
    ensures HasDrift(files, db0.rows) ==> HasDrift(files, Migrated(files, db0).rows)
  {
    if HasDrift(files, db0.rows) {
      var i, k :| 0 <= i < |files| && 0 <= k < |db0.rows| && files[i].name == db0.rows[k].name &&
                  files[i].checksum != db0.rows[k].checksum;
      assert Migrated(files, db0).rows[k] == db0.rows[k];
    }
  }

  lemma OneStatementMore(missing: seq<Migration>, db0: Db, i: nat, k: nat)
    requires i < |missing| && k < |missing[i].statements|
    ensures Partly(missing, db0, i, k + 1) ==
            Partly(missing, db0, i, k).(effects := Partly(missing, db0, i, k).effects + [missing[i].statements[k]])
  {
    assert missing[i].statements[..k + 1] == missing[i].statements[..k] + [missing[i].statements[k]];
  }

  lemma OneMigrationMore(missing: seq<Migration>, db0: Db, i: nat)
    requires i < |missing|
    ensures var now := Partly(missing, db0, i, |missing[i].statements|);
            Partly(missing, db0, i + 1, 0) == now.(rows := now.rows + [RowOf(missing[i])])
  {
    var upTo, all := missing[..i + 1], missing[i].statements;
    assert upTo[..i] == missing[..i] && upTo[i] == missing[i];
    assert EffectsOf(upTo) == EffectsOf(missing[..i]) + all;
    assert RowsFor(upTo) == RowsFor(missing[..i]) + [RowOf(missing[i])];
    assert all[..|all|] == all;
    var after := if i + 1 < |missing| then missing[i + 1].statements[..0] else [];
    assert after == [];
    assert db0.effects + (EffectsOf(missing[..i]) + all) == db0.effects + EffectsOf(missing[..i]) + all;
    assert db0.effects + EffectsOf(upTo) + after == db0.effects + EffectsOf(missing[..i]) + all;
    assert db0.rows + (RowsFor(missing[..i]) + [RowOf(missing[i])]) == db0.rows + RowsFor(missing[..i]) + [RowOf(missing[i])];
  }

  /** Applying everything step by step ends in the migrated database. */
  lemma PartlyEnds(files: seq<Migration>, db0: Db)
    ensures var missing := ToApply(files, db0); Partly(missing, db0, |missing|, 0) == Migrated(files, db0)
    ensures Partly(ToApply(files, db0), db0, 0, 0) == db0
  {
    var missing := ToApply(files, db0);
    assert missing[..|missing|] == missing;
    assert Partly(missing, db0, |missing|, 0).effects == db0.effects + EffectsOf(missing);
    assert missing[..0] == [] && (missing != [] ==> missing[0].statements[..0] == []);
    assert Partly(missing, db0, 0, 0).rows == db0.rows + [];
    assert Partly(missing, db0, 0, 0).effects == db0.effects + [] + [];
  }

  /** A step of one instance leaves what the others know intact. */
  lemma OthersKeep(files: seq<Migration>, db0: Db, s: State, t: State, b: Booter, c: Booter)
    requires Inv(files, db0, s) && c != b && c in s.booters && c in t.booters && t.booters[c] == s.booters[c]
    requires (t.db == s.db && t.tx == s.tx && t.holder == s.holder) || s.holder in {None, Some(b)}
    requires t.db == s.db || t.db == Migrated(files, db0)
    ensures PhaseOk(files, db0, t, c, t.booters[c])
  {
    assert PhaseOk(files, db0, s, c, s.booters[c]);
  }

  lemma ReadFits(files: seq<Migration>, db0: Db, s: State, b: Booter)
    requires Inv(files, db0, s) && Enabled(s, ReadApplied(b))
    ensures var t := Next(files, s, ReadApplied(b)); PhaseOk(files, db0, t, b, t.booters[b])
  {
    MissingFromMigrated(files, db0, s.db);
    DriftOnlyGrows(files, db0);
    assert ToApply(files, db0) == [] ==> Migrated(files, db0) == db0 by {
      assert db0.rows + [] == db0.rows && db0.effects + [] == db0.effects;
    }
  }

  lemma RereadFits(files: seq<Migration>, db0: Db, s: State, b: Booter)
    requires Inv(files, db0, s) && Enabled(s, Reread(b))
    ensures var t := Next(files, s, Reread(b)); PhaseOk(files, db0, t, b, t.booters[b])
  {
    PartlyEnds(files, db0);
    assert PhaseOk(files, db0, s, b, s.booters[b]);
    var missing := ToApply(files, db0);
    assert missing[0..] == missing && missing[..0] == [];
  }

  /** Where an instance stands that has nothing left to apply. */
  lemma AtEnd(files: seq<Migration>, db0: Db, s: State, b: Booter)
    requires b in s.booters && s.booters[b].Applying? && s.booters[b].rest == [] && PhaseOk(files, db0, s, b, s.booters[b])
    ensures AllSafe(files)
    ensures var missing, names := ToApply(files, db0), s.booters[b].appliedNow;
            if s.db == db0 then s.tx == Partly(missing, db0, |missing|, 0) && names == NamesOf(missing[..|missing|])
            else s.tx == s.db && names == []
  {
  }

  /** An instance about to commit has seen everything applied, by itself or by another. */
  lemma AllDone(files: seq<Migration>, db0: Db, s: State, b: Booter)
    requires b in s.booters && s.booters[b].Applying? && s.booters[b].rest == [] && PhaseOk(files, db0, s, b, s.booters[b])
    requires s.db == db0 || s.db == Migrated(files, db0)
    ensures s.tx == Migrated(files, db0) && AllSafe(files)
    ensures var names := s.booters[b].appliedNow; names == [] || names == NamesOf(ToApply(files, db0))
  {
    AtEnd(files, db0, s, b);
    PartlyEnds(files, db0);
    assert ToApply(files, db0)[..|ToApply(files, db0)|] == ToApply(files, db0);
  }

  lemma CommitFits(files: seq<Migration>, db0: Db, s: State, b: Booter)
    requires Inv(files, db0, s) && Enabled(s, Commit(b))
    ensures var t := Next(files, s, Commit(b)); t.db == Migrated(files, db0) && PhaseOk(files, db0, t, b, t.booters[b])
  {
    assert PhaseOk(files, db0, s, b, s.booters[b]);
    AllDone(files, db0, s, b);
  }

  /** The instance that moves ends in a phase that fits the new state. */
  lemma ActorFits(files: seq<Migration>, db0: Db, s: State, e: Event)
    requires Inv(files, db0, s) && Enabled(s, e) && !e.ExecuteStatement? && !e.RecordApplied? && !e.SkipApplied?
    ensures var t := Next(files, s, e); PhaseOk(files, db0, t, e.b, t.booters[e.b])
  {
    match e
    case ReadApplied(b) => ReadFits(files, db0, s, b);
    case Reread(b) => RereadFits(files, db0, s, b);
    case Commit(b) => CommitFits(files, db0, s, b);
    case TakeLock(b) => assert PhaseOk(files, db0, s, b, s.booters[b]);
    case _ =>
  }

  /** Where an applying instance stands: at the i-th missing migration, which no committed row names while the database is the old one. */
  lemma AtNext(files: seq<Migration>, db0: Db, s: State, b: Booter)
    requires Inv(files, db0, s) && PhaseOf(s, b).Applying? && s.booters[b].rest != []
    ensures var p, missing := s.booters[b], ToApply(files, db0);
            |p.rest| <= |missing| && p.rest[0] == missing[|missing| - |p.rest|] &&
            p.rest[1..] == missing[|missing| - |p.rest| + 1..] &&
            (p.rest[0].name in p.known <==> s.db != db0)
  {
    var p, missing := s.booters[b], ToApply(files, db0);
    assert PhaseOk(files, db0, s, b, p);
    var i := |missing| - |p.rest|;
    assert p.rest[0] == missing[i] && p.rest[1..] == missing[i + 1..];
    NextIsKnownIff(files, db0, s.db, i);
  }

  /** A migration that was missing at the start is recorded exactly once the database has changed. */
  lemma NextIsKnownIff(files: seq<Migration>, db0: Db, db: Db, i: nat)
    requires (db == db0 || db == Migrated(files, db0)) && i < |ToApply(files, db0)|
    ensures ToApply(files, db0)[i].name in AppliedNames(db.rows) <==> db != db0
  {
    MissingElements(files, AppliedNames(db0.rows));
    assert ToApply(files, db0)[i] in ToApply(files, db0);
    NamesAfter(files, db0);
  }

  /** While no statement ends it, all is done within the transaction. */
  lemma WritesInside(files: seq<Migration>, db0: Db, s: State, e: Event)
    requires Inv(files, db0, s) && Enabled(s, e) && (e.ExecuteStatement? || e.RecordApplied?)
    requires KeepsTransaction(files, db0)
    ensures s.holder == Some(e.b) && Next(files, s, e).holder == s.holder && Next(files, s, e).db == s.db
    ensures var p := s.booters[e.b];
            e.ExecuteStatement? ==> Next(files, s, e).tx == s.tx.(effects := s.tx.effects + [p.rest[0].statements[p.executed]])
  {
    var p, missing := s.booters[e.b], ToApply(files, db0);
    assert PhaseOk(files, db0, s, e.b, p);
    AtNext(files, db0, s, e.b);
    if e.ExecuteStatement? {
      assert !EndsTransaction(missing, |missing| - |p.rest|, p.executed);
    }
  }

  lemma ExecuteFits(files: seq<Migration>, db0: Db, s: State, e: Event)
    requires Inv(files, db0, s) && Enabled(s, e) && e.ExecuteStatement? && KeepsTransaction(files, db0)
    ensures var t := Next(files, s, e); PhaseOk(files, db0, t, e.b, t.booters[e.b])
  {
    var p, missing := s.booters[e.b], ToApply(files, db0);
    assert PhaseOk(files, db0, s, e.b, p);
    AtNext(files, db0, s, e.b);
    var i := |missing| - |p.rest|;
    assert s.db == db0 && p.executed < |missing[i].statements|;
    assert Next(files, s, e).tx == Partly(missing, db0, i, p.executed + 1) by {
      WritesInside(files, db0, s, e);
      OneStatementMore(missing, db0, i, p.executed);
    }
    WritesInside(files, db0, s, e);
  }

  lemma RecordFits(files: seq<Migration>, db0: Db, s: State, e: Event)
    requires Inv(files, db0, s) && Enabled(s, e) && e.RecordApplied? && KeepsTransaction(files, db0)
    ensures var t := Next(files, s, e); PhaseOk(files, db0, t, e.b, t.booters[e.b])
  {
    var p, missing := s.booters[e.b], ToApply(files, db0);
    assert PhaseOk(files, db0, s, e.b, p);
    AtNext(files, db0, s, e.b);
    var i := |missing| - |p.rest|;
    OneMigrationMore(missing, db0, i);
    assert NamesOf(missing[..i + 1]) == NamesOf(missing[..i]) + [missing[i].name];
  }

  lemma SkipFits(files: seq<Migration>, db0: Db, s: State, e: Event)
    requires Inv(files, db0, s) && Enabled(s, e) && e.SkipApplied?
    ensures var t := Next(files, s, e); PhaseOk(files, db0, t, e.b, t.booters[e.b])
  {
    assert PhaseOk(files, db0, s, e.b, s.booters[e.b]);
    AtNext(files, db0, s, e.b);
  }

  lemma AnyActorFits(files: seq<Migration>, db0: Db, s: State, e: Event)
    requires Inv(files, db0, s) && Enabled(s, e) && KeepsTransaction(files, db0)
    ensures var t := Next(files, s, e); e.b in t.booters && PhaseOk(files, db0, t, e.b, t.booters[e.b])
  {
    if e.ExecuteStatement? {
      ExecuteFits(files, db0, s, e);
    } else if e.RecordApplied? {
      RecordFits(files, db0, s, e);
    } else if e.SkipApplied? {
      SkipFits(files, db0, s, e);
    } else {
      ActorFits(files, db0, s, e);
    }
  }

  /** What a step does to the database and the lock. */
  lemma SharedStep(files: seq<Migration>, db0: Db, s: State, e: Event)
    requires Inv(files, db0, s) && Enabled(s, e) && KeepsTransaction(files, db0)
    ensures var t := Next(files, s, e);
            && (t.db == s.db || t.db == Migrated(files, db0))
            && ((t.db == s.db && t.tx == s.tx && t.holder == s.holder) || s.holder in {None, Some(e.b)})
            && (t.holder.Some? ==> PhaseOf(t, t.holder.value).Locked? || PhaseOf(t, t.holder.value).Applying?)
            && (forall c :: c != e.b && c in t.booters ==> c in s.booters && t.booters[c] == s.booters[c])
  {
    if e.ExecuteStatement? || e.RecordApplied? {
      WritesInside(files, db0, s, e);
    } else if e.Commit? {
      CommitFits(files, db0, s, e.b);
    } else if e.b in s.booters {
      assert PhaseOk(files, db0, s, e.b, s.booters[e.b]);
    }
  }

  lemma StepKeepsInv(files: seq<Migration>, db0: Db, s: State, e: Event)
    requires Inv(files, db0, s) && Enabled(s, e) && KeepsTransaction(files, db0)
    ensures Inv(files, db0, Next(files, s, e))
  {
    var t := Next(files, s, e);
    AnyActorFits(files, db0, s, e);
    SharedStep(files, db0, s, e);
    forall c | c in t.booters ensures PhaseOk(files, db0, t, c, t.booters[c]) {
      if c != e.b {
        OthersKeep(files, db0, s, t, e.b, c);
      }
    }
    ReportsStep(files, db0, s, e);
  }

  /** A step other than the first commit changes neither the reports nor the database. */
  lemma OtherStepsReportNothing(files: seq<Migration>, db0: Db, s: State, e: Event)
    requires Inv(files, db0, s) && Enabled(s, e) && KeepsTransaction(files, db0) && !(e.Commit? && s.db == db0)
    ensures Next(files, s, e).db == s.db && forall c :: Reports(Next(files, s, e), c) <==> Reports(s, c)
  {
    if e.ExecuteStatement? || e.RecordApplied? {
      WritesInside(files, db0, s, e);
    } else if e.Commit? {
      assert PhaseOk(files, db0, s, e.b, s.booters[e.b]);
      AtEnd(files, db0, s, e.b);
    }
    var t := Next(files, s, e);
    assert !Reports(s, e.b) && !Reports(t, e.b);
    forall c | c != e.b ensures Reports(t, c) <==> Reports(s, c) {
    }
  }

  /** Only a commit makes an instance report work, and only the first one that has any. */
  lemma ReportsStep(files: seq<Migration>, db0: Db, s: State, e: Event)
    requires Inv(files, db0, s) && Enabled(s, e) && KeepsTransaction(files, db0)
    ensures var t := Next(files, s, e);
            (forall a, b :: Reports(t, a) && Reports(t, b) ==> a == b) && (t.db != db0 ==> exists b :: Reports(t, b))
  {
    var t := Next(files, s, e);
    if e.Commit? && s.db == db0 {
      assert PhaseOk(files, db0, s, e.b, s.booters[e.b]);
      AllDone(files, db0, s, e.b);
      assert t.db != db0 ==> Reports(t, e.b);
      forall c | c != e.b ensures !Reports(t, c) {
        if c in s.booters {
          NothingReportedBefore(files, db0, s, c);
        }
      }
    } else {
      OtherStepsReportNothing(files, db0, s, e);
      if t.db != db0 {
        var c :| Reports(s, c);
        assert Reports(t, c);
      }
    }
  }

  lemma NothingReportedBefore(files: seq<Migration>, db0: Db, s: State, c: Booter)
    requires Inv(files, db0, s) && s.db == db0 && c in s.booters
    ensures !Reports(s, c)
  {
    assert PhaseOk(files, db0, s, c, s.booters[c]);
    assert |Migrated(files, db0).rows| == |db0.rows| + |ToApply(files, db0)|;
    assert Migrated(files, db0) == db0 ==> NamesOf(ToApply(files, db0)) == [];
  }

  lemma {:induction false} Reachable(files: seq<Migration>, db0: Db, states: seq<State>, events: seq<Event>, k: nat)
    requires IsRun(files, db0, states, events) && k < |states| && KeepsTransaction(files, db0)
    ensures Inv(files, db0, states[k])
  {
    if k > 0 {
      Reachable(files, db0, states, events, k - 1);
      StepKeepsInv(files, db0, states[k - 1], events[k - 1]);
    }
  }

  /**
   * At every moment the committed database is the old one or the completely migrated one: all missing
   * migrations in name order, each statement once. Whoever reports success finds it migrated.
   */
  lemma AllOrNothing(files: seq<Migration>, db0: Db, states: seq<State>, events: seq<Event>, k: nat)
    requires IsRun(files, db0, states, events) && k < |states| && KeepsTransaction(files, db0)
    ensures states[k].db == db0 || states[k].db == Migrated(files, db0)
    ensures forall b :: b in states[k].booters && states[k].booters[b].Done? && states[k].booters[b].outcome.Ok? ==>
              states[k].db == Migrated(files, db0)
  {
    Reachable(files, db0, states, events, k);
    var s := states[k];
    forall b | b in s.booters && s.booters[b].Done? && s.booters[b].outcome.Ok? ensures s.db == Migrated(files, db0) {
      assert PhaseOk(files, db0, s, b, s.booters[b]);
    }
  }

  /** Of all concurrent instances exactly one reports having migrated a database that changed, and it names every missing migration. */
  lemma ExactlyOneApplies(files: seq<Migration>, db0: Db, states: seq<State>, events: seq<Event>, k: nat)
    requires IsRun(files, db0, states, events) && k < |states| && KeepsTransaction(files, db0)
    ensures states[k].db != db0 ==> exists b :: Reports(states[k], b)
    ensures forall a, b :: Reports(states[k], a) && Reports(states[k], b) ==> a == b
    ensures forall b :: Reports(states[k], b) ==> states[k].booters[b].outcome.value == NamesOf(ToApply(files, db0))
  {
    Reachable(files, db0, states, events, k);
    forall b | Reports(states[k], b) ensures states[k].booters[b].outcome.value == NamesOf(ToApply(files, db0)) {
      assert PhaseOk(files, db0, states[k], b, states[k].booters[b]);
    }
  }

  /** Only the commit of a finished run changes the database; a run that fails or gives up leaves no trace. */
  lemma FailureLeavesNothing(files: seq<Migration>, db0: Db, states: seq<State>, events: seq<Event>, k: nat)
    requires IsRun(files, db0, states, events) && k < |events| && KeepsTransaction(files, db0)
    ensures states[k + 1].db != states[k].db ==> events[k].Commit? && states[k].db == db0 && states[k + 1].db == Migrated(files, db0)
  {
    AllOrNothing(files, db0, states, events, k);
    AllOrNothing(files, db0, states, events, k + 1);
    Reachable(files, db0, states, events, k);
    var s := states[k];
    if events[k].Commit? && s.db != db0 {
      assert PhaseOk(files, db0, s, events[k].b, s.booters[events[k].b]);
    }
  }

  /** An instance that starts on the migrated database applies nothing, unless a file is unsafe or was changed. */
  lemma RerunAppliesNothing(files: seq<Migration>, db0: Db)
    ensures AfterRead(files, Migrated(files, db0).rows) ==
            if !AllSafe(files) then Done(Err(UnsafeMigration))
            else if HasDrift(files, Migrated(files, db0).rows) then Done(Err(Drift))
            else Done(Ok([]))
  {
    MigratedIsStable(files, db0);
  }
}
