/**
 * When the migrator's transaction keeps its promise. The guard refuses BEGIN and END, but not COMMIT and
 * ROLLBACK; a pending statement that ends the transaction leaves the rest of the run outside it.
 */
module MigratorAtomicity {
  import opened Wrappers
  import opened TransactionControl
  import opened Migrator
  import opened MigratorProtocol

  /** Some run of any number of instances gets to the state. */
  ghost predicate Reaches(files: seq<Migration>, db0: Db, s: State) {
    exists states, events :: IsRun(files, db0, states, events) && states[|events|] == s
  }

  predicate IsWorking(p: Phase) {
    p.Locked? || p.Applying?
  }

  /**
   * The promise: the database is the old one or the completely migrated one, who works holds the write lock,
   * success means migrated, and a changed database was migrated by exactly one instance, which reports it all.
   */
  ghost predicate IsSound(files: seq<Migration>, db0: Db, s: State) {
    && (s.db == db0 || s.db == Migrated(files, db0))
    && (forall b :: b in s.booters && IsWorking(s.booters[b]) ==> s.holder == Some(b))
    && (forall b :: b in s.booters && s.booters[b].Done? && s.booters[b].outcome.Ok? ==> s.db == Migrated(files, db0))
    && (forall a, b :: Reports(s, a) && Reports(s, b) ==> a == b)
    && (forall b :: Reports(s, b) ==> s.booters[b].outcome.value == NamesOf(ToApply(files, db0)))
    && (s.db != db0 ==> exists b :: Reports(s, b))
  }

  lemma ReachableIsSound(files: seq<Migration>, db0: Db, states: seq<State>, events: seq<Event>, k: nat)
    requires IsRun(files, db0, states, events) && k < |states| && KeepsTransaction(files, db0)
    ensures IsSound(files, db0, states[k])
  {
    var s := states[k];
    AllOrNothing(files, db0, states, events, k);
    ExactlyOneApplies(files, db0, states, events, k);
    Reachable(files, db0, states, events, k);
    forall b | b in s.booters && IsWorking(s.booters[b]) ensures s.holder == Some(b) {
      assert PhaseOk(files, db0, s, b, s.booters[b]);
    }
  }

  lemma ReachesNext(files: seq<Migration>, db0: Db, s: State, e: Event)
    requires Reaches(files, db0, s) && Enabled(s, e)
    ensures Reaches(files, db0, Next(files, s, e))
  {
    var states, events :| IsRun(files, db0, states, events) && states[|events|] == s;
    assert IsRun(files, db0, states + [Next(files, s, e)], events + [e]);
  }

  // ---- a run up to the first statement that ends the transaction ----

  predicate IsBefore(a: nat, b: nat, i: nat, k: nat) {
    a < i || (a == i && b < k)
  }

  ghost predicate IsFirstControl(ms: seq<Migration>, i: nat, k: nat) {
    EndsTransaction(ms, i, k) && forall a, b :: EndsTransaction(ms, a, b) ==> !IsBefore(a, b, i, k)
  }

  lemma {:induction false} FirstControl(ms: seq<Migration>, i: nat, k: nat) returns (a: nat, b: nat)
    requires EndsTransaction(ms, i, k)
    ensures IsFirstControl(ms, a, b)
    decreases i, k
  {
    if c, d :| EndsTransaction(ms, c, d) && IsBefore(c, d, i, k) {
      a, b := FirstControl(ms, c, d);
    } else {
      a, b := i, k;
    }
  }

  /** Instance 0, alone, before statement k of the i-th missing migration. */
  function At(files: seq<Migration>, db0: Db, i: nat, k: nat): State
    requires var missing := ToApply(files, db0); i < |missing| && k <= |missing[i].statements|
  {
    var missing := ToApply(files, db0);
    State(db0, Partly(missing, db0, i, k), Some(0),
          map[0 := Applying(missing[i..], k, AppliedNames(db0.rows), NamesOf(missing[..i]))])
  }

  lemma ReachesStart(files: seq<Migration>, db0: Db)
    requires AllSafe(files) && !HasDrift(files, db0.rows) && ToApply(files, db0) != []
    ensures Reaches(files, db0, At(files, db0, 0, 0))
  {
    var s0 := Initial(db0);
    assert IsRun(files, db0, [s0], []);
    ReachesNext(files, db0, s0, Boot(0));
    var s1 := Next(files, s0, Boot(0));
    ReachesNext(files, db0, s1, ReadApplied(0));
    var s2 := Next(files, s1, ReadApplied(0));
    ReachesNext(files, db0, s2, TakeLock(0));
    var s3 := Next(files, s2, TakeLock(0));
    ReachesNext(files, db0, s3, Reread(0));
    PartlyEnds(files, db0);
    var missing := ToApply(files, db0);
    assert missing[0..] == missing && NamesOf(missing[..0]) == [];
    assert Next(files, s3, Reread(0)) == At(files, db0, 0, 0);
  }

  lemma {:induction false} ReachesAt(files: seq<Migration>, db0: Db, i: nat, k: nat)
    requires AllSafe(files) && !HasDrift(files, db0.rows)
    requires var missing := ToApply(files, db0); i < |missing| && k <= |missing[i].statements|
    requires forall a, b :: EndsTransaction(ToApply(files, db0), a, b) ==> !IsBefore(a, b, i, k)
    ensures Reaches(files, db0, At(files, db0, i, k))
    decreases i, k
  {
    var missing := ToApply(files, db0);
    if k > 0 {
      ReachesAt(files, db0, i, k - 1);
      StatementAt(files, db0, i, k - 1);
    } else if i > 0 {
      ReachesAt(files, db0, i - 1, |missing[i - 1].statements|);
      RecordAt(files, db0, i - 1);
    } else {
      ReachesStart(files, db0);
    }
  }

  lemma NotKnown(files: seq<Migration>, db0: Db, i: nat)
    requires i < |ToApply(files, db0)|
    ensures ToApply(files, db0)[i].name !in AppliedNames(db0.rows)
  {
    NextIsKnownIff(files, db0, db0, i);
  }

  lemma StatementAt(files: seq<Migration>, db0: Db, i: nat, k: nat)
    requires var missing := ToApply(files, db0); i < |missing| && k < |missing[i].statements|
    requires !EndsTransaction(ToApply(files, db0), i, k) && Reaches(files, db0, At(files, db0, i, k))
    ensures Reaches(files, db0, At(files, db0, i, k + 1))
  {
    NotKnown(files, db0, i);
    OneStatementMore(ToApply(files, db0), db0, i, k);
    ReachesNext(files, db0, At(files, db0, i, k), ExecuteStatement(0));
    assert Next(files, At(files, db0, i, k), ExecuteStatement(0)) == At(files, db0, i, k + 1);
  }

  lemma RecordAt(files: seq<Migration>, db0: Db, i: nat)
    requires i + 1 < |ToApply(files, db0)|
    requires Reaches(files, db0, At(files, db0, i, |ToApply(files, db0)[i].statements|))
    ensures Reaches(files, db0, At(files, db0, i + 1, 0))
  {
    var missing := ToApply(files, db0);
    NotKnown(files, db0, i);
    OneMigrationMore(missing, db0, i);
    assert missing[i..][1..] == missing[i + 1..];
    assert NamesOf(missing[..i + 1]) == NamesOf(missing[..i]) + [missing[i].name];
    var s := At(files, db0, i, |missing[i].statements|);
    ReachesNext(files, db0, s, RecordApplied(0));
    assert Next(files, s, RecordApplied(0)) == At(files, db0, i + 1, 0);
  }

  // ---- instances that nobody disturbs ----

  /** Instance 0, alone, about to commit. */
  function AllApplied(files: seq<Migration>, db0: Db): State {
    State(db0, Migrated(files, db0), Some(0), map[0 := Applying([], 0, AppliedNames(db0.rows), NamesOf(ToApply(files, db0)))])
  }

  /** Alone, an instance applies all that is missing, reports it in order and releases the lock. */
  lemma AloneMigrates(files: seq<Migration>, db0: Db)
    requires AllSafe(files) && !HasDrift(files, db0.rows) && ToApply(files, db0) != [] && NoControl(ToApply(files, db0))
    ensures var db := Migrated(files, db0);
            Reaches(files, db0, State(db, db, None, map[0 := Done(Ok(NamesOf(ToApply(files, db0))))]))
  {
    var s := AllApplied(files, db0);
    ReachesAllApplied(files, db0);
    ReachesNext(files, db0, s, Commit(0));
    assert Next(files, s, Commit(0)).booters == map[0 := Done(Ok(NamesOf(ToApply(files, db0))))];
  }

  lemma ReachesAllApplied(files: seq<Migration>, db0: Db)
    requires AllSafe(files) && !HasDrift(files, db0.rows) && ToApply(files, db0) != [] && NoControl(ToApply(files, db0))
    ensures Reaches(files, db0, AllApplied(files, db0))
  {
    var missing := ToApply(files, db0);
    var i := |missing| - 1;
    ReachesAt(files, db0, i, |missing[i].statements|);
    LastIsRecorded(files, db0);
    ReachesNext(files, db0, At(files, db0, i, |missing[i].statements|), RecordApplied(0));
  }

  lemma LastIsRecorded(files: seq<Migration>, db0: Db)
    requires ToApply(files, db0) != []
    ensures var missing := ToApply(files, db0);
            var s := At(files, db0, |missing| - 1, |missing[|missing| - 1].statements|);
            && Enabled(s, RecordApplied(0))
            && Next(files, s, RecordApplied(0)) == AllApplied(files, db0)
  {
    var missing := ToApply(files, db0);
    var i := |missing| - 1;
    NotKnown(files, db0, i);
    OneMigrationMore(missing, db0, i);
    PartlyEnds(files, db0);
    assert missing[i..][1..] == [];
    assert NamesOf(missing) == NamesOf(missing[..i]) + [missing[i].name];
  }

  /** An instance that has waited while another one migrated passes over what is recorded, and reports nothing. */
  lemma LateAppliesNothing(files: seq<Migration>, db0: Db, s: State, b: Booter)
    requires Reaches(files, db0, s) && PhaseOf(s, b).Waiting? && s.holder == None
    requires forall m :: m in s.booters[b].pending ==> m.name in AppliedNames(s.db.rows)
    ensures Reaches(files, db0, s.(tx := s.db, booters := s.booters[b := Done(Ok([]))]))
  {
    var pending, known := s.booters[b].pending, AppliedNames(s.db.rows);
    ReachesNext(files, db0, s, TakeLock(b));
    var locked := Next(files, s, TakeLock(b));
    ReachesNext(files, db0, locked, Reread(b));
    assert Next(files, locked, Reread(b)) == s.(tx := s.db, holder := Some(b), booters := s.booters[b := Applying(pending, 0, known, [])]);
    PassesOver(files, db0, s, b, pending);
  }

  lemma {:induction false} PassesOver(files: seq<Migration>, db0: Db, s: State, b: Booter, rest: seq<Migration>)
    requires var known := AppliedNames(s.db.rows);
             && Reaches(files, db0, s.(tx := s.db, holder := Some(b), booters := s.booters[b := Applying(rest, 0, known, [])]))
             && forall m :: m in rest ==> m.name in known
    requires s.holder == None
    ensures Reaches(files, db0, s.(tx := s.db, booters := s.booters[b := Done(Ok([]))]))
    decreases |rest|
  {
    var known := AppliedNames(s.db.rows);
    var at := s.(tx := s.db, holder := Some(b), booters := s.booters[b := Applying(rest, 0, known, [])]);
    if rest == [] {
      ReachesNext(files, db0, at, Commit(b));
      assert Next(files, at, Commit(b)) == s.(tx := s.db, booters := s.booters[b := Done(Ok([]))]);
    } else {
      ReachesNext(files, db0, at, SkipApplied(b));
      assert Next(files, at, SkipApplied(b)) == s.(tx := s.db, holder := Some(b), booters := s.booters[b := Applying(rest[1..], 0, known, [])]);
      PassesOver(files, db0, s, b, rest[1..]);
    }
  }

  /** An instance that gives up, fails or commits is done, and the outcome tells where it ended: waiting for the lock, at work, or before. */
  lemma OutcomeTells(files: seq<Migration>, s: State, e: Event)
    requires Enabled(s, e) && e.b in s.booters
    ensures var before, t := s.booters[e.b], Next(files, s, e);
            var after := t.booters[e.b];
            && (e.GiveUpWaiting? || e.FailAndRollBack? || e.Commit? ==> after.Done?)
            && (after.Done? ==>
                  && (after.outcome == Err(LockBusy) <==> before.Waiting?)
                  && (after.outcome == Err(ApplyFailed) <==> IsWorking(before) && after.outcome.Err?)
                  && (after.outcome.Err? ==> t.db == s.db)
                  && (s.holder == Some(e.b) && IsWorking(before) ==> t.holder == None && t.tx == t.db))
  {
  }

  /** The promise holds in every reachable state if and only if no pending statement ends the transaction. */
  lemma SoundIff(files: seq<Migration>, db0: Db)
    ensures (forall s :: Reaches(files, db0, s) ==> IsSound(files, db0, s)) <==> KeepsTransaction(files, db0)
  {
    if KeepsTransaction(files, db0) {
      forall s | Reaches(files, db0, s) ensures IsSound(files, db0, s) {
        var states, events :| IsRun(files, db0, states, events) && states[|events|] == s;
        ReachableIsSound(files, db0, states, events, |events|);
      }
    } else {
      var i, k :| EndsTransaction(ToApply(files, db0), i, k);
      i, k := FirstControl(ToApply(files, db0), i, k);
      var s := OutsideAfter(files, db0, i, k);
      assert !IsSound(files, db0, s) by {
        assert IsWorking(s.booters[0]);
      }
    }
  }

  /** The first such statement leaves the instance at work without the lock. */
  lemma OutsideAfter(files: seq<Migration>, db0: Db, i: nat, k: nat) returns (s: State)
    requires AllSafe(files) && !HasDrift(files, db0.rows) && IsFirstControl(ToApply(files, db0), i, k)
    ensures Reaches(files, db0, s) && s.holder == None
    ensures s.booters == map[0 := At(files, db0, i, k + 1).booters[0]]
    ensures s.db == if ControlOf(ToApply(files, db0)[i].statements[k]) == Commits then Partly(ToApply(files, db0), db0, i, k) else db0
  {
    NotKnown(files, db0, i);
    ReachesAt(files, db0, i, k);
    var before := At(files, db0, i, k);
    ReachesNext(files, db0, before, ExecuteStatement(0));
    s := Next(files, before, ExecuteStatement(0));
  }

  // ---- what is left behind ----

  /** The first statement that ends the transaction, with nothing to save, and directly after it another one, which is refused. */
  ghost predicate FutileAt(ms: seq<Migration>, i: nat, k: nat) {
    && IsFirstControl(ms, i, k) && EndsTransaction(ms, i, k + 1)
    && (ControlOf(ms[i].statements[k]) == RollsBack || (i == 0 && k == 0))
  }

  /** Every attempt fails before anything is saved. */
  ghost predicate IsStillborn(ms: seq<Migration>) {
    exists i, k :: FutileAt(ms, i, k)
  }

  /** Fewer rows than the migrated database has, or fewer effects. */
  lemma NotYetMigrated(files: seq<Migration>, db0: Db, db: Db)
    requires |db.rows| < |db0.rows| + |ToApply(files, db0)| || |db.effects| < |db0.effects| + |EffectsOf(ToApply(files, db0))|
    ensures db != Migrated(files, db0)
  {
  }

  /** The call fails, and the database is neither the old one nor the migrated one. */
  ghost predicate LeavesPart(files: seq<Migration>, db0: Db) {
    exists s :: Reaches(files, db0, s) && s.booters == map[0 := Done(Err(ApplyFailed))] && s.db != db0 && s.db != Migrated(files, db0)
  }

  lemma FailureLeaves(files: seq<Migration>, db0: Db, s: State)
    requires Reaches(files, db0, s) && s.holder == None && s.booters.Keys == {0} && s.booters[0].Applying?
    requires s.db != db0 && s.db != Migrated(files, db0)
    ensures LeavesPart(files, db0)
  {
    ReachesNext(files, db0, s, FailAndRollBack(0));
    assert Next(files, s, FailAndRollBack(0)).booters == map[0 := Done(Err(ApplyFailed))];
  }

  lemma {:induction false} EffectsCover(ms: seq<Migration>, i: nat)
    requires i < |ms|
    ensures |EffectsOf(ms)| >= |ms[i].statements|
  {
    if i < |ms| - 1 {
      EffectsCover(ms[..|ms| - 1], i);
    }
  }

  /** Work that precedes the first such statement is saved by it; work that follows is saved statement by statement. */
  lemma PartIsLeft(files: seq<Migration>, db0: Db, i: nat, k: nat)
    requires AllSafe(files) && !HasDrift(files, db0.rows)
    requires IsFirstControl(ToApply(files, db0), i, k) && !IsStillborn(ToApply(files, db0))
    ensures LeavesPart(files, db0)
  {
    var missing := ToApply(files, db0);
    var statements := missing[i].statements;
    var s := OutsideAfter(files, db0, i, k);
    if ControlOf(statements[k]) == Commits && (i > 0 || k > 0) {
      SavedSoFar(files, db0, i, k);
      FailureLeaves(files, db0, s);
    } else {
      NotKnown(files, db0, i);
      assert s.db == db0 by {
        PartlyEnds(files, db0);
      }
      assert !FutileAt(missing, i, k);
      var e := if k + 1 < |statements| then ExecuteStatement(0) else RecordApplied(0);
      var t := Next(files, s, e);
      ReachesNext(files, db0, s, e);
      EffectsCover(missing, i);
      assert t.db != db0;
      NotYetMigrated(files, db0, t.db);
      FailureLeaves(files, db0, t);
    }
  }

  lemma SavedSoFar(files: seq<Migration>, db0: Db, i: nat, k: nat)
    requires var missing := ToApply(files, db0); i < |missing| && k < |missing[i].statements|
    requires i > 0 || k > 0
    ensures var db := Partly(ToApply(files, db0), db0, i, k); db != db0 && db != Migrated(files, db0)
  {
    var db := Partly(ToApply(files, db0), db0, i, k);
    assert |db.rows| == |db0.rows| + i;
    assert i == 0 ==> |db.effects| >= |db0.effects| + k;
    NotYetMigrated(files, db0, db);
  }

  // ---- nothing can be applied ----

  /** Instances work up to the statement (i, k), and fail after it; nothing is ever committed. */
  ghost predicate IsFutile(files: seq<Migration>, db0: Db, s: State, i: nat, k: nat) {
    s.db == db0 && forall b :: b in s.booters ==> FutilePhase(files, db0, s, b, i, k)
  }

  ghost predicate FutilePhase(files: seq<Migration>, db0: Db, s: State, b: Booter, i: nat, k: nat)
    requires b in s.booters
  {
    match s.booters[b]
    case Waiting(pending) => pending == ToApply(files, db0)
    case Locked(pending) => pending == ToApply(files, db0) && s.holder == Some(b) && s.tx == db0
    case Applying(rest, executed, known, _) =>
      && known == AppliedNames(db0.rows) && 1 <= |rest| <= |ToApply(files, db0)|
      && FutilePosition(files, db0, s, b, rest, executed, i, k)
    case _ => true
  }

  /** Inside the transaction up to (i, k), outside it just after. */
  ghost predicate FutilePosition(files: seq<Migration>, db0: Db, s: State, b: Booter, rest: seq<Migration>, executed: nat, i: nat, k: nat)
    requires 1 <= |rest| <= |ToApply(files, db0)|
  {
    var missing := ToApply(files, db0);
    var a := |missing| - |rest|;
    && rest == missing[a..]
    && if s.holder == Some(b)
       then !IsBefore(i, k, a, executed) && executed <= |missing[a].statements| && s.tx == Partly(missing, db0, a, executed)
       else a == i && executed == k + 1
  }

  /** A step of one instance neither takes the lock from another nor writes into its transaction. */
  lemma OthersKeepLock(files: seq<Migration>, s: State, e: Event, c: Booter)
    requires Enabled(s, e) && c != e.b
    ensures Next(files, s, e).holder == Some(c) <==> s.holder == Some(c)
    ensures s.holder == Some(c) ==> Next(files, s, e).tx == s.tx
    ensures c in Next(files, s, e).booters <==> c in s.booters
    ensures c in s.booters ==> Next(files, s, e).booters[c] == s.booters[c]
  {
  }

  lemma OthersStayFutile(files: seq<Migration>, db0: Db, s: State, e: Event, c: Booter, i: nat, k: nat)
    requires Enabled(s, e) && c != e.b && c in s.booters && FutilePhase(files, db0, s, c, i, k)
    ensures c in Next(files, s, e).booters && FutilePhase(files, db0, Next(files, s, e), c, i, k)
  {
    OthersKeepLock(files, s, e, c);
  }

  /** Outside the transaction the next statement is refused. */
  lemma OnlyHolderExecutes(files: seq<Migration>, db0: Db, s: State, b: Booter, i: nat, k: nat)
    requires IsFutile(files, db0, s, i, k) && Enabled(s, ExecuteStatement(b)) && FutileAt(ToApply(files, db0), i, k)
    ensures s.holder == Some(b)
    ensures var missing, p := ToApply(files, db0), s.booters[b];
            var a := |missing| - |p.rest|;
            && 0 <= a < |missing| && p.rest[0] == missing[a] && p.executed < |missing[a].statements|
            && (EndsTransaction(missing, a, p.executed) ==> a == i && p.executed == k)
  {
    var missing, p := ToApply(files, db0), s.booters[b];
    assert FutilePhase(files, db0, s, b, i, k);
    assert p.rest[0] == missing[|missing| - |p.rest|];
    assert EndsTransaction(missing, i, k + 1);
  }

  lemma StatementStaysFutile(files: seq<Migration>, db0: Db, s: State, b: Booter, i: nat, k: nat)
    requires IsFutile(files, db0, s, i, k) && Enabled(s, ExecuteStatement(b)) && FutileAt(ToApply(files, db0), i, k)
    ensures var t := Next(files, s, ExecuteStatement(b)); t.db == db0 && FutilePhase(files, db0, t, b, i, k)
  {
    OnlyHolderExecutes(files, db0, s, b, i, k);
    var missing, p := ToApply(files, db0), s.booters[b];
    var a := |missing| - |p.rest|;
    assert FutilePhase(files, db0, s, b, i, k);
    if EndsTransaction(missing, a, p.executed) {
      EndingSavesNothing(files, db0, s, b, i, k);
    } else {
      PlainStaysFutile(files, db0, s, b, i, k);
    }
  }

  lemma EndingSavesNothing(files: seq<Migration>, db0: Db, s: State, b: Booter, i: nat, k: nat)
    requires Enabled(s, ExecuteStatement(b)) && FutileAt(ToApply(files, db0), i, k) && s.holder == Some(b) && s.db == db0
    requires s.booters[b].rest[0] == ToApply(files, db0)[i] && s.booters[b].executed == k
    requires s.tx == Partly(ToApply(files, db0), db0, i, k)
    ensures var t := Next(files, s, ExecuteStatement(b)); t.db == db0 && t.holder == None
  {
    PartlyEnds(files, db0);
  }

  lemma PlainStaysFutile(files: seq<Migration>, db0: Db, s: State, b: Booter, i: nat, k: nat)
    requires Enabled(s, ExecuteStatement(b)) && s.holder == Some(b) && s.db == db0 && FutilePhase(files, db0, s, b, i, k)
    requires var missing, p := ToApply(files, db0), s.booters[b];
             IsFirstControl(missing, i, k) && !EndsTransaction(missing, |missing| - |p.rest|, p.executed)
    ensures var t := Next(files, s, ExecuteStatement(b)); t.db == db0 && FutilePhase(files, db0, t, b, i, k)
  {
    var missing, p := ToApply(files, db0), s.booters[b];
    var a := |missing| - |p.rest|;
    assert p.rest[0] == missing[a];
    OneStatementMore(missing, db0, a, p.executed);
    assert Next(files, s, ExecuteStatement(b)).tx == Partly(missing, db0, a, p.executed + 1);
  }

  lemma RecordStaysFutile(files: seq<Migration>, db0: Db, s: State, b: Booter, i: nat, k: nat)
    requires IsFutile(files, db0, s, i, k) && Enabled(s, RecordApplied(b)) && FutileAt(ToApply(files, db0), i, k)
    ensures var t := Next(files, s, RecordApplied(b)); t.db == db0 && FutilePhase(files, db0, t, b, i, k)
  {
    var missing, p := ToApply(files, db0), s.booters[b];
    assert FutilePhase(files, db0, s, b, i, k);
    var a := |missing| - |p.rest|;
    assert p.rest[0] == missing[a] && p.rest[1..] == missing[a + 1..];
    OneMigrationMore(missing, db0, a);
  }

  lemma ActorStaysFutile(files: seq<Migration>, db0: Db, s: State, e: Event, i: nat, k: nat)
    requires IsFutile(files, db0, s, i, k) && Enabled(s, e) && FutileAt(ToApply(files, db0), i, k)
    ensures var t := Next(files, s, e); t.db == db0 && FutilePhase(files, db0, t, e.b, i, k)
  {
    if e.b in s.booters {
      assert FutilePhase(files, db0, s, e.b, i, k);
    }
    if e.ExecuteStatement? {
      StatementStaysFutile(files, db0, s, e.b, i, k);
    } else if e.RecordApplied? {
      RecordStaysFutile(files, db0, s, e.b, i, k);
    } else if PhaseOf(s, e.b).Applying? {
      NotKnown(files, db0, |ToApply(files, db0)| - |s.booters[e.b].rest|);
    } else if e.Reread? {
      PartlyEnds(files, db0);
      assert ToApply(files, db0)[0..] == ToApply(files, db0);
    }
  }

  lemma FutileStep(files: seq<Migration>, db0: Db, s: State, e: Event, i: nat, k: nat)
    requires IsFutile(files, db0, s, i, k) && Enabled(s, e) && FutileAt(ToApply(files, db0), i, k)
    ensures IsFutile(files, db0, Next(files, s, e), i, k)
  {
    var t := Next(files, s, e);
    ActorStaysFutile(files, db0, s, e, i, k);
    forall c | c in t.booters ensures FutilePhase(files, db0, t, c, i, k) {
      if c != e.b {
        OthersKeepLock(files, s, e, c);
        OthersStayFutile(files, db0, s, e, c, i, k);
      }
    }
  }

  lemma {:induction false} StaysFutile(files: seq<Migration>, db0: Db, states: seq<State>, events: seq<Event>, i: nat, k: nat, n: nat)
    requires IsRun(files, db0, states, events) && n < |states| && FutileAt(ToApply(files, db0), i, k)
    ensures IsFutile(files, db0, states[n], i, k)
  {
    if n > 0 {
      StaysFutile(files, db0, states, events, i, k, n - 1);
      FutileStep(files, db0, states[n - 1], events[n - 1], i, k);
    }
  }

  /**
   * In every reachable state the database is the old one or the completely migrated one, if and only if no pending
   * statement ends the transaction, or none can take effect. Otherwise some call fails and leaves part of its work.
   */
  lemma AllOrNothingIff(files: seq<Migration>, db0: Db)
    ensures (forall s :: Reaches(files, db0, s) ==> s.db == db0 || s.db == Migrated(files, db0)) <==>
            KeepsTransaction(files, db0) || IsStillborn(ToApply(files, db0))
    ensures LeavesPart(files, db0) <==> !KeepsTransaction(files, db0) && !IsStillborn(ToApply(files, db0))
  {
    if KeepsTransaction(files, db0) {
      SoundIff(files, db0);
    } else if i, k :| FutileAt(ToApply(files, db0), i, k) {
      forall s | Reaches(files, db0, s) ensures s.db == db0 {
        var states, events :| IsRun(files, db0, states, events) && states[|events|] == s;
        StaysFutile(files, db0, states, events, i, k, |events|);
      }
    } else {
      var i, k :| EndsTransaction(ToApply(files, db0), i, k);
      i, k := FirstControl(ToApply(files, db0), i, k);
      PartIsLeft(files, db0, i, k);
    }
  }
}
