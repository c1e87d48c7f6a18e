/** Export and import of the whole identity store, row by row and membership chunk by chunk. */
module IdentityReplication {
  import opened Wrappers
  import opened IdentityStore

  datatype ImportMode = InsertMissing | Upsert

  datatype Snapshot = Snapshot(
    users: seq<(Id, User)>,
    groups: seq<(Id, Entry)>,
    roles: seq<(Id, Entry)>,
    userGroups: seq<(Id, Id)>,
    userRoles: seq<(Id, Id)>)

  // ------------------------------------------------------------------ rows

  /** Some other row holds one of the unique keys of this one. */
  predicate UserClash(users: Users, id: Id, row: User) {
    exists other ::
      && other in users && other != id
      && (users[other].username == row.username || (users[other].conn == row.conn && users[other].externalId == row.externalId))
  }

  predicate EntryClash(entries: Entries, id: Id, row: Entry) {
    exists other ::
      && other in entries && other != id && entries[other].conn == row.conn
      && (entries[other].externalId == row.externalId || entries[other].name == row.name)
  }

  /** A clash is exactly what would break the unique keys of the table. */
  lemma UserClashMeans(users: Users, id: Id, row: User)
    requires UsersUnique(users)
    ensures UserClash(users, id, row) <==> !UsersUnique(users[id := row])
  {
    var after := users[id := row];
    if UserClash(users, id, row) {
      var other :| other in users && other != id
        && (users[other].username == row.username || (users[other].conn == row.conn && users[other].externalId == row.externalId));
      assert after[other] == users[other] && after[id] == row;
    } else {
      assert forall other :: other in users && other != id ==> after[other] == users[other];
    }
  }

  lemma EntryClashMeans(entries: Entries, id: Id, row: Entry)
    requires EntriesUnique(entries)
    ensures EntryClash(entries, id, row) <==> !EntriesUnique(entries[id := row])
  {
    var after := entries[id := row];
    if EntryClash(entries, id, row) {
      var other :| other in entries && other != id && entries[other].conn == row.conn
        && (entries[other].externalId == row.externalId || entries[other].name == row.name);
      assert after[other] == entries[other] && after[id] == row;
    } else {
      assert forall other :: other in entries && other != id ==> after[other] == entries[other];
    }
  }

  /** What an upsert import overwrites. */
  function MergeUser(current: User, row: User): User {
    current.(username := row.username, email := row.email, displayName := row.displayName,
             passwordHash := row.passwordHash, active := row.active)
  }

  function MergeEntry(current: Entry, row: Entry): Entry {
    current.(name := row.name)
  }

  /** One table's key check and merge, so that the three row loops can share their laws. */
  datatype Table<!T> = Table(clash: (map<Id, T>, Id, T) -> bool, merge: (T, T) -> T)

  const USER_TABLE: Table<User> := Table((users, id, row) => UserClash(users, id, row), (a, b) => MergeUser(a, b))
  const ENTRY_TABLE: Table<Entry> := Table((entries, id, row) => EntryClash(entries, id, row), (a, b) => MergeEntry(a, b))

  /** Import one row; existing is the set of ids read before the loop. None is a thrown constraint error. */
  function ImportRow<T>(table: Table<T>, rows: map<Id, T>, existing: set<Id>, item: (Id, T), mode: ImportMode): Option<map<Id, T>> {
    var (id, row) := item;
    if id !in existing then
      if id in rows || table.clash(rows, id, row) then None else Some(rows[id := row])
    else if mode == Upsert && id in rows then
      var merged := table.merge(rows[id], row);
      if table.clash(rows, id, merged) then None else Some(rows[id := merged])
    else Some(rows)
  }

  function ImportRows<T>(table: Table<T>, rows: map<Id, T>, existing: set<Id>, items: seq<(Id, T)>, mode: ImportMode): Option<map<Id, T>> {
    if items == [] then Some(rows)
    else
      match ImportRows(table, rows, existing, items[..|items| - 1], mode)
      case None => None
      case Some(before) => ImportRow(table, before, existing, items[|items| - 1], mode)
  }

  /** The list holds rows of the map, each at most once. */
  ghost predicate Lists<T>(rows: map<Id, T>, items: seq<(Id, T)>) {
    && (forall k :: 0 <= k < |items| ==> items[k].0 in rows && rows[items[k].0] == items[k].1)
    && (forall i, j :: 0 <= i < j < |items| ==> items[i].0 != items[j].0)
  }

  ghost function IdsOf<T>(items: seq<(Id, T)>): set<Id> {
    set k | 0 <= k < |items| :: items[k].0
  }

  ghost predicate SubMap<T>(a: map<Id, T>, b: map<Id, T>) {
    forall id :: id in a ==> id in b && a[id] == b[id]
  }

  /** Rows of the map clash with nothing in it, and merging a row with itself changes nothing. */
  ghost predicate Clean<T(!new)>(table: Table<T>, rows: map<Id, T>) {
    && (forall id :: id in rows ==> table.merge(rows[id], rows[id]) == rows[id])
    && (forall part, id :: SubMap(part, rows) && id in rows ==> !table.clash(part, id, rows[id]))
  }

  lemma UsersAreClean(users: Users)
    requires UsersUnique(users)
    ensures Clean(USER_TABLE, users)
  {
  }

  lemma EntriesAreClean(entries: Entries)
    requires EntriesUnique(entries)
    ensures Clean(ENTRY_TABLE, entries)
  {
  }

  ghost function Restrict<T>(rows: map<Id, T>, ids: set<Id>): map<Id, T> {
    map id | id in rows && id in ids :: rows[id]
  }

  lemma IdsOfAppend<T>(init: seq<(Id, T)>, last: (Id, T))
    ensures IdsOf(init + [last]) == IdsOf(init) + {last.0}
  {
    var items := init + [last];
    forall id | id in IdsOf(init) ensures id in IdsOf(items) {
      var k :| 0 <= k < |init| && init[k].0 == id;
      assert items[k].0 == id;
    }
    assert items[|init|].0 == last.0;
  }

  lemma RestrictGrows<T>(rows: map<Id, T>, init: seq<(Id, T)>, last: (Id, T))
    requires Lists(rows, init + [last])
    ensures Lists(rows, init)
    ensures var before := Restrict(rows, IdsOf(init));
            SubMap(before, rows) && last.0 !in before && last.0 in rows && rows[last.0] == last.1 &&
            Restrict(rows, IdsOf(init + [last])) == before[last.0 := last.1]
  {
    var items := init + [last];
    assert items[..|init|] == init && items[|init|] == last;
    forall k | 0 <= k < |init| ensures init[k].0 in rows && rows[init[k].0] == init[k].1 && init[k].0 != last.0 {
      assert items[k] == init[k];
    }
    forall i, j | 0 <= i < j < |init| ensures init[i].0 != init[j].0 {
      assert items[i] == init[i] && items[j] == init[j];
    }
    IdsOfAppend(init, last);
  }

  lemma {:induction false} RowsIntoEmpty<T(!new)>(table: Table<T>, rows: map<Id, T>, items: seq<(Id, T)>, mode: ImportMode)
    requires Clean(table, rows) && Lists(rows, items)
    ensures ImportRows(table, map[], {}, items, mode) == Some(Restrict(rows, IdsOf(items)))
  {
    if items != [] {
      var init, last := items[..|items| - 1], items[|items| - 1];
      assert items == init + [last];
      RestrictGrows(rows, init, last);
      RowsIntoEmpty(table, rows, init, mode);
      assert !table.clash(Restrict(rows, IdsOf(init)), last.0, rows[last.0]);
    }
  }

  lemma {:induction false} RowsIntoSelf<T(!new)>(table: Table<T>, rows: map<Id, T>, items: seq<(Id, T)>, mode: ImportMode)
    requires Clean(table, rows) && Lists(rows, items)
    ensures ImportRows(table, rows, rows.Keys, items, mode) == Some(rows)
  {
    if items != [] {
      var init, last := items[..|items| - 1], items[|items| - 1];
      RowsIntoSelf(table, rows, init, mode);
      assert SubMap(rows, rows);
      assert rows[last.0 := rows[last.0]] == rows;
    }
  }

  /** Whatever is imported, insert-missing leaves every row that was there as it was. */
  lemma {:induction false} InsertMissingKeepsRows<T>(table: Table<T>, rows: map<Id, T>, items: seq<(Id, T)>)
    ensures var r := ImportRows(table, rows, rows.Keys, items, InsertMissing);
            r.Some? ==> SubMap(rows, r.value)
  {
    if items != [] {
      InsertMissingKeepsRows(table, rows, items[..|items| - 1]);
    }
  }

  /** A row is refused exactly if its id was issued meanwhile, or writing it would break the unique keys. */
  lemma RefusedIff(users: Users, existing: set<Id>, item: (Id, User), mode: ImportMode)
    requires UsersUnique(users)
    ensures var r := ImportRow(USER_TABLE, users, existing, item, mode);
            var (id, row) := item;
            if id !in existing then r == if id in users || !UsersUnique(users[id := row]) then None else Some(users[id := row])
            else if mode == Upsert && id in users then
              var merged := User(users[id].conn, users[id].externalId, users[id].origin, row.username, row.email, row.displayName,
                                 row.passwordHash, row.active, users[id].createdAt);
              r == if UsersUnique(users[id := merged]) then Some(users[id := merged]) else None
            else r == Some(users)
  {
    var (id, row) := item;
    UserClashMeans(users, id, row);
    if id in users {
      UserClashMeans(users, id, MergeUser(users[id], row));
    }
  }

  lemma EntryRefusedIff(entries: Entries, existing: set<Id>, item: (Id, Entry), mode: ImportMode)
    requires EntriesUnique(entries)
    ensures var r := ImportRow(ENTRY_TABLE, entries, existing, item, mode);
            var (id, row) := item;
            if id !in existing then r == if id in entries || !EntriesUnique(entries[id := row]) then None else Some(entries[id := row])
            else if mode == Upsert && id in entries then
              var merged := entries[id].(name := row.name);
              r == if EntriesUnique(entries[id := merged]) then Some(entries[id := merged]) else None
            else r == Some(entries)
  {
    var (id, row) := item;
    EntryClashMeans(entries, id, row);
    if id in entries {
      EntryClashMeans(entries, id, MergeEntry(entries[id], row));
    }
  }

  /** What an import makes of a row: a new one as listed; an old one merged in upsert mode, untouched otherwise. */
  ghost function ImportedRow<T>(table: Table<T>, rows: map<Id, T>, item: (Id, T), mode: ImportMode): T {
    if item.0 !in rows then item.1 else if mode == Upsert then table.merge(rows[item.0], item.1) else rows[item.0]
  }

  ghost predicate NamedOnce<T>(items: seq<(Id, T)>) {
    forall i, j :: 0 <= i < j < |items| ==> items[i].0 != items[j].0
  }

  lemma {:induction false} ImportedRows<T>(table: Table<T>, rows: map<Id, T>, items: seq<(Id, T)>, mode: ImportMode)
    requires NamedOnce(items) && ImportRows(table, rows, rows.Keys, items, mode).Some?
    ensures var after := ImportRows(table, rows, rows.Keys, items, mode).value;
            && after.Keys == rows.Keys + IdsOf(items)
            && (forall id :: id in rows && id !in IdsOf(items) ==> after[id] == rows[id])
            && (forall k :: 0 <= k < |items| ==> items[k].0 in after && after[items[k].0] == ImportedRow(table, rows, items[k], mode))
  {
    if items != [] {
      var init, last := items[..|items| - 1], items[|items| - 1];
      assert items == init + [last];
      assert NamedOnce(init) by {
        forall i, j | 0 <= i < j < |init| ensures init[i].0 != init[j].0 {
          assert items[i] == init[i] && items[j] == init[j];
        }
      }
      ImportedRows(table, rows, init, mode);
      IdsOfAppend(init, last);
      forall k | 0 <= k < |init| ensures init[k].0 != last.0 {
        assert items[k] == init[k];
      }
      assert last.0 !in IdsOf(init);
      assert forall k :: 0 <= k < |init| ==> items[k] == init[k];
    }
  }

  /** An upsert import writes the listed columns of a row that is there and leaves its keys, origin and creation time. */
  lemma MergedColumns(user: User, listedUser: User, entry: Entry, listedEntry: Entry)
    ensures var r := USER_TABLE.merge(user, listedUser);
            && r.username == listedUser.username && r.email == listedUser.email && r.displayName == listedUser.displayName
            && r.passwordHash == listedUser.passwordHash && r.active == listedUser.active
            && r.conn == user.conn && r.externalId == user.externalId && r.origin == user.origin && r.createdAt == user.createdAt
    ensures ENTRY_TABLE.merge(entry, listedEntry) == Entry(entry.conn, entry.externalId, entry.origin, listedEntry.name, entry.createdAt)
  {
  }

  // ------------------------------------------------------------------ memberships

  function SetOf(pairs: seq<(Id, Id)>): Members {
    set m | m in pairs
  }

  predicate Repeated(pairs: seq<(Id, Id)>) {
    exists i, j :: 0 <= i < j < |pairs| && pairs[i] == pairs[j]
  }

  /** One multi-row insert: it fails on a repeated row, an existing row, or a missing end. */
  function InsertPart(members: Members, users: Users, entries: Entries, part: seq<(Id, Id)>): Option<Members> {
    if Repeated(part) || (exists k :: 0 <= k < |part| && (part[k] in members || part[k].0 !in users || part[k].1 !in entries))
    then None
    else Some(members + SetOf(part))
  }

  function InsertParts(members: Members, users: Users, entries: Entries, parts: seq<seq<(Id, Id)>>): Option<Members> {
    if parts == [] then Some(members)
    else
      match InsertParts(members, users, entries, parts[..|parts| - 1])
      case None => None
      case Some(before) => InsertPart(before, users, entries, parts[|parts| - 1])
  }

  function NewPairs(members: Members, pairs: seq<(Id, Id)>): seq<(Id, Id)> {
    if pairs == [] then []
    else NewPairs(members, pairs[..|pairs| - 1]) + (if pairs[|pairs| - 1] in members then [] else [pairs[|pairs| - 1]])
  }

  function Flatten<T>(parts: seq<seq<T>>): seq<T> {
    if parts == [] then [] else Flatten(parts[..|parts| - 1]) + parts[|parts| - 1]
  }

  /** The repository's chunk helper: consecutive parts of the given size, the last one possibly shorter. */
  method Chunk<T>(items: seq<T>, size: nat) returns (parts: seq<seq<T>>)
    requires size >= 1
    ensures Flatten(parts) == items
    ensures forall k :: 0 <= k < |parts| ==> 1 <= |parts[k]| <= size && (k < |parts| - 1 ==> |parts[k]| == size)
  {
    parts := [];
    var i := 0;
    while i < |items|
      invariant 0 <= i
      invariant Flatten(parts) == items[..if i < |items| then i else |items|]
      invariant forall k :: 0 <= k < |parts| ==> 1 <= |parts[k]| <= size && (k < |parts| - 1 ==> |parts[k]| == size)
      invariant i <= |items| ==> parts == [] || |parts[|parts| - 1]| == size
    {
      var end := if i + size < |items| then i + size else |items|;
      var part := items[i..end];
      assert (parts + [part])[..|parts|] == parts;
      assert items[..i] + part == items[..end];
      parts := parts + [part];
      i := i + size;
    }
  }

  lemma {:induction false} NewPairsFilter(members: Members, pairs: seq<(Id, Id)>)
    ensures forall m :: m in NewPairs(members, pairs) <==> m in pairs && m !in members
    ensures !Repeated(pairs) ==> !Repeated(NewPairs(members, pairs))
  {
    if pairs != [] {
      var init, last := pairs[..|pairs| - 1], pairs[|pairs| - 1];
      NewPairsFilter(members, init);
      assert pairs == init + [last];
      if !Repeated(pairs) {
        assert !Repeated(init) by {
          forall i, j | 0 <= i < j < |init| ensures init[i] != init[j] {
            assert pairs[i] != pairs[j];
          }
        }
        assert last !in init by {
          forall k | 0 <= k < |init| ensures init[k] != last {
            assert pairs[k] != pairs[|pairs| - 1];
          }
        }
      }
    }
  }

  /** However new pairs are cut into parts, inserting the parts adds each of them exactly once. */
  lemma {:induction false} PartsCoverNewPairs(members: Members, users: Users, entries: Entries, parts: seq<seq<(Id, Id)>>)
    requires !Repeated(Flatten(parts))
    requires forall m :: m in Flatten(parts) ==> m !in members && m.0 in users && m.1 in entries
    ensures InsertParts(members, users, entries, parts) == Some(members + SetOf(Flatten(parts)))
  {
    if parts == [] {
      assert members + SetOf([]) == members;
    } else {
      var init, last := parts[..|parts| - 1], parts[|parts| - 1];
      var all, before := Flatten(parts), Flatten(init);
      assert all == before + last;
      assert !Repeated(before) by {
        forall i, j | 0 <= i < j < |before| ensures before[i] != before[j] {
          assert all[i] == before[i] && all[j] == before[j];
        }
      }
      assert !Repeated(last) by {
        forall i, j | 0 <= i < j < |last| ensures last[i] != last[j] {
          assert all[|before| + i] == last[i] && all[|before| + j] == last[j];
        }
      }
      forall k | 0 <= k < |last| ensures last[k] !in members + SetOf(before) && last[k].0 in users && last[k].1 in entries {
        assert all[|before| + k] == last[k];
        forall i | 0 <= i < |before| ensures before[i] != last[k] {
          assert all[i] == before[i];
        }
      }
      PartsCoverNewPairs(members, users, entries, init);
      assert members + SetOf(before) + SetOf(last) == members + SetOf(all);
    }
  }

  /** If a part fails, the import stops there; so all parts go in only if no pair lacks an end. */
  lemma {:induction false} InsertedHaveEnds(members: Members, users: Users, entries: Entries, parts: seq<seq<(Id, Id)>>)
    requires InsertParts(members, users, entries, parts).Some?
    ensures forall m :: m in Flatten(parts) ==> m.0 in users && m.1 in entries
  {
    if parts != [] {
      var init, last := parts[..|parts| - 1], parts[|parts| - 1];
      InsertedHaveEnds(members, users, entries, init);
      forall m | m in last ensures m.0 in users && m.1 in entries {
        var k :| 0 <= k < |last| && last[k] == m;
      }
    }
  }

  // ------------------------------------------------------------------ whole stores

  /** The snapshot lists every row and every membership of the store, each once. */
  ghost predicate IsSnapshot(db: Db, s: Snapshot) {
    && Lists(db.users, s.users) && IdsOf(s.users) == db.users.Keys
    && Lists(db.groups, s.groups) && IdsOf(s.groups) == db.groups.Keys
    && Lists(db.roles, s.roles) && IdsOf(s.roles) == db.roles.Keys
    && SetOf(s.userGroups) == db.userGroups && !Repeated(s.userGroups)
    && SetOf(s.userRoles) == db.userRoles && !Repeated(s.userRoles)
  }

  ghost predicate KeysUnique(db: Db) {
    UsersUnique(db.users) && EntriesUnique(db.groups) && EntriesUnique(db.roles)
  }

  /** Every membership has its user and its group or role. */
  ghost predicate NoneDangles(users: Users, entries: Entries, members: Members) {
    forall m :: m in members ==> m.0 in users && m.1 in entries
  }

  /**
   * What an export lists. Its five reads can see five moments; together they then list a store whose keys are
   * unique, but whose memberships may name rows that it lacks.
   */
  ghost predicate IsWhole(db: Db) {
    NoneDangles(db.users, db.groups, db.userGroups) && NoneDangles(db.users, db.roles, db.userRoles)
  }

  lemma StoredIsWhole(db: Db)
    requires SchemaOk(db)
    ensures KeysUnique(db) && IsWhole(db)
  {
    forall m | m in db.userGroups ensures m.0 in db.users && m.1 in db.groups {
      assert (m.0, m.1) in db.userGroups;
    }
    forall m | m in db.userRoles ensures m.0 in db.users && m.1 in db.roles {
      assert (m.0, m.1) in db.userRoles;
    }
  }

  /** The store after importing the rows, before the memberships. */
  function ImportTables(db: Db, s: Snapshot, mode: ImportMode): Option<Db> {
    match ImportRows(ENTRY_TABLE, db.groups, db.groups.Keys, s.groups, mode)
    case None => None
    case Some(groups) =>
      match ImportRows(ENTRY_TABLE, db.roles, db.roles.Keys, s.roles, mode)
      case None => None
      case Some(roles) =>
        match ImportRows(USER_TABLE, db.users, db.users.Keys, s.users, mode)
        case None => None
        case Some(users) => Some(Db(users, groups, roles, db.userGroups, db.userRoles))
  }

  lemma TablesIntoEmpty(db: Db, s: Snapshot, mode: ImportMode)
    requires KeysUnique(db) && IsSnapshot(db, s)
    ensures ImportTables(EMPTY, s, mode) == Some(Db(db.users, db.groups, db.roles, {}, {}))
  {
    UsersAreClean(db.users);
    EntriesAreClean(db.groups);
    EntriesAreClean(db.roles);
    RowsIntoEmpty(ENTRY_TABLE, db.groups, s.groups, mode);
    RowsIntoEmpty(ENTRY_TABLE, db.roles, s.roles, mode);
    RowsIntoEmpty(USER_TABLE, db.users, s.users, mode);
    RestrictToAll(db.groups);
    RestrictToAll(db.roles);
    RestrictToAll(db.users);
    assert EMPTY.groups.Keys == {} && EMPTY.roles.Keys == {} && EMPTY.users.Keys == {};
  }

  lemma RestrictToAll<T>(rows: map<Id, T>)
    ensures Restrict(rows, rows.Keys) == rows
  {
  }

  lemma TablesIntoSelf(db: Db, s: Snapshot, mode: ImportMode)
    requires SchemaOk(db) && IsSnapshot(db, s)
    ensures ImportTables(db, s, mode) == Some(db)
  {
    UsersAreClean(db.users);
    EntriesAreClean(db.groups);
    EntriesAreClean(db.roles);
    RowsIntoSelf(ENTRY_TABLE, db.groups, s.groups, mode);
    RowsIntoSelf(ENTRY_TABLE, db.roles, s.roles, mode);
    RowsIntoSelf(USER_TABLE, db.users, s.users, mode);
  }

  /** Importing the memberships of a store whose rows are all there adds exactly the missing ones. */
  lemma MembersComplete(users: Users, entries: Entries, stored: Members, members: Members, pairs: seq<(Id, Id)>, parts: seq<seq<(Id, Id)>>)
    requires WithinSource(users, entries, members) && stored <= members
    requires SetOf(pairs) == members && !Repeated(pairs) && Flatten(parts) == NewPairs(stored, pairs)
    ensures InsertParts(stored, users, entries, parts) == Some(members)
  {
    NewPairsFilter(stored, pairs);
    forall m | m in NewPairs(stored, pairs) ensures m !in stored && m.0 in users && m.1 in entries {
      assert m in SetOf(pairs);
      assert (m.0, m.1) in members;
    }
    PartsCoverNewPairs(stored, users, entries, parts);
    forall m | m in members ensures m in stored + SetOf(NewPairs(stored, pairs)) {
      assert m in SetOf(pairs);
    }
    forall m | m in NewPairs(stored, pairs) ensures m in members {
      assert m in SetOf(pairs);
    }
    assert stored + SetOf(NewPairs(stored, pairs)) == members;
  }

  lemma {:induction false} NothingFiltered(pairs: seq<(Id, Id)>)
    ensures NewPairs({}, pairs) == pairs
  {
    if pairs != [] {
      NothingFiltered(pairs[..|pairs| - 1]);
      assert pairs == pairs[..|pairs| - 1] + [pairs[|pairs| - 1]];
    }
  }

  /** Memberships go into a store that has none, however they are cut, if and only if none of them dangles. */
  lemma MembersIntoEmptyIff(users: Users, entries: Entries, members: Members, pairs: seq<(Id, Id)>, parts: seq<seq<(Id, Id)>>)
    requires SetOf(pairs) == members && !Repeated(pairs) && Flatten(parts) == NewPairs({}, pairs)
    ensures InsertParts({}, users, entries, parts) == if NoneDangles(users, entries, members) then Some(members) else None
  {
    NothingFiltered(pairs);
    assert forall m :: m in pairs <==> m in members by {
      assert forall m :: m in pairs <==> m in SetOf(pairs);
    }
    if NoneDangles(users, entries, members) {
      PartsCoverNewPairs({}, users, entries, parts);
      assert {} + members == members;
    } else if InsertParts({}, users, entries, parts).Some? {
      InsertedHaveEnds({}, users, entries, parts);
    }
  }
}
