/** The short-lived cache of the settings row: reads in flight, writes, invalidations, and how old a served row can be. */
module SettingsCache {
  import opened Wrappers

  /** A stored row, and when it was written. A row is named by its place in the history of writes. */
  datatype Version = Version(content: int, since: int)

  datatype Entry = Entry(version: nat, expiresAt: int)

  /** A read that missed: its clock reading, and then also the row it got from the database. */
  datatype Reader = Missed(now: int) | HasRow(now: int, version: nat)

  datatype State = State(clock: int, history: seq<Version>, entry: Option<Entry>, readers: map<nat, Reader>)

  datatype Event =
    | Tick(to: int)
    | Write(content: int)
    | Invalidate
    | Hit
    | Miss(r: nat)
    | ReadRow(r: nat)
    | Fill(r: nat)

  predicate IsLive(s: State) {
    s.entry.Some? && s.clock < s.entry.value.expiresAt
  }

  predicate Enabled(s: State, e: Event) {
    match e
    case Tick(to) => s.clock <= to
    case Write(_) => true
    case Invalidate => true
    case Hit => IsLive(s)
    case Miss(r) => !IsLive(s) && r !in s.readers
    case ReadRow(r) => r in s.readers && s.readers[r].Missed? && s.history != []
    case Fill(r) => r in s.readers && s.readers[r].HasRow?
  }

  function Next(ttl: int, s: State, e: Event): State
    requires Enabled(s, e)
  {
    match e
    case Tick(to) => s.(clock := to)
    case Write(content) => s.(history := s.history + [Version(content, s.clock)])
    case Invalidate => s.(entry := None)
    case Hit => s
    case Miss(r) => s.(readers := s.readers[r := Missed(s.clock)])
    case ReadRow(r) => s.(readers := s.readers[r := HasRow(s.readers[r].now, |s.history| - 1)])
    case Fill(r) =>
      s.(entry := Some(Entry(s.readers[r].version, s.readers[r].now + ttl)), readers := s.readers - {r})
  }

  /** What the events do to clock, entry and reads in flight. */
  lemma EventsMean(ttl: int, s: State, to: int, r: nat)
    ensures Enabled(s, Tick(to)) <==> s.clock <= to
    ensures s.clock <= to ==> Next(ttl, s, Tick(to)) == State(to, s.history, s.entry, s.readers)
    ensures Enabled(s, Miss(r)) <==> r !in s.readers && (s.entry.None? || s.entry.value.expiresAt <= s.clock)
    ensures Enabled(s, Miss(r)) ==> Next(ttl, s, Miss(r)) == State(s.clock, s.history, s.entry, s.readers[r := Missed(s.clock)])
    ensures Enabled(s, ReadRow(r)) <==> r in s.readers && s.readers[r].Missed? && s.history != []
    ensures Enabled(s, Fill(r)) <==> r in s.readers && s.readers[r].HasRow?
    ensures Enabled(s, Fill(r)) ==>
              Next(ttl, s, Fill(r)) ==
              State(s.clock, s.history, Some(Entry(s.readers[r].version, s.readers[r].now + ttl)), s.readers - {r})
  {
  }

  predicate IsRun(ttl: int, states: seq<State>, events: seq<Event>) {
    |states| == |events| + 1 &&
    forall k :: 0 <= k < |events| ==> Enabled(states[k], events[k]) && states[k + 1] == Next(ttl, states[k], events[k])
  }

  function Initial(clock: int, content: int): State {
    State(clock, [Version(content, clock)], None, map[])
  }

  /** The version was read at or after this moment, hence was still stored then. */
  predicate StoredSince(history: seq<Version>, version: nat, u: int) {
    version < |history| && (version + 1 < |history| ==> u <= history[version + 1].since)
  }

  predicate Inv(ttl: int, s: State) {
    s.history != [] &&
    (forall i :: 0 <= i < |s.history| ==> s.history[i].since <= s.clock) &&
    (s.entry.Some? ==>
       StoredSince(s.history, s.entry.value.version, s.entry.value.expiresAt - ttl) && s.entry.value.expiresAt - ttl <= s.clock) &&
    (forall r :: r in s.readers ==> s.readers[r].now <= s.clock) &&
    (forall r :: r in s.readers && s.readers[r].HasRow? ==> StoredSince(s.history, s.readers[r].version, s.readers[r].now))
  }

  lemma StepKeepsInv(ttl: int, s: State, e: Event)
    requires Inv(ttl, s) && Enabled(s, e)
    ensures Inv(ttl, Next(ttl, s, e))
  {
  }

  lemma {:induction false} Reachable(ttl: int, states: seq<State>, events: seq<Event>, k: nat)
    requires IsRun(ttl, states, events) && k < |states| && Inv(ttl, states[0])
    ensures Inv(ttl, states[k])
  {
    if k > 0 {
      Reachable(ttl, states, events, k - 1);
      StepKeepsInv(ttl, states[k - 1], events[k - 1]);
    }
  }

  /**
   * A row served from the cache was the stored row at some moment less than a TTL ago, however reads,
   * writes and invalidations interleave, even when a read in flight refilled the cache after an invalidation.
   */
  lemma BoundedStaleness(ttl: int, clock: int, content: int, states: seq<State>, events: seq<Event>, k: nat) returns (u: int)
    requires IsRun(ttl, states, events) && states[0] == Initial(clock, content)
    requires k < |events| && events[k] == Hit
    ensures states[k].clock - ttl < u <= states[k].clock
    ensures var history, version := states[k].history, states[k].entry.value.version;
            && version < |history| && history[version].since <= u
            && (version + 1 < |history| ==> u <= history[version + 1].since)
  {
    Reachable(ttl, states, events, k);
    var s := states[k];
    var version := s.entry.value.version;
    u := if version + 1 < |s.history| then s.history[version + 1].since else s.clock;
    Ordered(ttl, clock, content, states, events, k, version);
  }

  /** The history is in the order of time. */
  lemma {:induction false} Ordered(ttl: int, clock: int, content: int, states: seq<State>, events: seq<Event>, k: nat, i: nat)
    requires IsRun(ttl, states, events) && states[0] == Initial(clock, content) && k < |states| && i < |states[k].history|
    ensures i + 1 < |states[k].history| ==> states[k].history[i].since <= states[k].history[i + 1].since
    decreases k
  {
    if k > 0 {
      Reachable(ttl, states, events, k - 1);
      if i < |states[k - 1].history| {
        Ordered(ttl, clock, content, states, events, k - 1, i);
      }
    }
  }

  /** The TTL bound is attained: a refill by a read in flight serves a row that a finished write and invalidation had replaced. */
  lemma StaleAfterInvalidation(ttl: int)
    requires ttl > 1
    ensures exists states: seq<State>, events: seq<Event> ::
              IsRun(ttl, states, events) && states[0] == Initial(0, 0) &&
              events == [Miss(0), ReadRow(0), Write(1), Invalidate, Fill(0), Tick(ttl - 1), Hit] &&
              states[6].entry.value.version == 0 && |states[6].history| == 2
  {
    var s0 := Initial(0, 0);
    var s1 := Next(ttl, s0, Miss(0));
    var s2 := Next(ttl, s1, ReadRow(0));
    var s3 := Next(ttl, s2, Write(1));
    var s4 := Next(ttl, s3, Invalidate);
    var s5 := Next(ttl, s4, Fill(0));
    var s6 := Next(ttl, s5, Tick(ttl - 1));
    var states := [s0, s1, s2, s3, s4, s5, s6, s6];
    var events := [Miss(0), ReadRow(0), Write(1), Invalidate, Fill(0), Tick(ttl - 1), Hit];
    assert IsRun(ttl, states, events);
  }

  // ---- when the next reads are exactly current ----

  predicate IsCurrent(s: State, version: nat) {
    version + 1 == |s.history|
  }

  /** No entry that could be served, and no read in flight that could fill in such an entry, holds a replaced row. */
  predicate NothingStale(ttl: int, s: State) {
    (s.entry.Some? ==> IsCurrent(s, s.entry.value.version) || s.entry.value.expiresAt <= s.clock) &&
    forall r :: r in s.readers && s.readers[r].HasRow? ==>
      IsCurrent(s, s.readers[r].version) || s.readers[r].now + ttl <= s.clock
  }

  predicate NoWrites(events: seq<Event>) {
    forall k :: 0 <= k < |events| ==> !events[k].Write?
  }

  predicate ServesStale(s: State) {
    IsLive(s) && !IsCurrent(s, s.entry.value.version)
  }

  ghost predicate ServesOnlyCurrent(ttl: int, s: State) {
    forall states, events :: IsRun(ttl, states, events) && states[0] == s && NoWrites(events) ==>
      !ServesStale(states[|events|])
  }

  lemma {:induction false} NothingStaleLasts(ttl: int, states: seq<State>, events: seq<Event>, k: nat)
    requires IsRun(ttl, states, events) && NoWrites(events) && k < |states| && NothingStale(ttl, states[0])
    ensures NothingStale(ttl, states[k])
  {
    if k > 0 {
      NothingStaleLasts(ttl, states, events, k - 1);
      StepKeepsNothingStale(ttl, states[k - 1], events[k - 1]);
    }
  }

  lemma StepKeepsNothingStale(ttl: int, s: State, e: Event)
    requires NothingStale(ttl, s) && Enabled(s, e) && !e.Write?
    ensures NothingStale(ttl, Next(ttl, s, e))
  {
  }

  /** Until the next write, every served row is the stored one exactly when nothing stale is held, in the cache or in flight. */
  lemma CurrentIffNothingStale(ttl: int, s: State)
    ensures ServesOnlyCurrent(ttl, s) <==> NothingStale(ttl, s)
  {
    if NothingStale(ttl, s) {
      forall states, events | IsRun(ttl, states, events) && states[0] == s && NoWrites(events)
        ensures !ServesStale(states[|events|])
      {
        NothingStaleLasts(ttl, states, events, |events|);
      }
    } else if s.entry.Some? && !(IsCurrent(s, s.entry.value.version) || s.entry.value.expiresAt <= s.clock) {
      assert IsRun(ttl, [s], []) && NoWrites([]) && ServesStale([s][0]);
    } else {
      var r :| r in s.readers && s.readers[r].HasRow? && !IsCurrent(s, s.readers[r].version) && s.clock < s.readers[r].now + ttl;
      var t := Next(ttl, s, Fill(r));
      var states, events := [s, t], [Fill(r)];
      assert IsRun(ttl, states, events) && NoWrites(events) && ServesStale(states[1]);
    }
  }

  /** An invalidation makes the next reads current unless a read in flight has fetched a row that was replaced meanwhile. */
  lemma InvalidationSuffices(ttl: int, s: State)
    requires forall r :: r in s.readers && s.readers[r].HasRow? ==> IsCurrent(s, s.readers[r].version)
    ensures ServesOnlyCurrent(ttl, Next(ttl, s, Invalidate))
  {
    CurrentIffNothingStale(ttl, Next(ttl, s, Invalidate));
  }

  // ---- the cache itself ----

  datatype CachedRow = CachedRow(row: int, expiresAt: int)

  /** The mutable entry of one client, with the run it has been through. A TTL of zero or less switches it off. */
  class Cache {
    const ttl: int
    var cached: Option<CachedRow>
    ghost var states: seq<State>
    ghost var events: seq<Event>

    ghost function Now(): State
      requires states != []
      reads this
    {
      states[|states| - 1]
    }

    /** The entry is the one of the last state of a run of the protocol. */
    ghost predicate Valid()
      reads this
    {
      && IsRun(ttl, states, events) && states[0].history != [] && states[0] == Initial(states[0].clock, states[0].history[0].content)
      && states[|states| - 1].history != []
      && var s := states[|states| - 1];
         match s.entry
         case None => cached == None
         case Some(entry) =>
           entry.version < |s.history| && cached == Some(CachedRow(s.history[entry.version].content, entry.expiresAt))
    }

    /** The run goes on by one event. */
    twostate predicate Stepped(e: Event)
      reads this
    {
      && old(Valid()) && Valid()
      && Enabled(old(Now()), e)
      && states == old(states) + [Next(ttl, old(Now()), e)] && events == old(events) + [e]
    }

    constructor (ttl: int, clock: int, content: int)
      ensures Valid() && this.ttl == ttl && states == [Initial(clock, content)] && events == []
    {
      this.ttl := ttl;
      cached := None;
      states, events := [Initial(clock, content)], [];
    }

    /** What happens elsewhere: time passes, the row is written, the database answers a read in flight. */
    ghost method Elsewhere(e: Event)
      requires Valid() && Enabled(Now(), e) && (e.Tick? || e.Write? || e.ReadRow?)
      modifies this`states, this`events
      ensures Stepped(e) && cached == old(cached)
    {
      ghost var before := Now();
      states, events := states + [Next(ttl, before, e)], events + [e];
    }

    /**
     * The first half of a read, up to the await. A hit serves a row that was stored less than a
     * TTL ago; otherwise the read goes to the database.
     */
    method Lookup(r: nat, now: int) returns (hit: Option<int>, ghost u: int)
      requires Valid() && ttl > 0 && now == Now().clock && r !in Now().readers
      modifies this`states, this`events
      ensures hit.Some? <==> IsLive(old(Now()))
      ensures Stepped(if hit.Some? then Event.Hit else Event.Miss(r))
      ensures hit.Some? ==>
                && now - ttl < u <= now
                && var s := old(Now());
                   var version := s.entry.value.version;
                   && version < |s.history| && hit.value == s.history[version].content && s.history[version].since <= u
                   && (version + 1 < |s.history| ==> u <= s.history[version + 1].since)
    {
      ghost var before, k := Now(), |events|;
      u := now;
      if cached.Some? && now < cached.value.expiresAt {
        hit := Some(cached.value.row);
        states, events := states + [Next(ttl, before, Event.Hit)], events + [Event.Hit];
        u := BoundedStaleness(ttl, states[0].clock, states[0].history[0].content, states, events, k);
        return;
      }
      hit := None;
      states, events := states + [Next(ttl, before, Event.Miss(r))], events + [Event.Miss(r)];
    }

    /** The second half, after the await: what the database answered goes into the cache, with the expiry of the first half. */
    method Fill(r: nat, started: int, row: int)
      requires Valid() && r in Now().readers && Now().readers[r].HasRow? && Now().readers[r].now == started
      requires Now().readers[r].version < |Now().history| && Now().history[Now().readers[r].version].content == row
      modifies this
      ensures Stepped(Event.Fill(r))
    {
      ghost var before := Now();
      cached := Some(CachedRow(row, started + ttl));
      states, events := states + [Next(ttl, before, Event.Fill(r))], events + [Event.Fill(r)];
    }

    method Invalidate()
      requires Valid()
      modifies this
      ensures Stepped(Event.Invalidate)
    {
      ghost var before := Now();
      cached := None;
      states, events := states + [Next(ttl, before, Event.Invalidate)], events + [Event.Invalidate];
    }

    /** A whole read with nothing else running, given what the database holds. */
    method Get(r: nat, now: int, stored: int) returns (row: int)
      requires Valid() && now == Now().clock && r !in Now().readers
      requires stored == Now().history[|Now().history| - 1].content
      modifies this
      ensures Valid() && Now().history == old(Now()).history
      ensures ttl <= 0 ==> row == stored && cached == old(cached)
      ensures ttl > 0 && !IsLive(old(Now())) ==> row == stored && cached == Some(CachedRow(stored, now + ttl))
      ensures ttl > 0 && IsLive(old(Now())) ==> old(cached).Some? && row == old(cached).value.row && cached == old(cached)
    {
      if ttl <= 0 {
        return stored;
      }
      var hit, _ := Lookup(r, now);
      if hit.Some? {
        return hit.value;
      }
      Elsewhere(ReadRow(r));
      Fill(r, now, stored);
      return stored;
    }
  }
}
