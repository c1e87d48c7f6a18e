/**
 * A pool of runners that share one index into a list of items. Between two awaits a runner tests the index,
 * takes the item and advances the index, so each of these is one step here.
 */
module RunPool {
  import opened Arithmetic

  datatype Runner = Idle | Working(item: nat) | Finished | Failed(item: nat)

  datatype State = State(index: nat, runners: seq<Runner>, completed: seq<nat>)

  datatype Event = Take(r: nat) | Complete(r: nat) | WorkerThrows(r: nat) | Finish(r: nat)

  predicate Enabled(n: nat, s: State, e: Event) {
    e.r < |s.runners| &&
    match e
    case Take(r) => s.runners[r].Idle? && s.index < n
    case Complete(r) => s.runners[r].Working?
    case WorkerThrows(r) => s.runners[r].Working?
    case Finish(r) => s.runners[r].Idle? && s.index >= n
  }

  function Next(n: nat, s: State, e: Event): State
    requires Enabled(n, s, e)
  {
    match e
    case Take(r) => s.(index := s.index + 1, runners := s.runners[r := Working(s.index)])
    case Complete(r) => s.(runners := s.runners[r := Idle], completed := s.completed + [s.runners[r].item])
    case WorkerThrows(r) => s.(runners := s.runners[r := Failed(s.runners[r].item)])
    case Finish(r) => s.(runners := s.runners[r := Finished])
  }

  function Initial(n: nat, concurrency: nat): State {
    State(0, seq(Min(concurrency, n), r => Idle), [])
  }

  predicate IsRun(n: nat, concurrency: nat, states: seq<State>, events: seq<Event>) {
    |states| == |events| + 1 && states[0] == Initial(n, concurrency) &&
    forall k :: 0 <= k < |events| ==> Enabled(n, states[k], events[k]) && states[k + 1] == Next(n, states[k], events[k])
  }

  predicate Holds(r: Runner, item: nat) {
    (r.Working? || r.Failed?) && r.item == item
  }

  predicate HeldBy(s: State, r: nat, item: nat) {
    r < |s.runners| && Holds(s.runners[r], item)
  }

  /** Every taken item is completed or with a runner, never both, never twice; nothing else is. */
  ghost predicate Inv(n: nat, concurrency: nat, s: State) {
    |s.runners| == Min(concurrency, n) && s.index <= n &&
    (forall i, j :: 0 <= i < j < |s.completed| ==> s.completed[i] != s.completed[j]) &&
    (forall item :: item in s.completed ==> item < s.index) &&
    (forall r: nat, item: nat :: HeldBy(s, r, item) ==> item < s.index && item !in s.completed) &&
    (forall q: nat, r: nat, item: nat :: HeldBy(s, q, item) && HeldBy(s, r, item) ==> q == r) &&
    (forall item :: 0 <= item < s.index && item !in s.completed ==> exists r :: HeldBy(s, r, item)) &&
    (forall r :: 0 <= r < |s.runners| && s.runners[r].Finished? ==> s.index == n)
  }

  lemma NewHolder(n: nat, concurrency: nat, s: State, e: Event)
    requires Inv(n, concurrency, s) && Enabled(n, s, e)
    ensures var t := Next(n, s, e); forall q: nat, item: nat :: HeldBy(t, q, item) <==>
              (if q == e.r then (e.Take? && item == s.index) || (e.WorkerThrows? && HeldBy(s, q, item)) else HeldBy(s, q, item))
  {
  }

  lemma StepKeepsInv(n: nat, concurrency: nat, s: State, e: Event)
    requires Inv(n, concurrency, s) && Enabled(n, s, e)
    ensures Inv(n, concurrency, Next(n, s, e))
  {
    var t := Next(n, s, e);
    NewHolder(n, concurrency, s, e);
    if s.runners[e.r].Working? {
      assert HeldBy(s, e.r, s.runners[e.r].item);
    }
    forall item | 0 <= item < t.index && item !in t.completed ensures exists r :: HeldBy(t, r, item) {
      if e.Take? && item == s.index {
        assert HeldBy(t, e.r, item);
      } else {
        assert item !in s.completed;
        var r :| HeldBy(s, r, item);
        assert HeldBy(t, r, item);
      }
    }
  }

  lemma {:induction false} Reachable(n: nat, concurrency: nat, states: seq<State>, events: seq<Event>, k: nat)
    requires IsRun(n, concurrency, states, events) && k < |states|
    ensures Inv(n, concurrency, states[k])
  {
    if k > 0 {
      Reachable(n, concurrency, states, events, k - 1);
      StepKeepsInv(n, concurrency, states[k - 1], events[k - 1]);
    }
  }

  /** An item has been taken exactly if it is completed or with a runner; never both, and never with two runners. */
  lemma TakenItemsAreAccountedFor(n: nat, concurrency: nat, states: seq<State>, events: seq<Event>, k: nat, item: nat)
    requires IsRun(n, concurrency, states, events) && k < |states|
    ensures item < states[k].index <==> item in states[k].completed || exists r: nat :: HeldBy(states[k], r, item)
    ensures item in states[k].completed ==> forall r: nat :: !HeldBy(states[k], r, item)
    ensures forall q: nat, r: nat :: HeldBy(states[k], q, item) && HeldBy(states[k], r, item) ==> q == r
  {
    Reachable(n, concurrency, states, events, k);
  }

  function TakenBy(events: seq<Event>): nat {
    if events == [] then 0 else TakenBy(events[..|events| - 1]) + (if events[|events| - 1].Take? then 1 else 0)
  }

  /** Items are taken in list order: the k-th take is that of item k. */
  lemma {:induction false} TakesAreInOrder(n: nat, concurrency: nat, states: seq<State>, events: seq<Event>, k: nat)
    requires IsRun(n, concurrency, states, events) && k < |states|
    ensures states[k].index == TakenBy(events[..k])
  {
    if k > 0 {
      TakesAreInOrder(n, concurrency, states, events, k - 1);
      assert events[..k][..k - 1] == events[..k - 1];
    }
  }

  function InFlight(s: State): set<nat> {
    set r | 0 <= r < |s.runners| && s.runners[r].Working? :: s.runners[r].item
  }

  /** At most `concurrency` items are in flight, all different, none of them completed. */
  lemma AtMostConcurrencyInFlight(n: nat, concurrency: nat, states: seq<State>, events: seq<Event>, k: nat)
    requires IsRun(n, concurrency, states, events) && k < |states|
    ensures |InFlight(states[k])| <= concurrency
    ensures forall item :: item in InFlight(states[k]) ==> item !in states[k].completed
    ensures forall q, r :: 0 <= q < r < |states[k].runners| && states[k].runners[q].Working? && states[k].runners[r].Working? ==>
              states[k].runners[q].item != states[k].runners[r].item
  {
    Reachable(n, concurrency, states, events, k);
    var s := states[k];
    forall r | 0 <= r < |s.runners| && s.runners[r].Working? ensures HeldBy(s, r, s.runners[r].item) {
    }
    CountItems(s.runners);
    assert InFlight(s) == ItemsOf(s.runners);
  }

  function ItemsOf(runners: seq<Runner>): set<nat> {
    set r | 0 <= r < |runners| && runners[r].Working? :: runners[r].item
  }

  lemma {:induction false} CountItems(runners: seq<Runner>)
    ensures |ItemsOf(runners)| <= |runners|
  {
    if runners != [] {
      var before, last := runners[..|runners| - 1], runners[|runners| - 1];
      CountItems(before);
      assert ItemsOf(runners) == ItemsOf(before) + (if last.Working? then {last.item} else {});
    }
  }

  predicate Stopped(s: State) {
    forall r :: 0 <= r < |s.runners| ==> s.runners[r].Finished? || s.runners[r].Failed?
  }

  predicate AllFinished(s: State) {
    forall r :: 0 <= r < |s.runners| ==> s.runners[r].Finished?
  }

  /**
   * The pool as a whole succeeds when every runner finishes. Then each item was completed exactly once,
   * provided concurrency is at least 1; with concurrency 0 the pool succeeds at once and completes nothing.
   */
  lemma SuccessMeansAllDone(n: nat, concurrency: nat, states: seq<State>, events: seq<Event>, k: nat)
    requires IsRun(n, concurrency, states, events) && k < |states| && AllFinished(states[k])
    ensures (forall item :: 0 <= item < n ==> item in states[k].completed) <==> concurrency >= 1 || n == 0
    ensures forall i, j :: 0 <= i < j < |states[k].completed| ==> states[k].completed[i] != states[k].completed[j]
    ensures forall item :: item in states[k].completed ==> item < n
  {
    Reachable(n, concurrency, states, events, k);
    var s := states[k];
    if concurrency >= 1 && n > 0 {
      assert s.runners[0].Finished?;
      forall item | 0 <= item < n ensures item in s.completed {
        assert forall r: nat :: !HeldBy(s, r, item);
      }
    } else if n > 0 {
      WithoutRunners(n, states, events);
      assert 0 !in s.completed;
    }
  }

  lemma WithoutRunners(n: nat, states: seq<State>, events: seq<Event>)
    requires IsRun(n, 0, states, events)
    ensures states == [Initial(n, 0)]
  {
    assert events != [] ==> Enabled(n, states[0], events[0]);
    assert |Initial(n, 0).runners| == 0;
  }

  /** Until every runner has finished or failed, some runner can take its next step. */
  lemma NeverStuck(n: nat, concurrency: nat, states: seq<State>, events: seq<Event>, k: nat)
    requires IsRun(n, concurrency, states, events) && k < |states|
    ensures (exists e :: Enabled(n, states[k], e)) <==> !Stopped(states[k])
  {
    var s := states[k];
    if r :| 0 <= r < |s.runners| && !s.runners[r].Finished? && !s.runners[r].Failed? {
      var e := if s.runners[r].Working? then Complete(r) else if s.index < n then Take(r) else Finish(r);
      assert Enabled(n, s, e);
    }
  }

  /** A worker that throws stops only its runner: while one runner survives, every item is still taken. */
  lemma SurvivorTakesTheRest(n: nat, concurrency: nat, states: seq<State>, events: seq<Event>, k: nat)
    requires IsRun(n, concurrency, states, events) && k < |states| && Stopped(states[k])
    requires exists r :: 0 <= r < |states[k].runners| && states[k].runners[r].Finished?
    ensures forall item: nat :: item < n ==>
              item in states[k].completed || exists r: nat :: HeldBy(states[k], r, item) && states[k].runners[r].Failed?
  {
    Reachable(n, concurrency, states, events, k);
  }

  function Weight(runner: Runner): nat {
    match runner
    case Idle => 1
    case Working(_) => 2
    case _ => 0
  }

  function TotalWeight(runners: seq<Runner>): nat {
    if runners == [] then 0 else TotalWeight(runners[..|runners| - 1]) + Weight(runners[|runners| - 1])
  }

  lemma {:induction false} WeightUpdate(runners: seq<Runner>, r: nat, runner: Runner)
    requires r < |runners|
    ensures TotalWeight(runners[r := runner]) == TotalWeight(runners) - Weight(runners[r]) + Weight(runner)
  {
    var n := |runners| - 1;
    if r == n {
      assert runners[r := runner][..n] == runners[..n];
    } else {
      WeightUpdate(runners[..n], r, runner);
      assert runners[r := runner][..n] == runners[..n][r := runner];
    }
  }

  lemma {:induction false} IdleWeight(m: nat)
    ensures TotalWeight(seq(m, r => Idle)) == m
  {
    if m > 0 {
      IdleWeight(m - 1);
      assert seq(m, r => Idle)[..m - 1] == seq(m - 1, r => Idle);
    }
  }

  /** Every run ends: it takes at most two steps an item and one a runner. */
  lemma {:induction false} RunsAreBounded(n: nat, concurrency: nat, states: seq<State>, events: seq<Event>, k: nat)
    requires IsRun(n, concurrency, states, events) && k < |states|
    ensures k + 2 * (n - states[k].index) + TotalWeight(states[k].runners) <= 2 * n + Min(concurrency, n)
    ensures k <= 2 * n + Min(concurrency, n)
  {
    Reachable(n, concurrency, states, events, k);
    if k == 0 {
      IdleWeight(Min(concurrency, n));
    } else {
      RunsAreBounded(n, concurrency, states, events, k - 1);
      var s, e := states[k - 1], events[k - 1];
      assert Enabled(n, s, e);
      WeightUpdate(s.runners, e.r, states[k].runners[e.r]);
    }
  }
}
