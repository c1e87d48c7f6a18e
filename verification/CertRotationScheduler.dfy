/** The timer that drives certificate rotation: ticks never overlap, and only the very first one is the boot tick. */
module CertRotationScheduler {
  import opened Wrappers

  datatype Trigger = Boot | Scheduled

  class Scheduler {
    var ticking: bool
    var bootTickPending: bool
    var lastTickAt: Option<int>
    var lastProcessed: Option<nat>
    /** For the record: the evaluations under way, and the triggers of all evaluations so far. */
    ghost var running: int
    ghost var triggers: seq<Trigger>

    ghost function Abstract(): State
      reads this
    {
      State(ticking, bootTickPending, running, triggers)
    }

    ghost predicate Valid()
      reads this
    {
      NeverOverlaps(Abstract())
    }

    constructor ()
      ensures Valid() && Abstract() == INITIAL && lastTickAt == None && lastProcessed == None
    {
      ticking, bootTickPending, lastTickAt, lastProcessed := false, true, None, None;
      running, triggers := 0, [];
    }

    /** The timer fires, up to the first await: the trigger to evaluate with, if an evaluation starts at all. */
    method BeginTick() returns (trigger: Option<Trigger>)
      requires Valid()
      modifies this
      ensures Valid() && Abstract() == Next(old(Abstract()), TimerFires)
      ensures trigger.Some? <==> running > old(running)
      ensures trigger.Some? ==> triggers == old(triggers) + [trigger.value] && running == 1
      ensures lastTickAt == old(lastTickAt) && lastProcessed == old(lastProcessed)
    {
      if ticking {
        return None;
      }
      ticking := true;
      trigger := Some(if bootTickPending then Boot else Scheduled);
      bootTickPending := false;
      running, triggers := running + 1, triggers + [trigger.value];
    }

    /** An evaluation ends, however it went. */
    method EndTick(succeeded: bool, now: int)
      requires Valid() && running > 0
      modifies this
      ensures old(Enabled(Abstract(), EvaluationEnds))
      ensures Valid() && Abstract() == Next(old(Abstract()), EvaluationEnds) && running == 0
      ensures lastTickAt == Some(now)
      ensures lastProcessed == if succeeded then Some(2) else old(lastProcessed)
    {
      if succeeded {
        lastProcessed := Some(2);
      }
      lastTickAt := Some(now);
      ticking := false;
      running := running - 1;
    }
  }

  // ---- any interleaving of timer calls and evaluations ----

  /** The fields, the evaluations under way, and the triggers of all evaluations so far. */
  datatype State = State(ticking: bool, bootTickPending: bool, running: int, triggers: seq<Trigger>)

  datatype Event = TimerFires | EvaluationEnds

  predicate Enabled(s: State, e: Event) {
    e.EvaluationEnds? ==> s.running > 0
  }

  function Next(s: State, e: Event): State {
    match e
    case TimerFires =>
      if s.ticking then s
      else State(true, false, s.running + 1, s.triggers + [if s.bootTickPending then Boot else Scheduled])
    case EvaluationEnds => s.(ticking := false, running := s.running - 1)
  }

  const INITIAL: State := State(false, true, 0, [])

  predicate IsRun(states: seq<State>, events: seq<Event>) {
    |states| == |events| + 1 && states[0] == INITIAL &&
    forall k :: 0 <= k < |events| ==> Enabled(states[k], events[k]) && states[k + 1] == Next(states[k], events[k])
  }

  /** At most one evaluation runs at a time; the first one ever is the boot tick and no other is. */
  ghost predicate NeverOverlaps(s: State) {
    s.running == (if s.ticking then 1 else 0) &&
    (s.bootTickPending <==> s.triggers == []) &&
    forall i :: 0 <= i < |s.triggers| ==> (s.triggers[i] == Boot <==> i == 0)
  }

  lemma {:induction false} TicksNeverOverlap(states: seq<State>, events: seq<Event>, k: nat)
    requires IsRun(states, events) && k < |states|
    ensures NeverOverlaps(states[k])
  {
    if k > 0 {
      TicksNeverOverlap(states, events, k - 1);
    }
  }
}
