/**
 The cron run guard: one run at a time, unless the running one has outlived `MAX_RUN_AGE_MS`.

 A request runs up to its first suspension in one step, so the check and the taking of the guard are
 atomic; the `finally` of a run is another step. Runs are told apart by identity, here a number.
 */
module RunGuard {
  import opened Prelude

  const MAX_RUN_AGE_MS := 15 * 60 * 1000

  datatype Run = Run(id: nat, startedAt: int)

  /** `started` lists the start times of all runs ever begun, by identity. */
  datatype State = State(current: Option<Run>, started: seq<int>, settled: set<nat>)

  /** A request reads the clock for the age check and again for the new run's start. */
  datatype Event = Tick(checkedAt: int, startedAt: int) | Settle(id: nat)

  const IDLE := State(None, [], {})

  function Step(s: State, e: Event): State {
    match e
    case Tick(checkedAt, startedAt) =>
      if s.current.Some? && checkedAt - s.current.value.startedAt < MAX_RUN_AGE_MS then s
      else s.(current := Some(Run(|s.started|, startedAt)), started := s.started + [startedAt])
    case Settle(id) =>
      if id < |s.started| && id !in s.settled then
        s.(settled := s.settled + {id},
           current := if s.current.Some? && s.current.value.id == id then None else s.current)
      else s
  }

  function Trace(s: State, events: seq<Event>): State
    decreases |events|
  {
    if |events| == 0 then s else Trace(Step(s, events[0]), events[1..])
  }

  /** The clock never runs backwards. */
  predicate MonotoneFrom(clock: int, events: seq<Event>)
    decreases |events|
  {
    |events| == 0 ||
    match events[0]
    case Tick(checkedAt, startedAt) => clock <= checkedAt <= startedAt && MonotoneFrom(startedAt, events[1..])
    case Settle(_) => MonotoneFrom(clock, events[1..])
  }

  predicate Unsettled(s: State, id: nat) {
    id < |s.started| && id !in s.settled
  }

  /** Holds whenever `clock` is the latest reading: only the newest run can hold the guard, and a run that
      is unsettled without holding it was expired, so everything later started a full age after it. */
  ghost predicate Inv(s: State, clock: int) {
    && (forall id :: id in s.settled ==> id < |s.started|)
    && (forall i :: 0 <= i < |s.started| ==> s.started[i] <= clock)
    && (s.current.Some? ==>
          && |s.started| > 0
          && s.current.value == Run(|s.started| - 1, s.started[|s.started| - 1])
          && Unsettled(s, s.current.value.id))
    && (forall i: nat :: Unsettled(s, i) && (s.current.None? || s.current.value.id != i) ==>
          clock >= s.started[i] + MAX_RUN_AGE_MS)
    && (forall i: nat, j: nat :: i < j < |s.started| && Unsettled(s, i) ==>
          s.started[j] >= s.started[i] + MAX_RUN_AGE_MS)
  }

  function ClockAfter(clock: int, e: Event): int {
    if e.Tick? then e.startedAt else clock
  }

  lemma StepKeepsInv(s: State, clock: int, e: Event)
    requires Inv(s, clock) && MonotoneFrom(clock, [e])
    ensures Inv(Step(s, e), ClockAfter(clock, e))
  {
    var after := Step(s, e);
    if e.Tick? && after != s {
      forall i: nat | i < |s.started| && Unsettled(after, i) ensures e.startedAt >= s.started[i] + MAX_RUN_AGE_MS {
        assert Unsettled(s, i);
      }
    }
    if e.Settle? {
      forall i: nat | Unsettled(after, i) ensures Unsettled(s, i) {}
    }
  }

  /** The clock after the last reading of a trace. */
  function LastReading(clock: int, events: seq<Event>): int
    decreases |events|
  {
    if |events| == 0 then clock else LastReading(ClockAfter(clock, events[0]), events[1..])
  }

  /** At the last clock reading of any trace, only the newest run can hold the guard, and a run that is
      unsettled without holding it had reached its maximum age by then. */
  lemma {:induction false} TraceKeepsInv(s: State, clock: int, events: seq<Event>)
    requires Inv(s, clock) && MonotoneFrom(clock, events)
    ensures Inv(Trace(s, events), LastReading(clock, events))
    decreases |events|
  {
    if |events| > 0 {
      StepKeepsInv(s, clock, events[0]);
      TraceKeepsInv(Step(s, events[0]), ClockAfter(clock, events[0]), events[1..]);
    }
  }

  lemma {:induction false} SpanOf(s: State, clock: int, runs: set<nat>) returns (first: nat, last: nat)
    requires Inv(s, clock) && runs != {}
    requires forall i :: i in runs ==> Unsettled(s, i)
    ensures first in runs && last in runs
    ensures forall i :: i in runs ==> i <= last
    ensures s.started[last] - s.started[first] >= (|runs| - 1) * MAX_RUN_AGE_MS
    decreases |runs|
  {
    last := MaxOf(runs);
    var rest := runs - {last};
    if rest == {} {
      first := last;
      assert runs == {last};
    } else {
      var previous;
      first, previous := SpanOf(s, clock, rest);
      assert previous < last;
    }
  }

  lemma {:induction false} MaxOf(runs: set<nat>) returns (m: nat)
    requires runs != {}
    ensures m in runs && forall i :: i in runs ==> i <= m
    decreases |runs|
  {
    var x :| x in runs;
    m := x;
    if runs != {x} {
      var rest := runs - {x};
      assert rest != {} && forall i :: i in runs ==> i == x || i in rest;
      var other := MaxOf(rest);
      if other > x { m := other; }
    }
  }

  /** In any trace, runs that are unsettled at the same time are spread out: `k` of them span at least
      `(k - 1) * MAX_RUN_AGE_MS` of start times. */
  lemma UnsettledRunsAreSpreadOut(clock: int, events: seq<Event>, runs: set<nat>) returns (first: nat, last: nat)
    requires MonotoneFrom(clock, events) && runs != {}
    requires forall i :: i in runs ==> Unsettled(Trace(IDLE, events), i)
    ensures first in runs && last in runs
    ensures first < |Trace(IDLE, events).started| && last < |Trace(IDLE, events).started|
    ensures Trace(IDLE, events).started[last] - Trace(IDLE, events).started[first] >= (|runs| - 1) * MAX_RUN_AGE_MS
  {
    TraceKeepsInv(IDLE, clock, events);
    first, last := SpanOf(Trace(IDLE, events), LastReading(clock, events), runs);
  }

  /** A tick begins a run exactly when there was none yet, the newest has settled, or the newest is at
      least fifteen minutes old: so any tick that late always begins one. */
  lemma TickBeginsRun(clock: int, events: seq<Event>, t: Event)
    requires MonotoneFrom(clock, events) && t.Tick?
    ensures var s := Trace(IDLE, events);
            |Step(s, t).started| > |s.started| <==>
              || |s.started| == 0
              || |s.started| - 1 in s.settled
              || t.checkedAt - s.started[|s.started| - 1] >= 900000
    ensures var s := Trace(IDLE, events);
            |Step(s, t).started| > |s.started| ==> Step(s, t).current == Some(Run(|s.started|, t.startedAt))
  {
    TraceKeepsInv(IDLE, clock, events);
    var s := Trace(IDLE, events);
    if |s.started| > 0 && s.current.None? && |s.started| - 1 !in s.settled {
      NewestHoldsGuard(clock, IDLE, events);
      assert false;
    }
  }

  /** The newest run holds the guard until it settles. */
  ghost predicate NewestGuards(s: State) {
    |s.started| > 0 && |s.started| - 1 !in s.settled ==>
        s.current == Some(Run(|s.started| - 1, s.started[|s.started| - 1]))
  }

  lemma {:induction false} NewestHoldsGuard(clock: int, s: State, events: seq<Event>)
    requires Inv(s, clock) && MonotoneFrom(clock, events) && NewestGuards(s)
    ensures NewestGuards(Trace(s, events))
    decreases |events|
  {
    if |events| > 0 {
      StepKeepsInv(s, clock, events[0]);
      NewestHoldsGuard(ClockAfter(clock, events[0]), Step(s, events[0]), events[1..]);
    }
  }

  /** A guard is only ever released by its own run or by age: whatever other, older runs settle, and
      however many ticks arrive within the age, the guard stays and nothing else starts. */
  lemma {:induction false} GuardOutlivesLateSettles(s: State, run: Run, events: seq<Event>)
    requires s.current == Some(run)
    requires forall e :: e in events ==> e != Settle(run.id)
    requires forall e :: e in events && e.Tick? ==> e.checkedAt < run.startedAt + MAX_RUN_AGE_MS
    ensures Trace(s, events).current == Some(run) && Trace(s, events).started == s.started
    decreases |events|
  {
    if |events| > 0 {
      assert events[0] in events && forall e :: e in events[1..] ==> e in events;
      GuardOutlivesLateSettles(Step(s, events[0]), run, events[1..]);
    }
  }

  datatype Response = NotFound | MethodNotAllowed | AlreadyRunning | Started(run: Run)

  class CronTasksWorker {
    var currentRun: Option<Run>
    ghost var started: seq<int>
    ghost var settled: set<nat>
    var nextId: nat

    ghost predicate Valid()
      reads this
    {
      && nextId == |started|
      && (currentRun.Some? ==>
            currentRun.value.id < |started| && currentRun.value.startedAt == started[currentRun.value.id])
    }

    ghost function Abstract(): State
      reads this
    {
      State(currentRun, started, settled)
    }

    constructor ()
      ensures Valid() && Abstract() == IDLE
    {
      currentRun, started, settled, nextId := None, [], {}, 0;
    }

    /** A request up to the point where it awaits its run. */
    method OnRequest(isRunPath: bool, isPost: bool, checkedAt: int, startedAt: int) returns (r: Response)
      requires Valid()
      modifies this
      ensures Valid()
      ensures if !isRunPath || !isPost
              then r == (if !isRunPath then NotFound else MethodNotAllowed) && Abstract() == old(Abstract())
              else
                && Abstract() == Step(old(Abstract()), Tick(checkedAt, startedAt))
                && (r == AlreadyRunning <==> Abstract() == old(Abstract()))
                && (r.Started? <==> |started| > |old(started)|)
                && (r.Started? ==> Abstract().current == Some(r.run))
    {
      if !isRunPath { return NotFound; }
      if !isPost { return MethodNotAllowed; }
      if currentRun.Some? {
        var ageMs := checkedAt - currentRun.value.startedAt;
        if ageMs < MAX_RUN_AGE_MS { return AlreadyRunning; }
        currentRun := None;
      }
      var run := Run(nextId, startedAt);
      nextId := nextId + 1;
      started := started + [startedAt];
      currentRun := Some(run);
      return Started(run);
    }

    /** The `finally` of a run: it clears the guard only if the guard is still its own. */
    method OnSettled(run: Run)
      requires Valid() && run.id < |started| && run.id !in settled && started[run.id] == run.startedAt
      modifies this
      ensures Valid() && Abstract() == Step(old(Abstract()), Settle(run.id))
    {
      settled := settled + {run.id};
      if currentRun == Some(run) { currentRun := None; }
    }
  }
}
