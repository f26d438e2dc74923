/** Triggering access-list source syncs: repeated triggers coalesce into one follow-up run. The
    steps of Trigger, drain, Run and ReconcileNow interleave at the gate and the single lock. */
module SyncTrigger {
  // ----- the gate -----

  class Gate {
    var running: bool
    var queued: bool

    constructor ()
      ensures !running && !queued
    {
      running, queued := false, false;
    }

    /** Whether the caller must start a drain. */
    method Trigger() returns (start: bool)
      modifies this
      ensures (start, running, queued) == Triggered(old(running), old(queued))
    {
      if running {
        queued := true;
        return false;
      }
      running := true;
      return true;
    }

    /** What a drain does after each reconcile: whether it goes round again. */
    method Drained(cancelled: bool) returns (again: bool)
      modifies this
      ensures (again, running, queued) == AfterReconcile(old(running), old(queued), cancelled)
    {
      if cancelled {
        queued, running := false, false;
        return false;
      }
      if !queued {
        running := false;
        return false;
      }
      queued := false;
      return true;
    }
  }

  function Triggered(running: bool, queued: bool): (bool, bool, bool) {
    if running then (false, true, true) else (true, true, queued)
  }

  function AfterReconcile(running: bool, queued: bool, cancelled: bool): (bool, bool, bool) {
    if cancelled then (false, false, false)
    else if !queued then (false, false, false)
    else (true, running, false)
  }

  // ----- the protocol -----

  /** Where a drain stands: about to read the lifecycle context, waiting for the single lock,
      reconciling under it, or about to enter the gate. `bound`: the context it read is the
      lifecycle one, which shutdown cancels. */
  datatype Stage = Reading | Waiting | Working | Checking

  datatype Drain = Drain(stage: Stage, bound: bool)

  datatype Holder = Free | ByDrain(id: nat) | ByOther

  datatype State = State(running: bool, queued: bool, drains: map<nat, Drain>, single: Holder, installed: bool,
                         cancelled: bool)

  const INIT := State(false, false, map[], Free, false, false)

  datatype Event =
    | Trigger(id: nat)        // id names the drain it starts, if it starts one
    | SetContext | Cancel
    | Read(id: nat) | Lock(id: nat) | Unlock(id: nat) | Check(id: nat)
    | OtherLock | OtherRefused | OtherUnlock // Run's own polling, and ReconcileNow

  predicate At(s: State, id: nat, stage: Stage) { id in s.drains && s.drains[id].stage == stage }

  predicate Enabled(s: State, e: Event) {
    match e
    case Trigger(id) => id !in s.drains
    case SetContext => true
    case Cancel => s.installed
    case Read(id) => At(s, id, Reading)
    case Lock(id) => At(s, id, Waiting) && s.single == Free
    case Unlock(id) => At(s, id, Working)
    case Check(id) => At(s, id, Checking)
    case OtherLock => s.single == Free
    case OtherRefused => s.single != Free
    case OtherUnlock => s.single == ByOther
  }

  function Moved(s: State, id: nat, stage: Stage): State
    requires id in s.drains
  {
    s.(drains := s.drains[id := s.drains[id].(stage := stage)])
  }

  function Step(s: State, e: Event): State
    requires Enabled(s, e)
  {
    match e
    case Trigger(id) =>
      var (start, running, queued) := Triggered(s.running, s.queued);
      var t := s.(running := running, queued := queued);
      if start then t.(drains := t.drains[id := Drain(Reading, false)]) else t
    case SetContext => s.(installed := true)
    case Cancel => s.(cancelled := true)
    case Read(id) => s.(drains := s.drains[id := Drain(Waiting, s.installed)])
    case Lock(id) => Moved(s, id, Working).(single := ByDrain(id))
    case Unlock(id) => Moved(s, id, Checking).(single := Free)
    case Check(id) =>
      var (again, running, queued) := AfterReconcile(s.running, s.queued, s.drains[id].bound && s.cancelled);
      var t := s.(running := running, queued := queued);
      if again then Moved(t, id, Reading) else t.(drains := t.drains - {id})
    case OtherLock => s.(single := ByOther)
    case OtherRefused => s
    case OtherUnlock => s.(single := Free)
  }

  /** The run is possible, and the state it leads to. */
  ghost predicate IsRun(run: seq<Event>)
    decreases |run|, 0
  {
    run == [] || (IsRun(run[..|run| - 1]) && Enabled(After(run[..|run| - 1]), run[|run| - 1]))
  }

  ghost function After(run: seq<Event>): State
    requires IsRun(run)
    decreases |run|, 1
  {
    if run == [] then INIT else Step(After(run[..|run| - 1]), run[|run| - 1])
  }

  /** A reconcile body starts. */
  predicate Starts(e: Event) { e.Lock? || e.OtherLock? }

  /** Some trigger has seen no reconcile start since. */
  predicate Outstanding(run: seq<Event>) {
    run != [] &&
    var last := run[|run| - 1];
    last.Trigger? || (!Starts(last) && Outstanding(run[..|run| - 1]))
  }

  // ----- main results -----

  /** At most one drain, exactly while running; the single lock is held by whoever is reconciling;
      and an outstanding trigger has a drain that will still start a reconcile for it. */
  ghost predicate Safe(s: State, outstanding: bool) {
    && (forall i, j | i in s.drains && j in s.drains :: i == j)
    && (s.running <==> s.drains != map[])
    && (forall i | i in s.drains :: s.drains[i].stage == Working <==> s.single == ByDrain(i))
    && (s.single.ByDrain? ==> s.single.id in s.drains)
    && (s.queued ==> s.running)
    && (s.cancelled ==> s.installed)
    && (outstanding && !s.cancelled ==>
          s.running && (s.queued || exists i :: At(s, i, Reading) || At(s, i, Waiting)))
  }

  lemma TriggerSafe(s: State, outstanding: bool, id: nat)
    requires Safe(s, outstanding) && id !in s.drains
    ensures Safe(Step(s, Trigger(id)), true)
  {
    var t := Step(s, Trigger(id));
    if s.running { assert t.drains == s.drains; }
      else { assert t.drains == map[id := Drain(Reading, false)] && At(t, id, Reading); }
  }

  /** A drain that moves on from reading, or starts and ends a reconcile. */
  lemma DrainSafe(s: State, outstanding: bool, e: Event)
    requires Safe(s, outstanding) && Enabled(s, e) && (e.Read? || e.Lock? || e.Unlock?)
    ensures Safe(Step(s, e), outstanding && !Starts(e))
  {
    var t := Step(s, e);
    assert s.drains.Keys == {e.id} && t.drains.Keys == {e.id};
    if e.Read? { assert At(t, e.id, Waiting); }
    assert e.Unlock? ==> forall i :: !At(s, i, Reading) && !At(s, i, Waiting);
  }

  lemma CheckSafe(s: State, outstanding: bool, id: nat)
    requires Safe(s, outstanding) && At(s, id, Checking)
    ensures Safe(Step(s, Check(id)), outstanding)
  {
    var t := Step(s, Check(id));
    assert s.drains.Keys == {id};
    if id in t.drains { assert At(t, id, Reading) && t.drains.Keys == {id}; } else { assert t.drains == map[]; }
  }

  /** A step that leaves the drains alone. */
  lemma OtherSafe(s: State, outstanding: bool, e: Event)
    requires Safe(s, outstanding) && Enabled(s, e)
    requires e.SetContext? || e.Cancel? || e.OtherLock? || e.OtherRefused? || e.OtherUnlock?
    ensures Safe(Step(s, e), outstanding && !Starts(e))
  {
    var t := Step(s, e);
    assert forall i, stage :: At(s, i, stage) <==> At(t, i, stage);
  }

  lemma StepSafe(s: State, outstanding: bool, e: Event)
    requires Safe(s, outstanding) && Enabled(s, e)
    ensures Safe(Step(s, e), e.Trigger? || (outstanding && !Starts(e)))
  {
    match e
    case Trigger(id) => TriggerSafe(s, outstanding, id);
    case Read(_) => DrainSafe(s, outstanding, e);
    case Lock(_) => DrainSafe(s, outstanding, e);
    case Unlock(_) => DrainSafe(s, outstanding, e);
    case Check(id) => CheckSafe(s, outstanding, id);
    case _ => OtherSafe(s, outstanding, e);
  }

  lemma {:induction false} AlwaysSafe(run: seq<Event>)
    requires IsRun(run)
    ensures Safe(After(run), Outstanding(run))
  {
    if run != [] {
      AlwaysSafe(run[..|run| - 1]);
      StepSafe(After(run[..|run| - 1]), Outstanding(run[..|run| - 1]), run[|run| - 1]);
    }
  }

  /** Over every interleaving at most one drain runs, and whoever runs a reconcile body holds the
      single lock, so at most one body runs: no drain works while another reconcile does. */
  lemma OneAtATime(run: seq<Event>, i: nat, j: nat)
    requires IsRun(run) && i in After(run).drains
    ensures j in After(run).drains ==> i == j
    ensures After(run).drains[i].stage == Working ==> After(run).single == ByDrain(i)
    ensures After(run).single == ByOther ==> After(run).drains[i].stage != Working
  {
    AlwaysSafe(run);
  }

  lemma {:induction false} StartSince(run: seq<Event>, i: nat)
    requires i < |run| && run[i].Trigger? && !Outstanding(run)
    ensures exists j :: i < j < |run| && Starts(run[j])
  {
    var last := |run| - 1;
    if Starts(run[last]) {
      assert i < last < |run| && Starts(run[last]);
    } else {
      var front := run[..last];
      StartSince(front, i);
      var j :| i < j < |front| && Starts(front[j]);
      assert Starts(run[j]);
    }
  }

  /** No lost trigger: whenever nothing is running and shutdown has not begun, every trigger so far
      was followed by a reconcile that started after it. */
  lemma NoLostTrigger(run: seq<Event>, i: nat)
    requires IsRun(run) && i < |run| && run[i].Trigger?
    requires !After(run).running && !After(run).cancelled
    ensures exists j :: i < j < |run| && Starts(run[j])
  {
    AlwaysSafe(run);
    StartSince(run, i);
  }

  /** The next step towards a reconcile by drain id. */
  function Next(s: State, id: nat): Event
    requires id in s.drains
  {
    if s.single == ByOther then OtherUnlock
    else match s.drains[id].stage
      case Working => Unlock(id)
      case Checking => Check(id)
      case Reading => Read(id)
      case Waiting => Lock(id)
  }

  /** How many such steps it takes. */
  function Distance(s: State, id: nat): nat
    requires id in s.drains
  {
    (if s.single == ByOther then 1 else 0) +
    match s.drains[id].stage case Working => 4 case Checking => 3 case Reading => 2 case Waiting => 1
  }

  /** Nor is one ever stuck: as long as a trigger is outstanding and shutdown has not begun, at most
      four steps of the drain and of whoever holds the lock start a reconcile for it. */
  lemma CanCatchUp(run: seq<Event>) returns (more: seq<Event>)
    requires IsRun(run) && Outstanding(run) && !After(run).cancelled
    ensures 0 < |more| <= 4 && IsRun(run + more) && Starts(more[|more| - 1])
  {
    AlwaysSafe(run);
    var id :| id in After(run).drains;
    more := CatchUp(run, id);
  }

  lemma {:induction false} CatchUp(run: seq<Event>, id: nat) returns (more: seq<Event>)
    requires IsRun(run) && Outstanding(run) && !After(run).cancelled && id in After(run).drains
    ensures 0 < |more| <= Distance(After(run), id) && IsRun(run + more) && Starts(more[|more| - 1])
    decreases Distance(After(run), id)
  {
    AlwaysSafe(run);
    var s := After(run);
    var e := Next(s, id);
    NextHelps(s, id);
    var longer := run + [e];
    assert longer[..|run|] == run;
    more := [e];
    if !Starts(e) {
      more := CatchUp(longer, id);
      assert longer + more == run + ([e] + more);
      more := [e] + more;
    }
  }

  lemma NextHelps(s: State, id: nat)
    requires Safe(s, true) && !s.cancelled && id in s.drains
    ensures var e := Next(s, id);
      Enabled(s, e)
        && (Starts(e)
            || (id in Step(s, e).drains && Distance(Step(s, e), id) < Distance(s, id) && !Step(s, e).cancelled))
    ensures Distance(s, id) <= 4
  {
  }

  // ----- shutdown -----

  /** A drain of the lifecycle context that finds it cancelled ends, and the gate with it: nothing runs and
      nothing is queued, whatever was. */
  lemma CancelledEnds(run: seq<Event>, id: nat)
    requires IsRun(run) && At(After(run), id, Checking) && After(run).drains[id].bound && After(run).cancelled
    ensures Step(After(run), Check(id)) == After(run).(running := false, queued := false, drains := map[])
  {
    AlwaysSafe(run);
    assert After(run).drains - {id} == map[];
  }

  /** Any other drain ends without a follow-up, and goes round again with one. */
  lemma EndsIff(run: seq<Event>, id: nat)
    requires IsRun(run) && At(After(run), id, Checking)
    ensures id in Step(After(run), Check(id)).drains <==>
      After(run).queued && !(After(run).drains[id].bound && After(run).cancelled)
    ensures id in Step(After(run), Check(id)).drains ==>
      At(Step(After(run), Check(id)), id, Reading) && !Step(After(run), Check(id)).queued
  {
    AlwaysSafe(run);
  }

  /** How many reconciles a drain can still start once shutdown has begun: the one it is before, and one
      more if it read its context before there was one to cancel. */
  function Left(s: State, d: Drain): nat {
    match d.stage
    case Reading => 1
    case Waiting => if d.bound || !s.queued then 1 else 2
    case _ => if d.bound || !s.queued then 0 else 1
  }

  ghost predicate AtMost(s: State, n: nat) {
    forall id | id in s.drains :: Left(s, s.drains[id]) <= n
  }

  lemma StepsLeft(s: State, outstanding: bool, e: Event, n: nat)
    requires Safe(s, outstanding) && s.cancelled && Enabled(s, e) && !e.Trigger? && AtMost(s, n)
    ensures Step(s, e).cancelled
    ensures if e.Lock? then n > 0 && AtMost(Step(s, e), n - 1) else AtMost(Step(s, e), n)
  {
    if e.Check? { assert s.drains.Keys == {e.id}; }
  }

  function Locks(run: seq<Event>): nat {
    if run == [] then 0 else Locks(run[..|run| - 1]) + if run[|run| - 1].Lock? then 1 else 0
  }

  lemma {:induction false} LocksLeft(run: seq<Event>, more: seq<Event>, n: nat)
    requires IsRun(run) && IsRun(run + more) && After(run).cancelled && AtMost(After(run), n)
    requires forall e | e in more :: !e.Trigger?
    ensures Locks(more) <= n && After(run + more).cancelled && AtMost(After(run + more), n - Locks(more))
    decreases |more|
  {
    if more == [] {
      assert run + more == run;
    } else {
      var front, last := more[..|more| - 1], more[|more| - 1];
      assert (run + more)[..|run + more| - 1] == run + front;
      LocksLeft(run, front, n);
      AlwaysSafe(run + front);
      StepsLeft(After(run + front), Outstanding(run + front), last, n - Locks(front));
    }
  }

  /** Once shutdown has begun and nothing triggers any more, drains start at most two more reconciles, and
      none once the one that runs has read the context that was cancelled. */
  lemma StopsSoon(run: seq<Event>, more: seq<Event>)
    requires IsRun(run) && IsRun(run + more) && After(run).cancelled && forall e | e in more :: !e.Trigger?
    ensures Locks(more) <= 2
    ensures (forall id | id in After(run).drains :: (At(After(run), id, Working) || At(After(run), id, Checking))
                                                     && After(run).drains[id].bound) ==> Locks(more) == 0
  {
    LocksLeft(run, more, 2);
    if forall id | id in After(run).drains ::
         (At(After(run), id, Working) || At(After(run), id, Checking)) && After(run).drains[id].bound
    {
      LocksLeft(run, more, 0);
    }
  }
}
