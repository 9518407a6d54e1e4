/**
 The daemon's main-loop object: the registry of mutable tasks, the metered release queue, the
 announcement latch and the clock. One call of `RunDueTasks` is one due-pass, and it computes
 exactly the pass of module DuePass.
 */
module Daemon {
  import opened Common
  import opened TaskRecord
  import opened DispatchOrder
  import opened DuePass
  import ReleaseQueue

  const LOOP_CEILING_SEC: nat := 60

  /** `contribution` in `_sleep_seconds`; the caller leaves thread-owned tasks out. */
  function Contribution(t: TaskState, bulkBusy: bool, now: real): nat {
    var ttd := TimeUntilDue(t, now);
    if t.cfg.background && bulkBusy && ttd == 0 then BULK_RECHECK_SEC else ttd
  }

  predicate Counts(t: TaskState, yielded: set<string>) {
    t.cfg.name !in yielded && !t.cfg.ownThread
  }

  class Loop {
    const tasks: seq<Task>
    var queue: seq<string>
    var announced: set<string>
    var now: real

    ghost predicate Valid()
      reads this
    {
      forall i, j | 0 <= i < j < |tasks| :: tasks[i] != tasks[j]
    }

    function States(): (r: seq<TaskState>)
      reads this, tasks
      ensures |r| == |tasks|
    {
      seq(|tasks|, i requires 0 <= i < |tasks| reads this, tasks => tasks[i].State())
    }

    function View(): Sched
      reads this, tasks
    {
      Sched(States(), queue, announced, now)
    }

    constructor (tasks: seq<Task>, now: real)
      requires forall i, j | 0 <= i < j < |tasks| :: tasks[i] != tasks[j]
      ensures Valid() && this.tasks == tasks
      ensures View() == Sched(States(), [], {}, now)
    {
      this.tasks, this.queue, this.announced, this.now := tasks, [], {}, now;
    }

    /** The world's part: children that end around this moment. */
    method WorldEndsChildren(exits: (nat, nat) -> Option<int>, moment: nat)
      requires Valid()
      modifies tasks
      ensures States() == EndChildren(old(States()), exits, moment)
    {
      for i := 0 to |tasks|
        invariant forall j | 0 <= j < i :: tasks[j].State() == EndChild(old(tasks[j].State()), exits(moment, j))
        invariant forall j | i <= j < |tasks| :: tasks[j].State() == old(tasks[j].State())
      {
        var ex := exits(moment, i);
        if tasks[i].child.Some? && tasks[i].child.value.rc.None? && ex.Some? {
          tasks[i].child := Some(tasks[i].child.value.(rc := ex));
        }
      }
    }

    method PollAll()
      requires Valid()
      modifies tasks
      ensures States() == ReapAll(old(States()), now)
    {
      for i := 0 to |tasks|
        invariant forall j | 0 <= j < i ::
            tasks[j].State() == if tasks[j].cfg.background then Reap(old(tasks[j].State()), now)
                                else old(tasks[j].State())
        invariant forall j | i <= j < |tasks| :: tasks[j].State() == old(tasks[j].State())
      {
        if tasks[i].cfg.background {
          tasks[i].PollBackground(now);
        }
      }
    }

    /** `any(t.child_alive() for t in tasks if t.background)` */
    method BulkBusy() returns (busy: bool)
      ensures busy == LaneBusy(States())
    {
      busy := false;
      for i := 0 to |tasks|
        invariant !busy
        invariant forall j | 0 <= j < i :: !(States()[j].cfg.background && States()[j].ChildAlive())
      {
        assert States()[i] == tasks[i].State();
        if tasks[i].cfg.background && tasks[i].child.Some? && tasks[i].child.value.rc.None? {
          return true;
        }
      }
    }

    method NextBulkTask(yielded: set<string>) returns (best: Option<nat>)
      ensures best == BulkNext(States(), yielded, now, |tasks|)
    {
      best := None;
      for i := 0 to |tasks|
        invariant best == BulkNext(States(), yielded, now, i)
      {
        assert States()[i] == tasks[i].State();
        if tasks[i].cfg.background && tasks[i].cfg.name !in yielded && Due(tasks[i].State(), now)
           && (best.None? || tasks[i].lastRun < tasks[best.value].lastRun) {
          best := Some(i);
        }
      }
    }

    method PressureNextRelease() returns (slot: Option<string>)
      ensures slot == NextRelease(queue, States(), now)
    {
      var due: set<string> := {};
      for i := 0 to |tasks|
        invariant forall name :: name in due <==> exists j | 0 <= j < i :: States()[j].cfg.name == name && Due(States()[j], now)
      {
        assert States()[i] == tasks[i].State();
        if Due(tasks[i].State(), now) {
          due := due + {tasks[i].cfg.name};
        }
      }
      slot := None;
      for q := 0 to |queue|
        invariant slot.None?
        invariant NextRelease(queue, States(), now) == NextRelease(queue[q..], States(), now)
      {
        assert queue[q..][1..] == queue[q + 1..];
        if queue[q] in due {
          return Some(queue[q]);
        }
      }
    }

    /** Reaping comes first, before anything is chosen. */
    method ReapFinished(env: PassEnv)
      requires Valid()
      modifies this`now, tasks
      ensures States() == Reaped(old(View()), env) && now == old(now) + env.lead
    {
      ghost var was := States();
      now := now + env.lead;
      assert States() == was;
      WorldEndsChildren(env.exits, 0);
      PollAll();
      WorldEndsChildren(env.exits, 1);
    }

    /** Everything the pass decides before its loop, none of it by dispatching anything. */
    method MakePlan(env: PassEnv) returns (p: Plan, busy: bool)
      modifies this`announced
      ensures States() == old(States()) && busy == LaneBusy(States())
      ensures announced == if env.pressure.CalmEnoughToClear() then {} else old(announced)
      ensures p == PlanFrom(LoopState(States(), queue, announced, now, 0.0, busy, false, []), env)
    {
      busy := BulkBusy();
      var bulkNext := None;
      if !busy {
        bulkNext := NextBulkTask(env.yielded);
      }
      var slot := None;
      if !env.pressure.Over() {
        slot := PressureNextRelease();
      }
      p := Plan(env.yielded, env.pressure.Over(), slot, bulkNext);
      ghost var was := States();
      if env.pressure.CalmEnoughToClear() {
        announced := {};
      }
      assert States() == was;
    }

    method DispatchAll(p: Plan, bulkBusy: bool, steps: nat -> StepEnv) returns (log: seq<Event>)
      requires Valid()
      modifies this`queue, this`announced, this`now, tasks
      ensures ghost var f := After(p, old(LoopState(States(), queue, announced, now, 0.0, bulkBusy, false, [])),
                                   Order(old(States()), |tasks|), steps, |tasks|);
              States() == f.tasks && queue == f.queue && announced == f.announced && now == f.now && log == f.log
    {
      ghost var o := LoopState(States(), queue, announced, now, 0.0, bulkBusy, false, []);
      var order := Order(States(), |tasks|);
      var busy, used, stopped, k := bulkBusy, 0.0, false, 0;
      log := [];
      while k < |order| && !stopped
        invariant k <= |order|
        invariant LoopState(States(), queue, announced, now, used, busy, stopped, log)
               == After(p, o, order, steps, k)
      {
        busy, used, stopped, log := Dispatch(p, steps(k), order[k], busy, used, log);
        k := k + 1;
      }
      StoppedStays(p, o, order, steps, k);
    }

    method RunDueTasks(env: PassEnv) returns (busy: bool, log: seq<Event>)
      requires Valid()
      modifies this`queue, this`announced, this`now, tasks
      ensures View() == Pass(old(View()), env)
      ensures log == Final(old(View()), env).log
      ensures busy == LaneBusy(States())
    {
      ghost var was := View();
      ReapFinished(env);
      var p, bulkBusy := MakePlan(env);
      ghost var o := LoopState(States(), queue, announced, now, 0.0, bulkBusy, false, []);
      assert o == Opening(was, env);
      log := DispatchAll(p, bulkBusy, env.steps);
      ghost var f := LoopFrom(o, env, |tasks|);
      assert States() == f.tasks;
      WorldEndsChildren(env.exits, 2);
      assert View() == Closing(f, env);
      busy := BulkBusy();
    }

    /** The guards of the dispatch loop, in the source's order. */
    method Judge(p: Plan, i: nat, bulkBusy: bool, used: real) returns (v: Verdict)
      requires i < |tasks|
      ensures v == Decide(p, tasks[i].State(), i, tasks[i].cfg.name in queue, now, bulkBusy, used)
    {
      var task := tasks[i];
      var name := task.cfg.name;
      if name in p.yielded {
        return Leave;
      }
      if task.cfg.ownThread {
        return Leave;
      }
      if !Due(task.State(), now) {
        return Leave;
      }
      if name in queue {
        if p.slot != Some(name) {
          return Leave;
        }
      } else if Gated(task.cfg, p.over) {
        return Defer;
      }
      if task.cfg.background {
        if bulkBusy || p.bulkNext != Some(i) {
          return Leave;
        }
        return Launch;
      }
      if !task.cfg.floor && used >= FOREGROUND_BUDGET_SEC as real {
        return Leave;
      }
      return Execute;
    }

    /** The body of the dispatch loop. */
    method Dispatch(p: Plan, e: StepEnv, i: nat, bulkBusy: bool, used: real, log: seq<Event>)
      returns (busy': bool, used': real, stopped': bool, log': seq<Event>)
      requires Valid() && i < |tasks|
      modifies this`queue, this`announced, this`now, tasks[i]
      ensures LoopState(States(), queue, announced, now, used', busy', stopped', log')
           == Step(p, old(LoopState(States(), queue, announced, now, used, bulkBusy, false, log)), i, e)
    {
      ghost var s := LoopState(States(), queue, announced, now, used, bulkBusy, false, log);
      assert s.tasks[i] == tasks[i].State();
      busy', used', stopped', log' := bulkBusy, used, false, log;
      if e.stop {
        stopped' := true;
        return;
      }
      now := now + e.delay;
      var v := Judge(p, i, bulkBusy, used);
      assert v == VerdictAt(p, s, i, e);
      var task := tasks[i];
      var name := task.cfg.name;
      match v
      case Leave =>
      case Defer =>
        announced := announced + {name};
        queue := queue + [name];
      case Launch =>
        task.SpawnBackground(now, !e.failed);
        busy' := true;
        queue := Remove(queue, name);
        log' := log + [Spawned(i, !e.failed)];
      case Execute =>
        log' := log + [Ran(i, used, e.took)];
        var elapsed := task.Run(now, e.took, e.failed);
        now := now + e.took;
        used' := used + elapsed;
        queue := Remove(queue, name);
      assert States() == s.tasks[i := task.State()];
    }

    method SleepSeconds(yielded: set<string>, bulkBusy: bool) returns (secs: nat)
      ensures 1 <= secs <= LOOP_CEILING_SEC
      ensures forall t | t in States() && t.cfg.name !in yielded && !t.cfg.ownThread ::
                secs == 1 || secs <= Contribution(t, bulkBusy, now)
      ensures secs == 1 || secs == LOOP_CEILING_SEC
              || exists t | t in States() && t.cfg.name !in yielded && !t.cfg.ownThread :: secs == Contribution(t, bulkBusy, now)
      ensures secs == 1 <==> exists t | t in States() && t.cfg.name !in yielded && !t.cfg.ownThread :: Contribution(t, bulkBusy, now) <= 1
    {
      var next := LOOP_CEILING_SEC;
      for i := 0 to |tasks|
        invariant next <= LOOP_CEILING_SEC
        invariant forall j | 0 <= j < i && Counts(States()[j], yielded) ::
            next <= Contribution(States()[j], bulkBusy, now)
        invariant next == LOOP_CEILING_SEC
               || exists j | 0 <= j < i && Counts(States()[j], yielded) ::
                    next == Contribution(States()[j], bulkBusy, now)
      {
        assert States()[i] == tasks[i].State();
        var t := tasks[i].State();
        if Counts(t, yielded) {
          next := Min(next, Contribution(t, bulkBusy, now));
        }
      }
      secs := Max(1, next);
    }
  }

  /** A stop ends the loop: the remaining places change nothing. */
  lemma {:induction false} StoppedStays(p: Plan, o: LoopState, order: seq<nat>, steps: nat -> StepEnv, k: nat)
    requires k <= |order| && Indices(o.tasks, order)
    requires k < |order| ==> After(p, o, order, steps, k).stopped
    ensures After(p, o, order, steps, k) == After(p, o, order, steps, |order|)
    decreases |order| - k
  {
    if k < |order| {
      AfterNext(p, o, order, steps, k);
      StoppedStep(p, After(p, o, order, steps, k), order[k], steps(k));
      StoppedStays(p, o, order, steps, k + 1);
    }
  }

  lemma StoppedStep(p: Plan, s: LoopState, i: nat, e: StepEnv)
    requires i < |s.tasks| && s.stopped
    ensures Step(p, s, i, e) == s
  {
  }

  /**
   What a chore contributes to the sleep is the time until it is due, to the second: it is due by then and not
   before. Only a bulk chore that is due but must wait for the lane asks for the recheck beat instead.
   */
  lemma ContributionExactly(t: TaskState, bulkBusy: bool, now: real, wait: nat)
    requires t.child.None?
    ensures t.cfg.background && bulkBusy && Due(t, now) ==> Contribution(t, bulkBusy, now) == BULK_RECHECK_SEC
    ensures !(t.cfg.background && bulkBusy && Due(t, now)) ==>
              (Due(t, now + wait as real) <==> wait >= Contribution(t, bulkBusy, now))
  {
    DueAfterExactly(t, now, wait);
    assert (now + wait as real).Floor == now.Floor + wait;
  }

  /**
   A chore that pressure holds back is still due, so it keeps the loop at its shortest sleep: under a
   deadlocked queue (see ReleaseQueue) no sleep with `b` un-yielded is longer than the recheck beat while a
   bulk child runs, nor longer than a second once the lane is free, for ever.
   */
  lemma DeadlockSpins(s: Sched, acts: seq<Action>, a: nat, b: nat, yielded: set<string>, bulkBusy: bool)
    requires ReleaseQueue.Sound(s) && ReleaseQueue.Deadlocked(s, a, b)
    requires forall n | 0 <= n < |acts| :: ReleaseQueue.LeavesPairAlone(s, acts[n], a, b)
    requires s.tasks[b].cfg.name !in yielded
    ensures var t := Run(s, acts);
            exists x | x in t.tasks && Counts(x, yielded) ::
              Contribution(x, bulkBusy, t.now) <= if bulkBusy then BULK_RECHECK_SEC else 1
  {
    ReleaseQueue.DeadlockIsForever(s, acts, a, b);
    var t := Run(s, acts);
    assert t.tasks[b] in t.tasks && Counts(t.tasks[b], yielded);
    assert TimeUntilDue(t.tasks[b], t.now) == 0;
  }
}
