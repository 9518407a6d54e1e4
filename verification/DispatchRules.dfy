/**
 Who is dispatched in a due-pass, when, and with what effect (scripts/daemon.py:4050-4099): the whole pass,
 place by place, from the chores as it opens, the clock, and the budget used by the bodies so far.
 */
module DispatchRules {
  import opened Common
  import opened TaskRecord
  import opened DispatchOrder
  import opened DuePass
  import opened Fairness
  import opened ForegroundBudget
  import ReleaseQueue

  // ---------- one place ----------

  /** No child in flight, and the cadence and the penalty are over by the clock. */
  predicate Ripe(t: TaskState, clock: real) {
    t.child.None? && clock.Floor >= t.lastRun + t.cfg.interval + Penalty(t.cfg.interval, t.fails)
  }

  lemma RipeIsDue(t: TaskState, clock: real)
    ensures Ripe(t, clock) <==> Due(t, clock)
  {
  }

  /** A ripe chore that is this daemon's own to look after. */
  predicate Free(yielded: set<string>, t: TaskState, clock: real) {
    t.cfg.name !in yielded && !t.cfg.ownThread && Ripe(t, clock)
  }

  /** The chore starts: a queued one needs the slot, an unqueued one calm or an exemption; then the lane or the budget. */
  predicate Starts(p: Plan, t: TaskState, i: nat, queued: bool, clock: real, used: real) {
    && Free(p.yielded, t, clock)
    && (if queued then p.slot == Some(t.cfg.name) else p.over ==> t.cfg.exempt)
    && (if t.cfg.background then p.bulkNext == Some(i) else t.cfg.floor || used < FOREGROUND_BUDGET_SEC as real)
  }

  /** The chore is put on the release queue. */
  predicate Defers(p: Plan, t: TaskState, queued: bool, clock: real) {
    p.over && !queued && !t.cfg.exempt && Free(p.yielded, t, clock)
  }

  function EventOf(t: TaskState, i: nat, used: real, e: StepEnv): Event {
    if t.cfg.background then Spawned(i, !e.failed) else Ran(i, used, e.took)
  }

  /** A spawn only takes up the child; a refused one and the end of a body stamp and count. */
  function Started(t: TaskState, e: StepEnv, clock: real): TaskState {
    if !t.cfg.background then
      t.(lastRun := (clock + e.took).Floor, fails := if e.failed then t.fails + 1 else 0)
    else if e.failed then t.(lastRun := clock.Floor, fails := t.fails + 1)
    else t.(child := Some(Child(clock, None)))
  }

  /**
   What place `i` of the loop makes of the state `w`, the chore being `task`: it starts it, defers it, or leaves all
   as it is, as after a stop.
   */
  ghost predicate Effect(p: Plan, w: LoopState, t: LoopState, i: nat, e: StepEnv,
                         task: TaskState, queued: bool, clock: real, used: real, stop: bool)
  {
    var name := task.cfg.name;
    var starts := !stop && Starts(p, task, i, queued, clock, used);
    var defers := !stop && Defers(p, task, queued, clock);
    && i < |w.tasks|
    && t.log == w.log + (if starts then [EventOf(task, i, used, e)] else [])
    && t.tasks == (if starts then w.tasks[i := Started(task, e, clock)] else w.tasks)
    && t.queue == (if starts then Remove(w.queue, name) else if defers then w.queue + [name] else w.queue)
    && t.announced == (if defers then w.announced + {name} else w.announced)
    && t.now == (if stop then w.now else clock + if starts && !task.cfg.background then e.took else 0.0)
  }

  lemma StepIsPlace(p: Plan, w: LoopState, i: nat, e: StepEnv)
    requires i < |w.tasks| && !w.stopped && !e.stop && (p.bulkNext == Some(i) ==> !w.busy)
    ensures Effect(p, w, Step(p, w, i, e), i, e, w.tasks[i], w.tasks[i].cfg.name in w.queue, w.now + e.delay, w.used, false)
  {
    RipeIsDue(w.tasks[i], w.now + e.delay);
    RemoveKeeps(w.queue, w.tasks[i].cfg.name);
  }

  lemma StoppedPlace(p: Plan, w: LoopState, i: nat, e: StepEnv, task: TaskState, queued: bool, clock: real, used: real)
    requires i < |w.tasks| && (w.stopped || e.stop)
    ensures Effect(p, w, Step(p, w, i, e), i, e, task, queued, clock, used, true)
  {
  }

  // ---------- what a place finds ----------

  /** What the loop takes to get from place to place. */
  function Delays(steps: nat -> StepEnv, k: nat): (d: Duration) {
    if k == 0 then 0.0 else Delays(steps, k - 1) + steps(k - 1).delay
  }

  ghost predicate StopBefore(steps: nat -> StepEnv, k: nat) {
    exists j | 0 <= j < k :: steps(j).stop
  }

  /** The clock and the budget are those of the delays and of the bodies so far; the stops end it. */
  ghost predicate OnTime(o: LoopState, steps: nat -> StepEnv, j: nat, w: LoopState) {
    && w.stopped == StopBefore(steps, j) && w.used == TotalTime(w.log)
    && (!w.stopped ==> w.now == o.now + Delays(steps, j) + TotalTime(w.log))
  }

  lemma StopBeforeNext(steps: nat -> StepEnv, j: nat)
    ensures StopBefore(steps, j + 1) <==> StopBefore(steps, j) || steps(j).stop
  {
    if steps(j).stop {
      assert StopBefore(steps, j + 1);
    }
    if StopBefore(steps, j) {
      var i :| 0 <= i < j && steps(i).stop;
      assert StopBefore(steps, j + 1);
    }
  }

  lemma UsedIsTime(p: Plan, w: LoopState, i: nat, e: StepEnv)
    requires i < |w.tasks| && w.used == TotalTime(w.log)
    ensures Step(p, w, i, e).used == TotalTime(Step(p, w, i, e).log)
  {
    StepLog(p, w, i, e);
    StepStays(p, w, i, e);
    match Did(p, w, i, e)
    case Leave =>
    case Defer =>
    case Launch => FloorTimeOfFloorOnly(w.tasks, w.log, Spawned(i, !e.failed));
    case Execute => FloorTimeOfFloorOnly(w.tasks, w.log, Ran(i, w.used, e.took));
  }

  lemma StepOnTime(p: Plan, o: LoopState, w: LoopState, i: nat, steps: nat -> StepEnv, j: nat)
    requires i < |w.tasks| && OnTime(o, steps, j, w)
    ensures OnTime(o, steps, j + 1, Step(p, w, i, steps(j)))
  {
    StopBeforeNext(steps, j);
    UsedIsTime(p, w, i, steps(j));
    StepClock(p, w, i, steps(j));
    NextOnTime(o, steps, j, w, Step(p, w, i, steps(j)));
  }

  lemma NextOnTime(o: LoopState, steps: nat -> StepEnv, j: nat, w: LoopState, t: LoopState)
    requires OnTime(o, steps, j, w) && t.used == TotalTime(t.log)
    requires StopBefore(steps, j + 1) <==> StopBefore(steps, j) || steps(j).stop
    requires t.stopped == (w.stopped || steps(j).stop)
    requires !w.stopped && !steps(j).stop ==> t.now == w.now + steps(j).delay + (t.used - w.used)
    ensures OnTime(o, steps, j + 1, t)
  {
    assert Delays(steps, j + 1) == Delays(steps, j) + steps(j).delay;
  }

  lemma StepClock(p: Plan, w: LoopState, i: nat, e: StepEnv)
    requires i < |w.tasks|
    ensures Step(p, w, i, e).stopped == (w.stopped || e.stop)
    ensures !w.stopped && !e.stop ==>
              Step(p, w, i, e).now == w.now + e.delay + (Step(p, w, i, e).used - w.used)
  {
  }

  lemma LoopOnTime(p: Plan, o: LoopState, order: seq<nat>, steps: nat -> StepEnv, k: nat)
    requires k <= |order| && Indices(o.tasks, order) && o.log == [] && o.used == 0.0 && !o.stopped
    ensures OnTime(o, steps, k, After(p, o, order, steps, k))
  {
    var inv := (j: nat, w: LoopState) => OnTime(o, steps, j, w);
    forall j: nat, w: LoopState | j < k && |w.tasks| == |o.tasks| && inv(j, w)
      ensures inv(j + 1, Step(p, w, order[j], steps(j)))
    {
      StepOnTime(p, o, w, order[j], steps, j);
    }
    LoopInduction(p, o, order, steps, inv, 0, k);
  }

  /** Only its own place puts a chore on the queue or takes it off. */
  lemma QueuedAtPlace(p: Plan, o: LoopState, order: seq<nat>, steps: nat -> StepEnv, m: nat)
    requires m < |order| && Indices(o.tasks, order) && NoDuplicates(order) && UniqueNames(o.tasks)
    ensures var name := o.tasks[order[m]].cfg.name; name in After(p, o, order, steps, m).queue <==> name in o.queue
  {
    var name := o.tasks[order[m]].cfg.name;
    var inv := (j: nat, w: LoopState) => SameRegistry(w.tasks, o.tasks) && (name in w.queue <==> name in o.queue);
    forall j: nat, w: LoopState | j < m && |w.tasks| == |o.tasks| && inv(j, w)
      ensures inv(j + 1, Step(p, w, order[j], steps(j)))
    {
      assert order[j] != order[m];
      StepKeepsRegistry(p, w, order[j], steps(j));
      assert w.tasks[order[j]].cfg.name != name;
      OtherNameStays(p, w, order[j], steps(j), name);
    }
    LoopInduction(p, o, order, steps, inv, 0, m);
  }

  lemma OtherNameStays(p: Plan, w: LoopState, i: nat, e: StepEnv, name: string)
    requires i < |w.tasks| && w.tasks[i].cfg.name != name
    ensures name in Step(p, w, i, e).queue <==> name in w.queue
  {
    StepQueue(p, w, i, e);
    OthersStayIn(w.queue, w.tasks[i].cfg.name, name);
  }

  lemma OthersStayIn(q: seq<string>, x: string, y: string)
    requires x != y
    ensures y in Remove(q, x) <==> y in q
  {
    if x in q {
      var k := RemoveSplits(q, x);
      if y in q {
        var j :| 0 <= j < |q| && q[j] == y;
        assert Remove(q, x)[if j < k then j else j - 1] == y;
      }
    } else {
      RemoveAbsent(q, x);
    }
  }

  // ---------- the whole pass ----------

  /** The clock at place `m`, its own delay included: the delays and the bodies so far. */
  ghost function Clock(s: Sched, env: PassEnv, m: nat): real
    requires m < |s.tasks|
  {
    s.now + env.lead + Delays(env.steps, m + 1) + TotalTime(At(s, env, m).log)
  }

  /** The chore at place `m` is started: no stop has been seen, and all its conditions hold there. */
  ghost predicate StartsAt(s: Sched, env: PassEnv, m: nat)
    requires m < |s.tasks|
  {
    var i := OrderOf(s, env)[m];
    var t := Opening(s, env).tasks[i];
    && !StopBefore(env.steps, m + 1)
    && Starts(PlanOf(s, env), t, i, t.cfg.name in s.queue, Clock(s, env, m), TotalTime(At(s, env, m).log))
  }

  /** How a pass opens. */
  ghost predicate OpensWell(s: Sched, env: PassEnv, o: LoopState) {
    && o.log == [] && o.used == 0.0 && !o.stopped && o.queue == s.queue && o.now == s.now + env.lead
    && o.announced == (match env.pressure.runnable
                       case Some(n) => if n as real < env.pressure.clearAt then {} else s.announced
                       case None => s.announced)
  }

  lemma PassOpens(s: Sched, env: PassEnv)
    ensures OpensWell(s, env, At(s, env, 0)) && At(s, env, 0) == Opening(s, env)
  {
  }

  lemma WhatPlaceFinds(s: Sched, env: PassEnv, m: nat)
    requires m < |s.tasks| && UniqueNames(s.tasks)
    ensures var i, w := OrderOf(s, env)[m], At(s, env, m);
            && w.tasks[i] == Opening(s, env).tasks[i]
            && (w.tasks[i].cfg.name in w.queue <==> w.tasks[i].cfg.name in s.queue)
            && OnTime(Opening(s, env), env.steps, m, w)
            && (PlanOf(s, env).bulkNext == Some(i) ==> !w.busy)
  {
    var p, o, order := PlanOf(s, env), Opening(s, env), OrderOf(s, env);
    ReleaseQueue.OpeningKeepsRegistry(s, env);
    OrderHasNoDuplicates(o.tasks, order);
    ReleaseQueue.UntouchedBeforePlace(p, o, order, env.steps, m, m);
    QueuedAtPlace(p, o, order, env.steps, m);
    LoopOnTime(p, o, order, env.steps, m);
    if p.bulkNext == Some(order[m]) {
      ReleaseQueue.LaneBeforePlace(p, o, order, env.steps, m, m);
    }
  }

  lemma OrderHasNoDuplicates(ts: seq<TaskState>, order: seq<nat>)
    requires Indices(ts, order) && InOrder(ts, order)
    ensures NoDuplicates(order)
  {
    forall a, b | 0 <= a < b < |order| ensures order[a] != order[b] {
      assert Before(ts, order[a], order[b]);
    }
  }

  lemma OnePlaceFurther(s: Sched, env: PassEnv, m: nat)
    requires m < |s.tasks|
    ensures At(s, env, m + 1) == Step(PlanOf(s, env), At(s, env, m), OrderOf(s, env)[m], env.steps(m))
  {
    AfterNext(PlanOf(s, env), Opening(s, env), OrderOf(s, env), env.steps, m);
  }

  /**
   The pass, exactly: what each place adds to the log, does to its chore, to the queue and to what is announced.
   Since every chore has one place, this determines the whole of it.
   */
  lemma PlaceExactly(s: Sched, env: PassEnv, m: nat)
    requires m < |s.tasks| && UniqueNames(s.tasks)
    ensures var i, w := OrderOf(s, env)[m], At(s, env, m);
            var task := Opening(s, env).tasks[i];
            Effect(PlanOf(s, env), w, At(s, env, m + 1), i, env.steps(m), task, task.cfg.name in s.queue,
                   Clock(s, env, m), TotalTime(w.log), StopBefore(env.steps, m + 1))
  {
    WhatPlaceFinds(s, env, m);
    OnePlaceFurther(s, env, m);
    StopBeforeNext(env.steps, m);
    EffectOfPlace(PlanOf(s, env), Opening(s, env), env.steps, m, OrderOf(s, env)[m], At(s, env, m), s.queue,
                  Clock(s, env, m));
  }

  lemma EffectOfPlace(p: Plan, o: LoopState, steps: nat -> StepEnv, m: nat, i: nat, w: LoopState, queue: seq<string>,
                      clock: real)
    requires i < |w.tasks| && i < |o.tasks| && w.tasks[i] == o.tasks[i] && OnTime(o, steps, m, w)
    requires w.tasks[i].cfg.name in w.queue <==> w.tasks[i].cfg.name in queue
    requires p.bulkNext == Some(i) ==> !w.busy
    requires clock == o.now + Delays(steps, m + 1) + TotalTime(w.log)
    requires StopBefore(steps, m + 1) <==> StopBefore(steps, m) || steps(m).stop
    ensures Effect(p, w, Step(p, w, i, steps(m)), i, steps(m), o.tasks[i], o.tasks[i].cfg.name in queue, clock,
                   TotalTime(w.log), StopBefore(steps, m + 1))
  {
    if w.stopped || steps(m).stop {
      StoppedPlace(p, w, i, steps(m), o.tasks[i], o.tasks[i].cfg.name in queue, clock, TotalTime(w.log));
    } else {
      StepIsPlace(p, w, i, steps(m));
      assert clock == w.now + steps(m).delay;
    }
  }

  // ---------- what the pass as a whole does ----------

  /** What place `m` logs, if it starts its chore. */
  ghost predicate LogsAt(s: Sched, env: PassEnv, m: nat, e: Event) {
    && m < |s.tasks| && StartsAt(s, env, m) && OrderOf(s, env)[m] == e.task
    && e == EventOf(Opening(s, env).tasks[e.task], e.task, TotalTime(At(s, env, m).log), env.steps(m))
  }

  ghost predicate LogsBefore(s: Sched, env: PassEnv, k: nat, e: Event) {
    exists m: nat :: m < k && LogsAt(s, env, m, e)
  }

  lemma LogsBeforeNext(s: Sched, env: PassEnv, k: nat, e: Event, next: nat)
    requires next == k + 1
    ensures LogsBefore(s, env, next, e) <==> LogsBefore(s, env, k, e) || LogsAt(s, env, k, e)
  {
    if LogsBefore(s, env, k, e) {
      var m: nat :| m < k && LogsAt(s, env, m, e);
      assert m < next;
    }
  }

  lemma PlaceLogs(s: Sched, env: PassEnv, m: nat, e: Event, next: nat)
    requires m < |s.tasks| && UniqueNames(s.tasks) && next == m + 1
    ensures e in At(s, env, next).log <==> e in At(s, env, m).log || LogsAt(s, env, m, e)
  {
    PlaceExactly(s, env, m);
  }

  lemma {:induction false} LoggedByPlace(s: Sched, env: PassEnv, k: nat, e: Event)
    requires k <= |s.tasks| && UniqueNames(s.tasks)
    ensures e in At(s, env, k).log <==> LogsBefore(s, env, k, e)
  {
    if k == 0 {
      PassOpens(s, env);
    } else {
      LoggedByPlace(s, env, k - 1, e);
      PlaceLogs(s, env, k - 1, e, k);
      LogsBeforeNext(s, env, k - 1, e, k);
    }
  }

  /**
   Every dispatch is one of a chore that was ready for it: at its own place, before any stop, un-yielded, this
   thread's, childless, its cadence and penalty over by the clock there, admitted by pressure and queue, and
   with the lane or the budget for it. A spawn is a bulk chore's and a body a foreground one's. And every
   chore of which all this holds is dispatched.
   */
  lemma DispatchedExactly(s: Sched, env: PassEnv, m: nat)
    requires m < |s.tasks| && UniqueNames(s.tasks)
    ensures var i := OrderOf(s, env)[m];
            && (Dispatched(Final(s, env).log, i) <==> StartsAt(s, env, m))
            && (forall e | e in Final(s, env).log && e.task == i ::
                  e == EventOf(Opening(s, env).tasks[i], i, TotalTime(At(s, env, m).log), env.steps(m)))
  {
    var i := OrderOf(s, env)[m];
    if StartsAt(s, env, m) {
      var own := EventOf(Opening(s, env).tasks[i], i, TotalTime(At(s, env, m).log), env.steps(m));
      LoggedByPlace(s, env, |s.tasks|, own);
      assert LogsAt(s, env, m, own);
    }
    forall e | e in Final(s, env).log && e.task == i ensures LogsAt(s, env, m, e) {
      LoggedAtOwnPlace(s, env, m, e);
    }
  }

  lemma LoggedAtOwnPlace(s: Sched, env: PassEnv, m: nat, e: Event)
    requires m < |s.tasks| && UniqueNames(s.tasks) && e in Final(s, env).log && e.task == OrderOf(s, env)[m]
    ensures LogsAt(s, env, m, e)
  {
    LoggedByPlace(s, env, |s.tasks|, e);
    var k: nat :| k < |s.tasks| && LogsAt(s, env, k, e);
    OrderHasNoDuplicates(Opening(s, env).tasks, OrderOf(s, env));
    assert k == m;
  }

  /** What place `m` makes of its own chore. */
  ghost function Made(s: Sched, env: PassEnv, m: nat): TaskState
    requires m < |s.tasks|
  {
    var t := Opening(s, env).tasks[OrderOf(s, env)[m]];
    if StartsAt(s, env, m) then Started(t, env.steps(m), Clock(s, env, m)) else t
  }

  lemma OwnPlace(s: Sched, env: PassEnv, m: nat, i: nat, k: nat) returns (t: TaskState)
    requires m < |s.tasks| && UniqueNames(s.tasks) && i == OrderOf(s, env)[m] && k == m + 1
    ensures t == At(s, env, k).tasks[i] && t == Made(s, env, m)
  {
    PlaceExactly(s, env, m);
    WhatPlaceFinds(s, env, m);
    t := At(s, env, k).tasks[i];
  }

  /** After its own place a chore stays as it is. */
  lemma UntouchedAfterPlace(p: Plan, o: LoopState, order: seq<nat>, steps: nat -> StepEnv, m: nat, k: nat)
    requires m < k <= |order| && Indices(o.tasks, order) && NoDuplicates(order)
    ensures After(p, o, order, steps, k).tasks[order[m]] == After(p, o, order, steps, m + 1).tasks[order[m]]
  {
    var i := order[m];
    var t := After(p, o, order, steps, m + 1).tasks[i];
    var inv := (j: nat, w: LoopState) => i < |w.tasks| && w.tasks[i] == t;
    forall j: nat, w: LoopState | m + 1 <= j < k && |w.tasks| == |o.tasks| && inv(j, w)
      ensures inv(j + 1, Step(p, w, order[j], steps(j)))
    {
      assert order[j] != i;
      StepKeepsRegistry(p, w, order[j], steps(j));
    }
    LoopInduction(p, o, order, steps, inv, m + 1, k);
  }

  lemma StaysAfter(s: Sched, env: PassEnv, m: nat)
    requires m < |s.tasks|
    ensures Final(s, env).tasks[OrderOf(s, env)[m]] == At(s, env, m + 1).tasks[OrderOf(s, env)[m]]
  {
    OrderHasNoDuplicates(Opening(s, env).tasks, OrderOf(s, env));
    UntouchedAfterPlace(PlanOf(s, env), Opening(s, env), OrderOf(s, env), env.steps, m, |s.tasks|);
  }

  /** What a pass leaves of a chore: as it opened, or started, and perhaps its child ended meanwhile. */
  lemma TaskExactly(s: Sched, env: PassEnv, m: nat)
    requires m < |s.tasks| && UniqueNames(s.tasks)
    ensures var i, t := OrderOf(s, env)[m], Made(s, env, m);
            Pass(s, env).tasks[i] == if t.child.Some? && t.child.value.rc.None? && env.exits(2, i).Some?
                                     then t.(child := Some(Child(t.child.value.t0, env.exits(2, i)))) else t
  {
    var t := OwnPlace(s, env, m, OrderOf(s, env)[m], m + 1);
    StaysAfter(s, env, m);
    ClosingExactly(Final(s, env), env, OrderOf(s, env)[m]);
  }

  lemma ClosingExactly(f: LoopState, env: PassEnv, i: nat)
    requires i < |f.tasks|
    ensures var t := f.tasks[i];
            Closing(f, env).tasks[i] == if t.child.Some? && t.child.value.rc.None? && env.exits(2, i).Some?
                                        then t.(child := Some(Child(t.child.value.t0, env.exits(2, i)))) else t
  {
  }

  /** With what exit code, if any, a child is found as the pass opens. */
  function FoundExit(t: TaskState, ex: Option<int>): Option<int> {
    if t.child.None? then None else if t.child.value.rc.Some? then t.child.value.rc else ex
  }

  /** As a pass opens, finished bulk children are reaped: stamped with the present second, and counted. */
  lemma OpeningExactly(s: Sched, env: PassEnv, i: nat)
    requires i < |s.tasks|
    ensures var t, exit := s.tasks[i], FoundExit(s.tasks[i], env.exits(0, i));
            Opening(s, env).tasks[i]
            == if t.child.None? then t
               else if t.cfg.background && exit.Some? then
                 t.(child := None, lastRun := (s.now + env.lead).Floor, fails := if exit.value == 0 then 0 else t.fails + 1)
               else t.(child := Some(Child(t.child.value.t0, if exit.Some? then exit else env.exits(1, i))))
  {
  }

  /** The chore a release turn is given to, if any: under the bar, the first queued one that is ripe. */
  lemma PlanExactly(s: Sched, env: PassEnv)
    ensures var p, o := PlanOf(s, env), Opening(s, env);
            && p.yielded == env.yielded
            && (p.over <==> env.pressure.runnable.Some? && env.pressure.runnable.value >= env.pressure.bar)
            && (p.over ==> p.slot.None?)
            && (p.bulkNext.Some? ==> forall i | 0 <= i < |o.tasks| && o.tasks[i].cfg.background ::
                                       o.tasks[i].child.Some? ==> o.tasks[i].child.value.rc.Some?)
  {
  }

  /** In a calm pass, a ripe un-yielded chore that waits for no turn starts, if reached, as far as lane or budget allow. */
  lemma CalmStarts(s: Sched, env: PassEnv, m: nat)
    requires m < |s.tasks| && UniqueNames(s.tasks) && !env.pressure.Over() && !StopBefore(env.steps, m + 1)
    requires var i := OrderOf(s, env)[m];
             var t := Opening(s, env).tasks[i];
             && t.cfg.name !in env.yielded && !t.cfg.ownThread && Ripe(t, Clock(s, env, m)) && t.cfg.name !in s.queue
             && if t.cfg.background then PlanOf(s, env).bulkNext == Some(i)
                else t.cfg.floor || TotalTime(At(s, env, m).log) < FOREGROUND_BUDGET_SEC as real
    ensures Dispatched(Final(s, env).log, OrderOf(s, env)[m])
  {
    DispatchedExactly(s, env, m);
  }

  /** A direct run outside the pass: nothing while a child is alive, else the body's time passes and is stamped. */
  lemma DirectRunExactly(s: Sched, i: nat, took: Duration, failed: bool)
    ensures var t := Act(s, RunDirect(i, took, failed));
            if i >= |s.tasks| || (s.tasks[i].child.Some? && s.tasks[i].child.value.rc.None?) then t == s
            else t == s.(now := s.now + took,
                         tasks := s.tasks[i := s.tasks[i].(lastRun := (s.now + took).Floor,
                                                           fails := if failed then s.tasks[i].fails + 1 else 0)])
  {
  }

  /** Sleeping only lets time pass. */
  lemma SleepExactly(s: Sched, d: Duration)
    ensures Act(s, Sleep(d)) == Sched(s.tasks, s.queue, s.announced, s.now + d)
  {
  }
}
