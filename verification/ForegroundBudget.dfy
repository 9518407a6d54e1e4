/**
 The per-pass foreground budget and its exempt floor (scripts/daemon.py:355-373, 4033-4035,
 4088-4099): what a pass may cost, and how long a chore outside the floor can be put off.
 */
module ForegroundBudget {
  import opened Common
  import opened TaskRecord
  import opened DispatchOrder
  import opened DuePass
  import opened Fairness

  /** Wall time of all bodies of a pass, and of the floor's alone. */
  ghost function TotalTime(log: seq<Event>): Duration {
    if log == [] then 0.0
    else TotalTime(log[..|log| - 1]) + (if log[|log| - 1].Ran? then log[|log| - 1].took else 0.0)
  }

  ghost function FloorTime(ts: seq<TaskState>, log: seq<Event>): Duration {
    if log == [] then 0.0
    else
      var e := log[|log| - 1];
      FloorTime(ts, log[..|log| - 1])
      + (if e.Ran? && e.task < |ts| && ts[e.task].cfg.floor then e.took else 0.0)
  }

  ghost predicate NonFloorBody(ts: seq<TaskState>, e: Event) {
    e.Ran? && e.task < |ts| && !ts[e.task].cfg.floor
  }

  /** No floor body after a non-floor one. */
  ghost predicate FloorFirst(ts: seq<TaskState>, log: seq<Event>) {
    forall a, b | 0 <= a < b < |log| && NonFloorBody(ts, log[a]) && log[b].Ran? :: NonFloorBody(ts, log[b])
  }

  /** Either only floor bodies ran, or the last body started under budget and accounts for the excess. */
  ghost predicate CostBounded(ts: seq<TaskState>, log: seq<Event>, used: real) {
    (used == FloorTime(ts, log) && forall e | e in log && e.Ran? :: !NonFloorBody(ts, e))
    || exists e | e in log :: NonFloorBody(ts, e) && used == e.before + e.took
                              && e.before < FOREGROUND_BUDGET_SEC as real
  }

  ghost predicate Accounted(o: LoopState, w: LoopState, order: seq<nat>, k: nat)
    requires k <= |order|
  {
    && SameRegistry(w.tasks, o.tasks)
    && FloorFirst(o.tasks, w.log) && w.used == TotalTime(w.log) && CostBounded(o.tasks, w.log, w.used)
    && (forall e | e in w.log && e.Ran? :: NonFloorBody(o.tasks, e) ==> e.before < FOREGROUND_BUDGET_SEC as real)
    && RanAtPlaces(w.log, order, k)
  }

  lemma FloorTimeOfFloorOnly(ts: seq<TaskState>, log: seq<Event>, e: Event)
    ensures TotalTime(log + [e]) == TotalTime(log) + if e.Ran? then e.took else 0.0
    ensures FloorTime(ts, log + [e])
         == FloorTime(ts, log) + if e.Ran? && e.task < |ts| && ts[e.task].cfg.floor then e.took else 0.0
  {
    assert (log + [e])[..|log|] == log;
  }

  lemma SpawnKeepsAccount(o: LoopState, w: LoopState, t: LoopState, order: seq<nat>, k: nat, e: Event)
    requires k < |order| && Accounted(o, w, order, k) && e.Spawned?
    requires SameRegistry(t.tasks, w.tasks) && t.log == w.log + [e] && t.used == w.used
    ensures Accounted(o, t, order, k + 1)
  {
    FloorTimeOfFloorOnly(o.tasks, w.log, e);
    RanAtOneMore(w.log, e, order, k);
    if exists x | x in w.log :: NonFloorBody(o.tasks, x) && w.used == x.before + x.took
                               && x.before < FOREGROUND_BUDGET_SEC as real {
      var x :| x in w.log && NonFloorBody(o.tasks, x) && w.used == x.before + x.took
               && x.before < FOREGROUND_BUDGET_SEC as real;
      assert x in t.log;
    }
  }

  /** The order is floor-first, so once a non-floor body has run only non-floor places are left. */
  lemma EarlierNonFloor(o: LoopState, w: LoopState, order: seq<nat>, k: nat, e: Event)
    requires k < |order| && Indices(o.tasks, order) && InOrder(o.tasks, order)
    requires Accounted(o, w, order, k) && e in w.log && NonFloorBody(o.tasks, e)
    ensures !o.tasks[order[k]].cfg.floor
  {
    var j :| 0 <= j < k && order[j] == e.task;
    assert Before(o.tasks, order[j], order[k]);
  }

  /** Every body that ran stands at one of the first `k` places. */
  ghost predicate RanAtPlaces(log: seq<Event>, order: seq<nat>, k: nat)
    requires k <= |order|
  {
    forall e | e in log && e.Ran? :: exists j | 0 <= j < k :: order[j] == e.task
  }

  lemma RanAtOneMore(log: seq<Event>, e: Event, order: seq<nat>, k: nat)
    requires k < |order| && RanAtPlaces(log, order, k) && (e.Ran? ==> e.task == order[k])
    ensures RanAtPlaces(log + [e], order, k + 1)
  {
    forall x | x in log + [e] && x.Ran? ensures exists j | 0 <= j < k + 1 :: order[j] == x.task {
      if x in log {
        var j :| 0 <= j < k && order[j] == x.task;
      } else {
        assert order[k] == x.task;
      }
    }
  }

  /** A body of the floor, before which only the floor ran; or one outside it, which started under budget. */
  lemma BodyKeepsFloorFirst(ts: seq<TaskState>, log: seq<Event>, e: Event)
    requires e.Ran? && e.task < |ts| && FloorFirst(ts, log)
    requires ts[e.task].cfg.floor ==> forall x | x in log :: !NonFloorBody(ts, x)
    ensures FloorFirst(ts, log + [e])
  {
    forall a, b | 0 <= a < b < |log + [e]| && NonFloorBody(ts, (log + [e])[a]) && (log + [e])[b].Ran?
      ensures NonFloorBody(ts, (log + [e])[b])
    {
      assert (log + [e])[a] in log;
    }
  }

  lemma BodyKeepsCost(ts: seq<TaskState>, log: seq<Event>, used: real, e: Event)
    requires e.Ran? && e.task < |ts| && e.before == used && CostBounded(ts, log, used)
    requires ts[e.task].cfg.floor ==> forall x | x in log :: !NonFloorBody(ts, x)
    requires !ts[e.task].cfg.floor ==> used < FOREGROUND_BUDGET_SEC as real
    ensures CostBounded(ts, log + [e], used + e.took)
  {
    FloorTimeOfFloorOnly(ts, log, e);
    if !ts[e.task].cfg.floor {
      assert e in log + [e] && NonFloorBody(ts, e);
    }
  }

  lemma RunKeepsAccount(o: LoopState, w: LoopState, t: LoopState, order: seq<nat>, k: nat, took: Duration)
    requires k < |order| && Indices(o.tasks, order) && InOrder(o.tasks, order)
    requires Accounted(o, w, order, k) && SameRegistry(t.tasks, w.tasks)
    requires t.log == w.log + [Ran(order[k], w.used, took)] && t.used == w.used + took
    requires o.tasks[order[k]].cfg.floor || w.used < FOREGROUND_BUDGET_SEC as real
    ensures Accounted(o, t, order, k + 1)
  {
    var e := Ran(order[k], w.used, took);
    if o.tasks[order[k]].cfg.floor {
      forall x | x in w.log ensures !NonFloorBody(o.tasks, x) {
        if NonFloorBody(o.tasks, x) {
          EarlierNonFloor(o, w, order, k, x);
        }
      }
    }
    FloorTimeOfFloorOnly(o.tasks, w.log, e);
    BodyKeepsFloorFirst(o.tasks, w.log, e);
    BodyKeepsCost(o.tasks, w.log, w.used, e);
    RanAtOneMore(w.log, e, order, k);
  }

  lemma LeaveKeepsAccount(o: LoopState, w: LoopState, t: LoopState, order: seq<nat>, k: nat)
    requires k < |order| && Accounted(o, w, order, k)
    requires SameRegistry(t.tasks, w.tasks) && t.log == w.log && t.used == w.used
    ensures Accounted(o, t, order, k + 1)
  {
  }

  lemma StepUsed(p: Plan, s: LoopState, i: nat, e: StepEnv)
    requires i < |s.tasks|
    ensures var v := Did(p, s, i, e); var t := Step(p, s, i, e);
            && t.used == s.used + (if v.Execute? then e.took else 0.0)
            && (v.Execute? ==> s.tasks[i].cfg.floor || s.used < FOREGROUND_BUDGET_SEC as real)
  {
  }

  lemma LoopAccounted(p: Plan, o: LoopState, order: seq<nat>, steps: nat -> StepEnv, k: nat)
    requires k <= |order| && Indices(o.tasks, order) && InOrder(o.tasks, order)
    requires o.log == [] && o.used == 0.0
    ensures Accounted(o, After(p, o, order, steps, k), order, k)
  {
    var inv := (j: nat, w: LoopState) => j <= |order| && Accounted(o, w, order, j);
    NothingToAccount(o, order);
    forall j: nat, w: LoopState | j < k && |w.tasks| == |o.tasks| && inv(j, w)
      ensures inv(j + 1, Step(p, w, order[j], steps(j)))
    {
      StepAccounted(p, o, w, order, j, steps(j));
    }
    LoopInduction(p, o, order, steps, inv, 0, k);
  }

  lemma NothingToAccount(o: LoopState, order: seq<nat>)
    requires o.log == [] && o.used == 0.0
    ensures Accounted(o, o, order, 0)
  {
  }

  lemma StepAccounted(p: Plan, o: LoopState, w: LoopState, order: seq<nat>, k: nat, e: StepEnv)
    requires k < |order| && Indices(o.tasks, order) && InOrder(o.tasks, order) && Accounted(o, w, order, k)
    ensures Accounted(o, Step(p, w, order[k], e), order, k + 1)
  {
    var i := order[k];
    var t := Step(p, w, i, e);
    StepKeepsRegistry(p, w, i, e);
    StepLog(p, w, i, e);
    StepUsed(p, w, i, e);
    match Did(p, w, i, e)
    case Leave => LeaveKeepsAccount(o, w, t, order, k);
    case Defer => LeaveKeepsAccount(o, w, t, order, k);
    case Launch => SpawnKeepsAccount(o, w, t, order, k, Spawned(i, !e.failed));
    case Execute => RunKeepsAccount(o, w, t, order, k, e.took);
  }

  /**
   One pass: the floor's bodies come first; every other body starts with budget left; and all bodies
   together take either the floor's own time, or less than the budget plus the one body that exceeded it.
   */
  lemma PassCost(s: Sched, env: PassEnv)
    ensures FloorFirst(s.tasks, Final(s, env).log)
    ensures forall e | e in Final(s, env).log && NonFloorBody(s.tasks, e) :: e.before < FOREGROUND_BUDGET_SEC as real
    ensures TotalTime(Final(s, env).log) == FloorTime(s.tasks, Final(s, env).log)
            || exists e | e in Final(s, env).log && NonFloorBody(s.tasks, e) ::
                 TotalTime(Final(s, env).log) < FOREGROUND_BUDGET_SEC as real + e.took
  {
    var o := Opening(s, env);
    assert SameRegistry(o.tasks, s.tasks);
    LoopAccounted(PlanOf(s, env), o, OrderOf(s, env), env.steps, |s.tasks|);
    AccountOfRegistry(o, s.tasks, Final(s, env), OrderOf(s, env), |s.tasks|);
  }

  lemma {:induction false} FloorTimeByRegistry(a: seq<TaskState>, b: seq<TaskState>, log: seq<Event>)
    requires SameRegistry(a, b)
    ensures FloorTime(a, log) == FloorTime(b, log)
  {
    if log != [] {
      FloorTimeByRegistry(a, b, log[..|log| - 1]);
    }
  }

  lemma AccountOfRegistry(o: LoopState, ts: seq<TaskState>, w: LoopState, order: seq<nat>, k: nat)
    requires SameRegistry(o.tasks, ts) && k <= |order| && Accounted(o, w, order, k)
    ensures FloorFirst(ts, w.log)
    ensures forall e | e in w.log && NonFloorBody(ts, e) :: e.before < FOREGROUND_BUDGET_SEC as real
    ensures TotalTime(w.log) == FloorTime(ts, w.log)
            || exists e | e in w.log && NonFloorBody(ts, e) ::
                 TotalTime(w.log) < FOREGROUND_BUDGET_SEC as real + e.took
  {
    FloorTimeByRegistry(o.tasks, ts, w.log);
    assert forall e :: NonFloorBody(o.tasks, e) <==> NonFloorBody(ts, e);
  }

  // ---------- how long a chore can be put off ----------

  /** `x` is a due foreground chore outside the floor that this pass could run, but for the budget. */
  ghost predicate PutOff(s: Sched, env: PassEnv, x: nat) {
    && Waits(s, DoPass(env), x)
    && !s.tasks[x].cfg.background && !s.tasks[x].cfg.ownThread && !s.tasks[x].cfg.floor
    && s.tasks[x].cfg.interval >= 1 && s.tasks[x].cfg.name !in env.yielded
  }

  /** A calm, uninterrupted pass whose floor leaves budget, over chores of which `x` is not waiting for release. */
  ghost predicate Orderly(s: Sched, env: PassEnv, x: nat)
    requires x < |s.tasks|
  {
    && !env.pressure.Over() && (forall k | 0 <= k < |s.tasks| :: !env.steps(k).stop)
    && s.tasks[x].cfg.name !in s.queue
    && FloorTime(s.tasks, Final(s, env).log) < FOREGROUND_BUDGET_SEC as real
  }

  /** At its own place an unqueued due chore is passed over only for want of budget. */
  lemma PassedOverForBudget(p: Plan, w: LoopState, x: nat, e: StepEnv)
    requires x < |w.tasks| && !w.stopped && !e.stop && !p.over
    requires Due(w.tasks[x], w.now + e.delay) && w.tasks[x].cfg.name !in p.yielded && w.tasks[x].cfg.name !in w.queue
    requires !w.tasks[x].cfg.background && !w.tasks[x].cfg.ownThread && !w.tasks[x].cfg.floor
    requires w.used < FOREGROUND_BUDGET_SEC as real
    ensures Dispatched(Step(p, w, x, e).log, x)
  {
    StepLog(p, w, x, e);
    var l := Step(p, w, x, e).log;
    assert l[|l| - 1] in l && l[|l| - 1].task == x;
  }

  /** What holds of the loop when it reaches the place of a chore it will not dispatch. */
  lemma OnTheWay(p: Plan, o: LoopState, order: seq<nat>, steps: nat -> StepEnv, m: nat)
    requires m < |order| && Indices(o.tasks, order) && NoDuplicates(order) && !p.over && !o.stopped
    requires forall j | 0 <= j < |order| :: !steps(j).stop
    ensures var w := After(p, o, order, steps, m);
            && w.tasks[order[m]] == o.tasks[order[m]] && !w.stopped && w.now >= o.now
            && forall q | q in w.queue :: q in o.queue
  {
    var x := order[m];
    var inv := (j: nat, w: LoopState) =>
      && x < |w.tasks| && w.tasks[x] == o.tasks[x] && !w.stopped && w.now >= o.now
      && forall q | q in w.queue :: q in o.queue;
    forall j: nat, w: LoopState | j < m && |w.tasks| == |o.tasks| && inv(j, w)
      ensures inv(j + 1, Step(p, w, order[j], steps(j)))
    {
      assert order[j] != x;
      StepKeepsRegistry(p, w, order[j], steps(j));
      StepQueue(p, w, order[j], steps(j));
      StepStays(p, w, order[j], steps(j));
    }
    LoopInduction(p, o, order, steps, inv, 0, m);
  }

  lemma {:induction false} FloorTimeOfPrefix(ts: seq<TaskState>, a: seq<Event>, b: seq<Event>)
    requires a <= b
    ensures FloorTime(ts, a) <= FloorTime(ts, b)
  {
    if |a| < |b| {
      FloorTimeOfPrefix(ts, a, b[..|b| - 1]);
    } else {
      assert a == b;
    }
  }

  /**
   If the floor leaves budget and `x` still does not run, some non-floor body ran before it. That
   chore was ahead of `x` in the order.
   */
  lemma SomebodyElseRan(p: Plan, o: LoopState, order: seq<nat>, steps: nat -> StepEnv, m: nat) returns (y: nat)
    requires m < |order| && Indices(o.tasks, order) && InOrder(o.tasks, order) && NoDuplicates(order)
    requires o.log == [] && o.used == 0.0 && !o.stopped && !p.over
    requires forall j | 0 <= j < |order| :: !steps(j).stop
    requires var t := o.tasks[order[m]];
             && Due(t, o.now) && t.cfg.name !in p.yielded && t.cfg.name !in o.queue
             && !t.cfg.background && !t.cfg.ownThread && !t.cfg.floor
    requires !Dispatched(After(p, o, order, steps, |order|).log, order[m])
    requires FloorTime(o.tasks, After(p, o, order, steps, |order|).log) < FOREGROUND_BUDGET_SEC as real
    ensures y < |o.tasks| && y != order[m] && !o.tasks[y].cfg.floor
    ensures o.tasks[y].lastRun <= o.tasks[order[m]].lastRun
    ensures exists e | e in After(p, o, order, steps, |order|).log :: e.Ran? && e.task == y
  {
    var w, x, e := After(p, o, order, steps, m), order[m], steps(m);
    OnTheWay(p, o, order, steps, m);
    NotDispatchedAtPlace(p, o, order, steps, m);
    DueStaysDue(o.tasks[x], o.now, w.now + e.delay);
    if w.used < FOREGROUND_BUDGET_SEC as real {
      PassedOverForBudget(p, w, x, e);
      assert false;
    }
    LoopAccounted(p, o, order, steps, m);
    LogGrows(p, o, order, steps, m, |order|);
    FloorTimeOfPrefix(o.tasks, w.log, After(p, o, order, steps, |order|).log);
    var r :| r in w.log && NonFloorBody(o.tasks, r);
    y := r.task;
    var j :| 0 <= j < m && order[j] == y;
    assert Before(o.tasks, order[j], order[m]);
    assert r in After(p, o, order, steps, |order|).log;
  }

  lemma DispatchedStays(a: seq<Event>, b: seq<Event>, x: nat)
    requires a <= b && !Dispatched(b, x)
    ensures !Dispatched(a, x)
  {
    assert forall e | e in a :: e in b;
  }

  lemma LogGrowsFrom(p: Plan, o: LoopState, order: seq<nat>, steps: nat -> StepEnv, m: nat)
    requires m < |order| && Indices(o.tasks, order)
    ensures Step(p, After(p, o, order, steps, m), order[m], steps(m)).log <= After(p, o, order, steps, |order|).log
  {
    AfterNext(p, o, order, steps, m);
    LogGrows(p, o, order, steps, m + 1, |order|);
  }

  lemma NotDispatchedAtPlace(p: Plan, o: LoopState, order: seq<nat>, steps: nat -> StepEnv, m: nat)
    requires m < |order| && Indices(o.tasks, order)
    requires !Dispatched(After(p, o, order, steps, |order|).log, order[m])
    ensures !Dispatched(Step(p, After(p, o, order, steps, m), order[m], steps(m)).log, order[m])
  {
    LogGrowsFrom(p, o, order, steps, m);
    var early := Step(p, After(p, o, order, steps, m), order[m], steps(m)).log;
    DispatchedStays(early, After(p, o, order, steps, |order|).log, order[m]);
  }

  /** Each orderly pass that still puts `x` off uses up one of the chores ahead of it. */
  lemma PutOffShrinksAhead(s: Sched, env: PassEnv, x: nat)
    requires PutOff(s, env, x) && Orderly(s, env, x)
    ensures Ahead(Pass(s, env), x) < Ahead(s, x)
  {
    AheadOnlyShrinks(s, DoPass(env), x);
    WaitingUnchanged(s, env, x);
    DueMeansBefore(s.tasks[x], s.now);
    RegistryKeptByPass(s, env);
    var o := Opening(s, env);
    var y := TheOneThatRan(s, env, x);
    OpeningKeepsBehind(s, env, s.tasks[x].lastRun, y);
    assert y in Ahead(s, x) && y !in Ahead(Pass(s, env), x);
  }

  lemma TheOneThatRan(s: Sched, env: PassEnv, x: nat) returns (y: nat)
    requires PutOff(s, env, x) && Orderly(s, env, x)
    ensures y < |s.tasks| && y != x && !s.tasks[y].cfg.background
    ensures Opening(s, env).tasks[y].lastRun <= s.tasks[x].lastRun && Opening(s, env).tasks[y].child.None?
    ensures Behind(Pass(s, env).tasks[y], s.tasks[x].lastRun)
  {
    WaitingUnchanged(s, env, x);
    DueMeansBefore(s.tasks[x], s.now);
    var p, o, order := PlanOf(s, env), Opening(s, env), OrderOf(s, env);
    assert SameRegistry(o.tasks, s.tasks);
    DueStaysDue(s.tasks[x], s.now, o.now);
    FloorTimeByRegistry(o.tasks, s.tasks, Final(s, env).log);
    var m := PlaceOf(o.tasks, x);
    y := SomebodyElseRan(p, o, order, env.steps, m);
    StampedLoop(p, o, order, env.steps, |s.tasks|);
  }

  /** Every body that ran belongs to a foreground task that was free, and left a fresh stamp. */
  ghost predicate Stamped(o: LoopState, w: LoopState) {
    && |w.tasks| == |o.tasks| && w.now >= o.now
    && forall e | e in w.log && e.Ran? ::
         && e.task < |o.tasks| && !o.tasks[e.task].cfg.background && o.tasks[e.task].child.None?
         && w.tasks[e.task].lastRun >= o.now.Floor
  }

  lemma StampedStep(p: Plan, o: LoopState, w: LoopState, i: nat, e: StepEnv)
    requires i < |o.tasks| && Stamped(o, w) && w.tasks[i] == o.tasks[i]
    ensures Stamped(o, Step(p, w, i, e))
  {
    StepLog(p, w, i, e);
    var t := Step(p, w, i, e);
    forall r | r in t.log && r.Ran?
      ensures r.task < |o.tasks| && !o.tasks[r.task].cfg.background && o.tasks[r.task].child.None?
              && t.tasks[r.task].lastRun >= o.now.Floor
    {
      if r in w.log {
        StepStampsNow(p, w, i, e, r.task);
        StampsNeverFall(p, w, i, e, r.task, o.now);
      }
    }
  }

  lemma StampsNeverFall(p: Plan, w: LoopState, i: nat, e: StepEnv, y: nat, t0: real)
    requires i < |w.tasks| && y < |w.tasks| && w.now >= t0 && w.tasks[y].lastRun >= t0.Floor
    ensures Step(p, w, i, e).tasks[y].lastRun >= t0.Floor && Step(p, w, i, e).now >= t0
  {
  }

  lemma StampedLoop(p: Plan, o: LoopState, order: seq<nat>, steps: nat -> StepEnv, k: nat)
    requires k <= |order| && Indices(o.tasks, order) && NoDuplicates(order) && o.log == []
    ensures Stamped(o, After(p, o, order, steps, k))
  {
    var inv := (j: nat, w: LoopState) => j <= |order| && Stamped(o, w) && Unvisited(o, w, order, j);
    assert Stamped(o, o) && Unvisited(o, o, order, 0);
    forall j: nat, w: LoopState | j < k && |w.tasks| == |o.tasks| && inv(j, w)
      ensures inv(j + 1, Step(p, w, order[j], steps(j)))
    {
      StampedStep(p, o, w, order[j], steps(j));
      StepKeepsRegistry(p, w, order[j], steps(j));
    }
    LoopInduction(p, o, order, steps, inv, 0, k);
  }

  ghost predicate Unvisited(o: LoopState, w: LoopState, order: seq<nat>, j: nat) {
    |w.tasks| == |o.tasks|
    && forall m | j <= m < |order| && order[m] < |o.tasks| :: w.tasks[order[m]] == o.tasks[order[m]]
  }

  /** A due foreground chore outside the floor that this action does not run. */
  ghost predicate WaitsForBudget(s: Sched, a: Action, x: nat) {
    Waits(s, a, x) && s.tasks[x].cfg.interval >= 1
    && !s.tasks[x].cfg.background && !s.tasks[x].cfg.ownThread && !s.tasks[x].cfg.floor
  }

  /** An orderly pass that puts `x` off although nobody else owns it. */
  ghost predicate PutsOff(s: Sched, a: Action, x: nat) {
    a.DoPass? && PutOff(s, a.env, x) && Orderly(s, a.env, x)
  }

  ghost predicate WaitsForBudgetThroughout(s: Sched, acts: seq<Action>, x: nat)
    decreases |acts|
  {
    acts == [] || (WaitsForBudget(s, acts[0], x) && WaitsForBudgetThroughout(Act(s, acts[0]), acts[1..], x))
  }

  ghost function PutOffCount(s: Sched, acts: seq<Action>, x: nat): nat
    decreases |acts|
  {
    if acts == [] then 0
    else (if PutsOff(s, acts[0], x) then 1 else 0) + PutOffCount(Act(s, acts[0]), acts[1..], x)
  }

  lemma OneMorePutOff(s: Sched, a: Action, x: nat)
    requires WaitsForBudget(s, a, x)
    ensures (if PutsOff(s, a, x) then 1 else 0) + |Ahead(Act(s, a), x)| <= |Ahead(s, x)|
  {
    AheadOnlyShrinks(s, a, x);
    SubsetSize(Ahead(Act(s, a), x), Ahead(s, x));
    if PutsOff(s, a, x) {
      PutOffShrinksAhead(s, a.env, x);
    }
  }

  /**
   Whatever else happens while a due foreground chore outside the floor waits (busy passes, interrupted
   ones, sleeps, direct runs of other tasks), it is put off by at most as many calm passes that leave it
   budget as there are foreground chores ahead of it. The next such pass runs it.
   */
  lemma {:induction false} PutOffIsBounded(s: Sched, acts: seq<Action>, x: nat)
    requires x < |s.tasks| && WaitsForBudgetThroughout(s, acts, x)
    ensures PutOffCount(s, acts, x) <= |Ahead(s, x)|
    ensures PutOffCount(s, acts, x)
         <= |(set i: nat | i < |s.tasks| && i != x && s.tasks[i].cfg.background == s.tasks[x].cfg.background)|
    decreases |acts|
  {
    AheadIsBounded(s, x);
    if acts != [] {
      OneMorePutOff(s, acts[0], x);
      PutOffIsBounded(Act(s, acts[0]), acts[1..], x);
    }
  }
}
