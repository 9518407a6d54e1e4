/**
 The single bulk lane (scripts/daemon.py:3242-3347, 3671-3695, 4015-4018, 4081-4087): at most one
 child runs, no handle is lost, and oldest-last-run-first bounds every bulk chore's wait.
 */
module BulkLane {
  import opened Common
  import opened TaskRecord
  import opened DispatchOrder
  import opened DuePass
  import opened Fairness

  // ---------- one child ----------

  /** At most one running child, and only background tasks have children at all. */
  ghost predicate OneChild(ts: seq<TaskState>) {
    && (forall i, j | 0 <= i < |ts| && 0 <= j < |ts| && ts[i].ChildAlive() && ts[j].ChildAlive() :: i == j)
    && (forall i | 0 <= i < |ts| && ts[i].child.Some? :: ts[i].cfg.background)
  }

  ghost predicate LaneKnown(w: LoopState) {
    OneChild(w.tasks) && (forall i | 0 <= i < |w.tasks| && w.tasks[i].ChildAlive() :: w.busy)
  }

  /** A launch needs a due task, so there is no handle to overwrite; nothing else touches one. */
  lemma StepKeepsLane(p: Plan, w: LoopState, i: nat, e: StepEnv)
    requires i < |w.tasks| && LaneKnown(w)
    ensures LaneKnown(Step(p, w, i, e))
    ensures forall j | 0 <= j < |w.tasks| && w.tasks[j].child.Some? ::
              Step(p, w, i, e).tasks[j] == w.tasks[j]
  {
    StepKeepsRegistry(p, w, i, e);
    if Did(p, w, i, e).Launch? {
      assert !w.busy;
    }
  }

  lemma LoopKeepsLane(p: Plan, o: LoopState, order: seq<nat>, steps: nat -> StepEnv, k: nat)
    requires k <= |order| && Indices(o.tasks, order) && LaneKnown(o)
    ensures LaneKnown(After(p, o, order, steps, k))
    ensures forall j | 0 <= j < |o.tasks| && o.tasks[j].child.Some? ::
              After(p, o, order, steps, k).tasks[j] == o.tasks[j]
  {
    var inv := (j: nat, w: LoopState) => LaneKnown(w) && HandlesKept(o, w);
    forall j: nat, w: LoopState | j < k && |w.tasks| == |o.tasks| && inv(j, w)
      ensures inv(j + 1, Step(p, w, order[j], steps(j)))
    {
      StepKeepsLane(p, w, order[j], steps(j));
    }
    LoopInduction(p, o, order, steps, inv, 0, k);
  }

  ghost predicate HandlesKept(o: LoopState, w: LoopState) {
    |w.tasks| == |o.tasks| && forall j | 0 <= j < |o.tasks| && o.tasks[j].child.Some? :: w.tasks[j] == o.tasks[j]
  }

  lemma OpeningKnowsLane(s: Sched, env: PassEnv)
    requires OneChild(s.tasks)
    ensures LaneKnown(Opening(s, env))
    ensures forall j | 0 <= j < |s.tasks| && s.tasks[j].ChildAlive() && env.exits(0, j).None? ::
              Opening(s, env).tasks[j].child.Some? && Opening(s, env).tasks[j].child.value.t0 == s.tasks[j].child.value.t0
  {
    var o := Opening(s, env);
    assert forall j | 0 <= j < |o.tasks| && o.tasks[j].ChildAlive() :: s.tasks[j].ChildAlive();
  }

  /**
   A pass keeps the lane single, and a child still running when the pass reaps is still held, as the
   same process, when the pass ends.
   */
  lemma PassKeepsLane(s: Sched, env: PassEnv)
    requires OneChild(s.tasks)
    ensures OneChild(Pass(s, env).tasks)
    ensures forall j | 0 <= j < |s.tasks| && s.tasks[j].ChildAlive() && env.exits(0, j).None? ::
              Pass(s, env).tasks[j].child.Some? && Pass(s, env).tasks[j].child.value.t0 == s.tasks[j].child.value.t0
  {
    OpeningKnowsLane(s, env);
    LoopKeepsLane(PlanOf(s, env), Opening(s, env), OrderOf(s, env), env.steps, |s.tasks|);
    CloseKeepsLane(s, env);
  }

  lemma CloseKeepsLane(s: Sched, env: PassEnv)
    requires OneChild(Final(s, env).tasks)
    ensures OneChild(Pass(s, env).tasks)
    ensures forall j | 0 <= j < |s.tasks| && Final(s, env).tasks[j].child.Some? ::
              Pass(s, env).tasks[j].child.Some?
              && Pass(s, env).tasks[j].child.value.t0 == Final(s, env).tasks[j].child.value.t0
  {
    var f, t := Final(s, env), Pass(s, env);
    assert forall j | 0 <= j < |t.tasks| && t.tasks[j].ChildAlive() :: f.tasks[j].ChildAlive();
  }

  /** In every run at most one bulk child is alive. */
  lemma {:induction false} AtMostOneChild(s: Sched, acts: seq<Action>)
    requires OneChild(s.tasks)
    ensures OneChild(Run(s, acts).tasks)
  {
    if acts != [] {
      var n := |acts| - 1;
      AtMostOneChild(s, acts[..n]);
      var m := Run(s, acts[..n]);
      match acts[n]
      case DoPass(env) => PassKeepsLane(m, env);
      case RunDirect(_, _, _) =>
      case Sleep(_) =>
    }
  }

  // ---------- who gets the lane ----------

  /** The tasks a pass tried to spawn. */
  ghost function Granted(log: seq<Event>): set<nat> {
    set e | e in log && e.Spawned? :: e.task
  }

  /** Whatever was spawned is the plan's candidate, and is out of every waiting chore's way. */
  ghost predicate GrantedOnlyCandidate(p: Plan, o: LoopState, w: LoopState) {
    && w.now >= o.now && |w.tasks| == |o.tasks|
    && forall y | y in Granted(w.log) ::
         p.bulkNext == Some(y) && y < |o.tasks| && (w.tasks[y].child.Some? || w.tasks[y].lastRun >= o.now.Floor)
  }

  /** Only the lane's candidate is ever spawned, and it was the oldest when it was chosen. */
  lemma GrantsGoToCandidate(p: Plan, o: LoopState, order: seq<nat>, steps: nat -> StepEnv, k: nat)
    requires k <= |order| && Indices(o.tasks, order) && o.log == []
    ensures GrantedOnlyCandidate(p, o, After(p, o, order, steps, k))
  {
    var inv := (j: nat, w: LoopState) => GrantedOnlyCandidate(p, o, w);
    forall j: nat, w: LoopState | j < k && |w.tasks| == |o.tasks| && inv(j, w)
      ensures inv(j + 1, Step(p, w, order[j], steps(j)))
    {
      GrantStep(p, o, w, order[j], steps(j));
    }
    LoopInduction(p, o, order, steps, inv, 0, k);
  }

  lemma GrantStep(p: Plan, o: LoopState, w: LoopState, i: nat, e: StepEnv)
    requires i < |w.tasks| && GrantedOnlyCandidate(p, o, w)
    ensures GrantedOnlyCandidate(p, o, Step(p, w, i, e))
  {
    StepLog(p, w, i, e);
    var t := Step(p, w, i, e);
    forall y | y in Granted(t.log)
      ensures p.bulkNext == Some(y) && y < |o.tasks|
              && (t.tasks[y].child.Some? || t.tasks[y].lastRun >= o.now.Floor)
    {
      if y !in Granted(w.log) {
        assert Did(p, w, i, e).Launch? && y == i;
      }
      StepStampsNow(p, w, i, e, y);
    }
  }

  /** A bulk chore that is due and not yielded, and that the daemon does not get to. */
  ghost predicate WaitsForLane(s: Sched, a: Action, x: nat) {
    && Waits(s, a, x) && s.tasks[x].cfg.background && s.tasks[x].cfg.interval >= 1
    && (a.DoPass? ==> s.tasks[x].cfg.name !in a.env.yielded)
  }

  /** A grant to another chore takes that chore out of the way for good. */
  lemma GrantRemovesRival(s: Sched, env: PassEnv, x: nat)
    requires WaitsForLane(s, DoPass(env), x) && Granted(Final(s, env).log) != {}
    ensures Ahead(Pass(s, env), x) < Ahead(s, x)
  {
    AheadOnlyShrinks(s, DoPass(env), x);
    WaitingUnchanged(s, env, x);
    DueMeansBefore(s.tasks[x], s.now);
    RegistryKeptByPass(s, env);
    var p, o := PlanOf(s, env), Opening(s, env);
    GrantsGoToCandidate(p, o, OrderOf(s, env), env.steps, |s.tasks|);
    var y :| y in Granted(Final(s, env).log);
    assert y != x;
    RivalWasAhead(s, env, x, y);
    var f, t := Final(s, env), Pass(s, env);
    assert t.tasks[y].child.Some? || t.tasks[y].lastRun >= o.now.Floor;
    assert Behind(t.tasks[y], s.tasks[x].lastRun);
    assert y !in Ahead(t, x);
  }

  lemma RivalWasAhead(s: Sched, env: PassEnv, x: nat, y: nat)
    requires WaitsForLane(s, DoPass(env), x) && PlanOf(s, env).bulkNext == Some(y) && y != x && y < |s.tasks|
    ensures y in Ahead(s, x)
  {
    WaitingUnchanged(s, env, x);
    DueMeansBefore(s.tasks[x], s.now);
    OpeningKeepsBehind(s, env, s.tasks[x].lastRun, y);
    var o := Opening(s, env);
    DueStaysDue(s.tasks[x], s.now, o.now);
    assert BulkCandidate(o.tasks[x], env.yielded, o.now);
    assert o.tasks[y].lastRun <= o.tasks[x].lastRun && o.tasks[y].child.None?;
  }

  ghost predicate Grants(s: Sched, a: Action) {
    a.DoPass? && Granted(Final(s, a.env).log) != {}
  }

  /** How many actions of the run granted the lane to somebody. */
  ghost function GrantCount(s: Sched, acts: seq<Action>): nat
    decreases |acts|
  {
    if acts == [] then 0
    else (if Grants(s, acts[0]) then 1 else 0) + GrantCount(Act(s, acts[0]), acts[1..])
  }

  ghost predicate WaitsThroughout(s: Sched, acts: seq<Action>, x: nat)
    decreases |acts|
  {
    acts == [] || (WaitsForLane(s, acts[0], x) && WaitsThroughout(Act(s, acts[0]), acts[1..], x))
  }

  lemma OneMoreGrant(s: Sched, a: Action, x: nat)
    requires WaitsForLane(s, a, x)
    ensures (if Grants(s, a) then 1 else 0)
            + |Ahead(Act(s, a), x)| <= |Ahead(s, x)|
  {
    AheadOnlyShrinks(s, a, x);
    SubsetSize(Ahead(Act(s, a), x), Ahead(s, x));
    if Grants(s, a) {
      GrantRemovesRival(s, a.env, x);
    }
  }

  /**
   While a due, un-yielded bulk chore waits, whatever the pressure, the stops and the queue, the lane
   is granted at most once to each of the chores ahead of it, so at most as often as there are other
   bulk chores. The grant after that is its own.
   */
  lemma {:induction false} LaneWaitIsBounded(s: Sched, acts: seq<Action>, x: nat)
    requires x < |s.tasks| && WaitsThroughout(s, acts, x)
    ensures GrantCount(s, acts) <= |Ahead(s, x)|
    ensures GrantCount(s, acts)
         <= |(set i: nat | i < |s.tasks| && i != x && s.tasks[i].cfg.background == s.tasks[x].cfg.background)|
    decreases |acts|
  {
    AheadIsBounded(s, x);
    if acts != [] {
      OneMoreGrant(s, acts[0], x);
      LaneWaitIsBounded(Act(s, acts[0]), acts[1..], x);
    }
  }

  // ---------- and it does get granted ----------

  /**
   A calm pass that finds the lane free, something to run and no stop before it spawns the candidate,
   unless the candidate is itself waiting for a release turn that is not its own.
   */
  lemma CalmPassGrantsLane(s: Sched, env: PassEnv, y: nat, m: nat)
    requires PlanOf(s, env).bulkNext == Some(y) && y < |s.tasks| && !s.tasks[y].cfg.ownThread
    requires m < |s.tasks| && OrderOf(s, env)[m] == y
    requires !env.pressure.Over() && !At(s, env, m).stopped && !env.steps(m).stop
    requires s.tasks[y].cfg.name !in s.queue || PlanOf(s, env).slot == Some(s.tasks[y].cfg.name)
    ensures y in Granted(Final(s, env).log)
  {
    var p, o, order := PlanOf(s, env), Opening(s, env), OrderOf(s, env);
    assert BulkCandidate(o.tasks[y], env.yielded, o.now) && o.tasks[y].cfg == s.tasks[y].cfg;
    GrantAtPlace(p, o, order, env.steps, m);
  }

  /**
   A calm pass that finds the lane free and something for it, reaches that candidate before a stop, and does
   not find it waiting for somebody else's release turn.
   */
  ghost predicate LaneOpen(s: Sched, a: Action) {
    a.DoPass? && !a.env.pressure.Over()
    && exists y: nat, m: nat ::
         && y < |s.tasks| && m < |s.tasks| && OrderOf(s, a.env)[m] == y
         && PlanOf(s, a.env).bulkNext == Some(y) && !s.tasks[y].cfg.ownThread
         && !At(s, a.env, m).stopped && !a.env.steps(m).stop
         && (s.tasks[y].cfg.name !in s.queue || PlanOf(s, a.env).slot == Some(s.tasks[y].cfg.name))
  }

  lemma OpenLaneIsGranted(s: Sched, a: Action)
    requires LaneOpen(s, a)
    ensures Grants(s, a)
  {
    var y: nat, m: nat :|
      && y < |s.tasks| && m < |s.tasks| && OrderOf(s, a.env)[m] == y
      && PlanOf(s, a.env).bulkNext == Some(y) && !s.tasks[y].cfg.ownThread
      && !At(s, a.env, m).stopped && !a.env.steps(m).stop
      && (s.tasks[y].cfg.name !in s.queue || PlanOf(s, a.env).slot == Some(s.tasks[y].cfg.name));
    CalmPassGrantsLane(s, a.env, y, m);
  }

  ghost function OpenCount(s: Sched, acts: seq<Action>): nat
    decreases |acts|
  {
    if acts == [] then 0
    else (if LaneOpen(s, acts[0]) then 1 else 0) + OpenCount(Act(s, acts[0]), acts[1..])
  }

  lemma {:induction false} OpenIsGranted(s: Sched, acts: seq<Action>)
    ensures OpenCount(s, acts) <= GrantCount(s, acts)
    decreases |acts|
  {
    if acts != [] {
      if LaneOpen(s, acts[0]) {
        OpenLaneIsGranted(s, acts[0]);
      }
      OpenIsGranted(Act(s, acts[0]), acts[1..]);
    }
  }

  /**
   So a due, un-yielded bulk chore waits through at most as many open-lane passes as there are chores ahead
   of it: the next one after those spawns it.
   */
  lemma LaneComesRound(s: Sched, acts: seq<Action>, x: nat)
    requires x < |s.tasks| && WaitsThroughout(s, acts, x)
    ensures OpenCount(s, acts) <= |Ahead(s, x)|
  {
    OpenIsGranted(s, acts);
    LaneWaitIsBounded(s, acts, x);
  }

  lemma GrantAtPlace(p: Plan, o: LoopState, order: seq<nat>, steps: nat -> StepEnv, m: nat)
    requires m < |order| && Indices(o.tasks, order) && NoDuplicates(order)
    requires p.bulkNext == Some(order[m]) && !o.busy && !p.over
    requires BulkCandidate(o.tasks[order[m]], p.yielded, o.now) && !o.tasks[order[m]].cfg.ownThread
    requires !After(p, o, order, steps, m).stopped && !steps(m).stop
    requires o.tasks[order[m]].cfg.name !in o.queue || p.slot == Some(o.tasks[order[m]].cfg.name)
    ensures order[m] in Granted(After(p, o, order, steps, |order|).log)
  {
    var w, y, e := After(p, o, order, steps, m), order[m], steps(m);
    assert w.tasks[y] == o.tasks[y] && !w.busy && w.now >= o.now
           && forall q | q in w.queue :: q in o.queue by {
      BeforeCandidate(p, o, order, steps, m);
    }
    DueStaysDue(o.tasks[y], o.now, w.now + e.delay);
    LaunchesHere(p, w, y, e);
    LoggedAtPlace(p, o, order, steps, m, Spawned(y, !e.failed));
  }

  lemma LoggedAtPlace(p: Plan, o: LoopState, order: seq<nat>, steps: nat -> StepEnv, m: nat, ev: Event)
    requires m < |order| && Indices(o.tasks, order)
    requires ev in Step(p, After(p, o, order, steps, m), order[m], steps(m)).log
    ensures ev in After(p, o, order, steps, |order|).log
  {
    LogGrows(p, o, order, steps, m + 1, |order|);
  }

  lemma BeforeCandidate(p: Plan, o: LoopState, order: seq<nat>, steps: nat -> StepEnv, m: nat)
    requires m < |order| && Indices(o.tasks, order) && NoDuplicates(order)
    requires p.bulkNext == Some(order[m]) && !o.busy && !p.over
    ensures var w := After(p, o, order, steps, m);
            && w.tasks[order[m]] == o.tasks[order[m]] && !w.busy && w.now >= o.now
            && forall q | q in w.queue :: q in o.queue
  {
    var y := order[m];
    var inv := (j: nat, w: LoopState) =>
      && y < |w.tasks| && w.tasks[y] == o.tasks[y] && !w.busy && w.now >= o.now
      && forall q | q in w.queue :: q in o.queue;
    forall j: nat, w: LoopState | j < m && |w.tasks| == |o.tasks| && inv(j, w)
      ensures inv(j + 1, Step(p, w, order[j], steps(j)))
    {
      assert order[j] != y;
      StepKeepsRegistry(p, w, order[j], steps(j));
      StepQueue(p, w, order[j], steps(j));
      StepStays(p, w, order[j], steps(j));
    }
    LoopInduction(p, o, order, steps, inv, 0, m);
  }

  lemma LaunchesHere(p: Plan, w: LoopState, y: nat, e: StepEnv)
    requires y < |w.tasks| && !w.stopped && !e.stop && !w.busy && !p.over && p.bulkNext == Some(y)
    requires w.tasks[y].cfg.background && !w.tasks[y].cfg.ownThread && w.tasks[y].cfg.name !in p.yielded
    requires Due(w.tasks[y], w.now + e.delay)
    requires w.tasks[y].cfg.name !in w.queue || p.slot == Some(w.tasks[y].cfg.name)
    ensures Spawned(y, !e.failed) in Step(p, w, y, e).log
  {
    StepLog(p, w, y, e);
  }
}
