/**
 Why oldest-last-run-first starves nobody: whatever is stamped while a chore waits is stamped later
 than that chore's own last run, so it can never get ahead of it again.
 */
module Fairness {
  import opened Common
  import opened TaskRecord
  import opened DispatchOrder
  import opened DuePass

  /** `t` cannot be chosen before a waiting chore whose last run is `since`. */
  predicate Behind(t: TaskState, since: int) {
    t.child.Some? || t.lastRun > since
  }

  lemma StepStampsNow(p: Plan, w: LoopState, j: nat, e: StepEnv, i: nat)
    requires i < |w.tasks| && j < |w.tasks|
    ensures var t := Step(p, w, j, e).tasks[i];
            t == w.tasks[i] || t.child.Some? || t.lastRun >= w.now.Floor
    ensures Step(p, w, j, e).now >= w.now
  {
  }

  lemma LoopKeepsBehind(p: Plan, o: LoopState, order: seq<nat>, steps: nat -> StepEnv, k: nat, since: int, i: nat)
    requires k <= |order| && Indices(o.tasks, order) && since < o.now.Floor && i < |o.tasks|
    ensures var t := After(p, o, order, steps, k).tasks[i];
            t == o.tasks[i] || Behind(t, since)
    ensures After(p, o, order, steps, k).now >= o.now
  {
    var inv := (j: nat, w: LoopState) =>
      w.now >= o.now && i < |w.tasks| && (w.tasks[i] == o.tasks[i] || Behind(w.tasks[i], since));
    forall j: nat, w: LoopState | j < k && |w.tasks| == |o.tasks| && inv(j, w)
      ensures inv(j + 1, Step(p, w, order[j], steps(j)))
    {
      StepStampsNow(p, w, order[j], steps(j), i);
    }
    LoopInduction(p, o, order, steps, inv, 0, k);
  }

  lemma OpeningKeepsBehind(s: Sched, env: PassEnv, since: int, i: nat)
    requires since < s.now.Floor && i < |s.tasks|
    ensures var t := Opening(s, env).tasks[i];
            && (Behind(s.tasks[i], since) ==> Behind(t, since))
            && (!Behind(s.tasks[i], since) ==> t == s.tasks[i])
    ensures Opening(s, env).now >= s.now
  {
  }

  lemma PassKeepsBehind(s: Sched, env: PassEnv, since: int, i: nat)
    requires since < s.now.Floor && i < |s.tasks|
    ensures Behind(s.tasks[i], since) ==> Behind(Pass(s, env).tasks[i], since)
  {
    OpeningKeepsBehind(s, env, since, i);
    LoopKeepsBehind(PlanOf(s, env), Opening(s, env), OrderOf(s, env), env.steps, |s.tasks|, since, i);
    RegistryKeptByPass(s, env);
  }

  /** Nothing the daemon does brings a task back ahead of a waiting chore. */
  lemma ActKeepsBehind(s: Sched, a: Action, since: int, i: nat)
    requires since < s.now.Floor && i < |s.tasks|
    ensures Behind(s.tasks[i], since) ==> Behind(Act(s, a).tasks[i], since)
    ensures Act(s, a).now >= s.now
  {
    match a
    case DoPass(env) =>
      PassKeepsBehind(s, env, since, i);
      RegistryKeptByPass(s, env);
    case RunDirect(_, _, _) =>
    case Sleep(_) =>
  }

  ghost predicate Dispatched(log: seq<Event>, x: nat) {
    exists e | e in log :: e.task == x
  }

  /** The log of a pass only grows. */
  lemma LogGrows(p: Plan, o: LoopState, order: seq<nat>, steps: nat -> StepEnv, m: nat, k: nat)
    requires m <= k <= |order| && Indices(o.tasks, order)
    ensures After(p, o, order, steps, m).log <= After(p, o, order, steps, k).log
  {
    var l := After(p, o, order, steps, m).log;
    var inv := (j: nat, w: LoopState) => l <= w.log;
    forall j: nat, w: LoopState | m <= j < k && |w.tasks| == |o.tasks| && inv(j, w)
      ensures inv(j + 1, Step(p, w, order[j], steps(j)))
    {
      StepLog(p, w, order[j], steps(j));
    }
    LoopInduction(p, o, order, steps, inv, m, k);
  }

  lemma StepChangesOnlyDispatched(p: Plan, w: LoopState, i: nat, e: StepEnv, x: nat)
    requires i < |w.tasks| && x < |w.tasks| && !Dispatched(Step(p, w, i, e).log, x)
    ensures Step(p, w, i, e).tasks[x] == w.tasks[x]
  {
    StepLog(p, w, i, e);
    var l := Step(p, w, i, e).log;
    if Did(p, w, i, e).Launch? || Did(p, w, i, e).Execute? {
      assert l[|l| - 1] in l;
    }
  }

  /** A task the pass did not dispatch, and which was due, is as it was. */
  lemma UndispatchedUnchanged(p: Plan, o: LoopState, order: seq<nat>, steps: nat -> StepEnv, k: nat, x: nat)
    requires k <= |order| && Indices(o.tasks, order) && x < |o.tasks|
    requires !Dispatched(After(p, o, order, steps, k).log, x)
    ensures After(p, o, order, steps, k).tasks[x] == o.tasks[x]
  {
    var inv := (j: nat, w: LoopState) => x < |w.tasks| && (Dispatched(w.log, x) || w.tasks[x] == o.tasks[x]);
    forall j: nat, w: LoopState | j < k && |w.tasks| == |o.tasks| && inv(j, w)
      ensures inv(j + 1, Step(p, w, order[j], steps(j)))
    {
      StepLog(p, w, order[j], steps(j));
      if Dispatched(w.log, x) {
        var e :| e in w.log && e.task == x;
        assert e in Step(p, w, order[j], steps(j)).log;
      } else if !Dispatched(Step(p, w, order[j], steps(j)).log, x) {
        StepChangesOnlyDispatched(p, w, order[j], steps(j), x);
      }
    }
    LoopInduction(p, o, order, steps, inv, 0, k);
  }

  lemma WaitingUnchanged(s: Sched, env: PassEnv, x: nat)
    requires x < |s.tasks| && Due(s.tasks[x], s.now) && !Dispatched(Final(s, env).log, x)
    ensures Opening(s, env).tasks[x] == s.tasks[x] && Pass(s, env).tasks[x] == s.tasks[x]
    ensures Due(s.tasks[x], Pass(s, env).now)
  {
    UndispatchedUnchanged(PlanOf(s, env), Opening(s, env), OrderOf(s, env), env.steps, |s.tasks|, x);
    RegistryKeptByPass(s, env);
    DueStaysDue(s.tasks[x], s.now, Pass(s, env).now);
  }

  /** `x` is due and this action does not run it. */
  ghost predicate Waits(s: Sched, a: Action, x: nat) {
    && x < |s.tasks| && Due(s.tasks[x], s.now)
    && (a.DoPass? ==> !Dispatched(Final(s, a.env).log, x))
    && (a.RunDirect? ==> a.task != x)
  }

  lemma WaitingGoesOn(s: Sched, a: Action, x: nat)
    requires Waits(s, a, x)
    ensures Act(s, a).tasks[x] == s.tasks[x] && Due(Act(s, a).tasks[x], Act(s, a).now)
  {
    match a
    case DoPass(env) => WaitingUnchanged(s, env, x);
    case RunDirect(_, took, _) =>
      DueStaysDue(s.tasks[x], s.now, s.now + took);
    case Sleep(d) => DueStaysDue(s.tasks[x], s.now, s.now + d);
  }

  /** The tasks of `x`'s kind that can still be chosen before it. */
  ghost function Ahead(s: Sched, x: nat): set<nat>
    requires x < |s.tasks|
  {
    set i: nat | i < |s.tasks| && i != x && s.tasks[i].cfg.background == s.tasks[x].cfg.background
                 && !Behind(s.tasks[i], s.tasks[x].lastRun)
  }

  /** Due with a cadence of at least a second, a chore was last run before the present second. */
  lemma DueMeansBefore(t: TaskState, now: real)
    requires Due(t, now) && t.cfg.interval >= 1
    ensures t.lastRun < now.Floor
  {
  }

  lemma AheadOnlyShrinks(s: Sched, a: Action, x: nat)
    requires Waits(s, a, x) && s.tasks[x].cfg.interval >= 1
    ensures Ahead(Act(s, a), x) <= Ahead(s, x)
  {
    WaitingGoesOn(s, a, x);
    DueMeansBefore(s.tasks[x], s.now);
    RegistryKeptByRun(s, [a]);
    assert [a][..0] == [] && Run(s, [a]) == Act(s, a);
    forall i | i in Ahead(Act(s, a), x) ensures i in Ahead(s, x) {
      ActKeepsBehind(s, a, s.tasks[x].lastRun, i);
    }
  }

  lemma AheadIsBounded(s: Sched, x: nat)
    requires x < |s.tasks|
    ensures |Ahead(s, x)| <= |(set i: nat | i < |s.tasks| && i != x && s.tasks[i].cfg.background == s.tasks[x].cfg.background)|
  {
    SubsetSize(Ahead(s, x), set i: nat | i < |s.tasks| && i != x && s.tasks[i].cfg.background == s.tasks[x].cfg.background);
  }

  lemma {:induction false} SubsetSize(a: set<nat>, b: set<nat>)
    requires a <= b
    ensures |a| <= |b|
    ensures a < b ==> |a| < |b|
  {
    if a != {} {
      var x :| x in a;
      SubsetSize(a - {x}, b - {x});
    }
  }
}
