/**
 One due-pass of the main loop as a function of the scheduler's state and of everything the world
 decides during it (`_run_due_tasks`, scripts/daemon.py:3978-4100), and runs of any length.
 */
module DuePass {
  import opened Common
  import opened TaskRecord
  import opened DispatchOrder

  /** `_FOREGROUND_BUDGET_SEC`: an operator's knob, clamped to at least 1. */
  const FOREGROUND_BUDGET_SEC: Positive

  /** One reading of the host. An unreadable one neither gates a chore nor ends an episode. */
  datatype Pressure = Pressure(runnable: Option<int>, bar: int, clearAt: real) {
    predicate Over() {
      runnable.Some? && runnable.value >= bar
    }

    predicate CalmEnoughToClear() {
      runnable.Some? && (runnable.value as real) < clearAt
    }
  }

  /**
   What the world decides at one place of the dispatch order: whether a stop was seen, how long the
   loop took to get there, and how the body or the spawn at that place turns out.
   */
  datatype StepEnv = StepEnv(stop: bool, delay: Duration, took: Duration, failed: bool)

  /** `exits(m, i)`: the exit code with which task `i`'s child ends around moment `m` of the pass. */
  datatype PassEnv = PassEnv(yielded: set<string>, pressure: Pressure, lead: Duration,
                             exits: (nat, nat) -> Option<int>, steps: nat -> StepEnv)

  datatype Sched = Sched(tasks: seq<TaskState>, queue: seq<string>, announced: set<string>, now: real)

  /** `before` is the foreground budget already used when the body started. */
  datatype Event = Ran(task: nat, before: real, took: Duration) | Spawned(task: nat, ok: bool)

  datatype LoopState = LoopState(tasks: seq<TaskState>, queue: seq<string>, announced: set<string>,
                                 now: real, used: real, busy: bool, stopped: bool, log: seq<Event>)

  datatype Plan = Plan(yielded: set<string>, over: bool, slot: Option<string>, bulkNext: Option<nat>)

  // ---------- processes ----------

  function EndChild(t: TaskState, ex: Option<int>): TaskState {
    if t.ChildAlive() && ex.Some? then t.(child := Some(t.child.value.(rc := ex))) else t
  }

  function EndChildren(ts: seq<TaskState>, exits: (nat, nat) -> Option<int>, moment: nat): (r: seq<TaskState>)
    ensures |r| == |ts|
    ensures forall i | 0 <= i < |ts| :: r[i] == EndChild(ts[i], exits(moment, i))
  {
    seq(|ts|, i requires 0 <= i < |ts| => EndChild(ts[i], exits(moment, i)))
  }

  function ReapAll(ts: seq<TaskState>, now: real): (r: seq<TaskState>)
    ensures |r| == |ts|
    ensures forall i | 0 <= i < |ts| :: r[i] == if ts[i].cfg.background then Reap(ts[i], now) else ts[i]
  {
    seq(|ts|, i requires 0 <= i < |ts| => if ts[i].cfg.background then Reap(ts[i], now) else ts[i])
  }

  predicate LaneBusy(ts: seq<TaskState>) {
    exists i | 0 <= i < |ts| :: ts[i].cfg.background && ts[i].ChildAlive()
  }

  // ---------- the metered release ----------

  predicate DueByName(ts: seq<TaskState>, name: string, now: real) {
    exists i | 0 <= i < |ts| :: ts[i].cfg.name == name && Due(ts[i], now)
  }

  /** The one queued chore released on this pass: the first that is due. Nothing else is asked of it. */
  function NextRelease(queue: seq<string>, ts: seq<TaskState>, now: real): (r: Option<string>)
    ensures r.Some? ==> r.value in queue && DueByName(ts, r.value, now)
    ensures r.None? ==> forall q | q in queue :: !DueByName(ts, q, now)
  {
    if queue == [] then None
    else if DueByName(ts, queue[0], now) then Some(queue[0])
    else NextRelease(queue[1..], ts, now)
  }

  // ---------- one place of the dispatch loop ----------

  predicate Gated(cfg: Config, over: bool) {
    !cfg.exempt && over
  }

  datatype Verdict = Leave | Defer | Launch | Execute

  /** What the loop does with task `i` once it has reached it. */
  function Decide(p: Plan, t: TaskState, i: nat, queued: bool, now: real, busy: bool, used: real): Verdict {
    if t.cfg.name in p.yielded || t.cfg.ownThread || !Due(t, now) then Leave
    else if queued && p.slot != Some(t.cfg.name) then Leave
    else if !queued && Gated(t.cfg, p.over) then Defer
    else if t.cfg.background then (if busy || p.bulkNext != Some(i) then Leave else Launch)
    else if !t.cfg.floor && used >= FOREGROUND_BUDGET_SEC as real then Leave
    else Execute
  }

  function Apply(s: LoopState, i: nat, e: StepEnv, v: Verdict): LoopState
    requires i < |s.tasks|
  {
    var t := s.tasks[i];
    match v
    case Leave => s
    case Defer => s.(announced := s.announced + {t.cfg.name}, queue := s.queue + [t.cfg.name])
    case Launch =>
      s.(tasks := s.tasks[i := Spawn(t, !e.failed, s.now)], busy := true,
         queue := Remove(s.queue, t.cfg.name), log := s.log + [Spawned(i, !e.failed)])
    case Execute =>
      s.(tasks := s.tasks[i := Record(t, if e.failed then BodyFailed else BodyOk, s.now + e.took)],
         now := s.now + e.took, used := s.used + e.took,
         queue := Remove(s.queue, t.cfg.name), log := s.log + [Ran(i, s.used, e.took)])
  }

  function VerdictAt(p: Plan, s: LoopState, i: nat, e: StepEnv): Verdict
    requires i < |s.tasks|
  {
    Decide(p, s.tasks[i], i, s.tasks[i].cfg.name in s.queue, s.now + e.delay, s.busy, s.used)
  }

  function Step(p: Plan, s: LoopState, i: nat, e: StepEnv): LoopState
    requires i < |s.tasks|
  {
    if s.stopped || e.stop then s.(stopped := true)
    else Apply(s.(now := s.now + e.delay), i, e, VerdictAt(p, s, i, e))
  }

  /** What a place of the loop does, a stop counting as doing nothing. */
  function Did(p: Plan, s: LoopState, i: nat, e: StepEnv): Verdict
    requires i < |s.tasks|
  {
    if s.stopped || e.stop then Leave else VerdictAt(p, s, i, e)
  }

  /** The loop's state before its `k`-th place. */
  function After(p: Plan, s0: LoopState, order: seq<nat>, steps: nat -> StepEnv, k: nat): (s: LoopState)
    requires k <= |order| && Indices(s0.tasks, order)
    ensures |s.tasks| == |s0.tasks|
  {
    if k == 0 then s0
    else Step(p, After(p, s0, order, steps, k - 1), order[k - 1], steps(k - 1))
  }

  lemma AfterNext(p: Plan, s0: LoopState, order: seq<nat>, steps: nat -> StepEnv, k: nat)
    requires k < |order| && Indices(s0.tasks, order)
    ensures After(p, s0, order, steps, k + 1) == Step(p, After(p, s0, order, steps, k), order[k], steps(k))
  {
  }

  // ---------- the whole pass ----------

  function Reaped(s: Sched, env: PassEnv): (ts: seq<TaskState>)
    ensures |ts| == |s.tasks|
  {
    EndChildren(ReapAll(EndChildren(s.tasks, env.exits, 0), s.now + env.lead), env.exits, 1)
  }

  function OpeningFrom(ts: seq<TaskState>, s: Sched, env: PassEnv): LoopState {
    LoopState(ts, s.queue, if env.pressure.CalmEnoughToClear() then {} else s.announced,
              s.now + env.lead, 0.0, LaneBusy(ts), false, [])
  }

  function Opening(s: Sched, env: PassEnv): (o: LoopState)
    ensures |o.tasks| == |s.tasks|
  {
    OpeningFrom(Reaped(s, env), s, env)
  }

  function PlanFrom(o: LoopState, env: PassEnv): Plan {
    Plan(env.yielded, env.pressure.Over(),
         if env.pressure.Over() then None else NextRelease(o.queue, o.tasks, o.now),
         if o.busy then None else BulkNext(o.tasks, env.yielded, o.now, |o.tasks|))
  }

  function LoopFrom(o: LoopState, env: PassEnv, k: nat): (r: LoopState)
    requires k <= |o.tasks|
    ensures |r.tasks| == |o.tasks|
  {
    After(PlanFrom(o, env), o, Order(o.tasks, |o.tasks|), env.steps, k)
  }

  function Closing(f: LoopState, env: PassEnv): (r: Sched)
    ensures |r.tasks| == |f.tasks|
  {
    Sched(EndChildren(f.tasks, env.exits, 2), f.queue, f.announced, f.now)
  }

  function PlanOf(s: Sched, env: PassEnv): Plan {
    PlanFrom(Opening(s, env), env)
  }

  function OrderOf(s: Sched, env: PassEnv): (r: seq<nat>)
    ensures |r| == |s.tasks| && Indices(s.tasks, r)
  {
    Order(Opening(s, env).tasks, |s.tasks|)
  }

  /** The state of the pass before its `k`-th dispatch. */
  function At(s: Sched, env: PassEnv, k: nat): (r: LoopState)
    requires k <= |s.tasks|
    ensures |r.tasks| == |s.tasks|
  {
    LoopFrom(Opening(s, env), env, k)
  }

  function Final(s: Sched, env: PassEnv): (r: LoopState)
    ensures |r.tasks| == |s.tasks|
  {
    At(s, env, |s.tasks|)
  }

  function Pass(s: Sched, env: PassEnv): (r: Sched)
    ensures |r.tasks| == |s.tasks|
  {
    Closing(Final(s, env), env)
  }

  // ---------- runs ----------

  /**
   What the daemon does between sleeps: a due-pass, or a direct run of one task outside the pass
   (the version-update request, or the rotator's own thread).
   */
  datatype Action = DoPass(env: PassEnv) | RunDirect(task: nat, took: Duration, failed: bool) | Sleep(d: Duration)

  function Act(s: Sched, a: Action): (r: Sched)
    ensures |r.tasks| == |s.tasks|
  {
    match a
    case DoPass(env) => Pass(s, env)
    case Sleep(d) => s.(now := s.now + d)
    case RunDirect(i, took, failed) =>
      if i >= |s.tasks| || s.tasks[i].ChildAlive() then s
      else
        var later := s.now + took;
        s.(tasks := s.tasks[i := Record(s.tasks[i], if failed then BodyFailed else BodyOk, later)],
           now := later)
  }

  function Run(s: Sched, acts: seq<Action>): (r: Sched)
    ensures |r.tasks| == |s.tasks|
  {
    if acts == [] then s else Act(Run(s, acts[..|acts| - 1]), acts[|acts| - 1])
  }

  // ---------- what no step changes ----------

  ghost predicate SameRegistry(a: seq<TaskState>, b: seq<TaskState>) {
    |a| == |b| && forall i | 0 <= i < |a| :: a[i].cfg == b[i].cfg
  }

  ghost predicate UniqueNames(ts: seq<TaskState>) {
    forall i, j | 0 <= i < j < |ts| :: ts[i].cfg.name != ts[j].cfg.name
  }

  lemma StepQueue(p: Plan, s: LoopState, i: nat, e: StepEnv)
    requires i < |s.tasks|
    ensures var name := s.tasks[i].cfg.name;
            Step(p, s, i, e).queue == match Did(p, s, i, e)
                                      case Leave => s.queue
                                      case Defer => s.queue + [name]
                                      case Launch => Remove(s.queue, name)
                                      case Execute => Remove(s.queue, name)
    ensures s.tasks[i].cfg.name !in s.queue && !Did(p, s, i, e).Defer? ==> Step(p, s, i, e).queue == s.queue
    ensures !Did(p, s, i, e).Defer? ==> forall q | q in Step(p, s, i, e).queue :: q in s.queue
  {
    RemoveKeeps(s.queue, s.tasks[i].cfg.name);
  }

  lemma StepStays(p: Plan, s: LoopState, i: nat, e: StepEnv)
    requires i < |s.tasks|
    ensures var t := Step(p, s, i, e);
            && t.stopped == (s.stopped || e.stop)
            && t.busy == (s.busy || Did(p, s, i, e).Launch?)
            && t.used == s.used + (if Did(p, s, i, e).Execute? then e.took else 0.0)
  {
  }

  lemma StepLog(p: Plan, s: LoopState, i: nat, e: StepEnv)
    requires i < |s.tasks|
    ensures Step(p, s, i, e).log == match Did(p, s, i, e)
                                    case Leave => s.log
                                    case Defer => s.log
                                    case Launch => s.log + [Spawned(i, !e.failed)]
                                    case Execute => s.log + [Ran(i, s.used, e.took)]
  {
  }

  lemma StepKeepsRegistry(p: Plan, s: LoopState, i: nat, e: StepEnv)
    requires i < |s.tasks|
    ensures SameRegistry(Step(p, s, i, e).tasks, s.tasks)
    ensures Step(p, s, i, e).now >= s.now
    ensures forall j | 0 <= j < |s.tasks| && j != i :: Step(p, s, i, e).tasks[j] == s.tasks[j]
  {
  }

  /** What every place from `m` on keeps, the loop keeps. */
  lemma {:induction false} LoopInduction(p: Plan, o: LoopState, order: seq<nat>, steps: nat -> StepEnv,
                                         inv: (nat, LoopState) -> bool, m: nat, k: nat)
    requires m <= k <= |order| && Indices(o.tasks, order)
    requires inv(m, After(p, o, order, steps, m))
    requires forall j: nat, w: LoopState | m <= j < k && |w.tasks| == |o.tasks| && inv(j, w) ::
               inv(j + 1, Step(p, w, order[j], steps(j)))
    ensures inv(k, After(p, o, order, steps, k))
    decreases k
  {
    if m < k {
      var j, w := k - 1, After(p, o, order, steps, k - 1);
      assert inv(j, w) by {
        LoopInduction(p, o, order, steps, inv, m, j);
      }
      var t := Step(p, w, order[j], steps(j));
      assert inv(j + 1, t);
      assert After(p, o, order, steps, k) == t;
    }
  }

  lemma LoopKeepsRegistry(p: Plan, o: LoopState, order: seq<nat>, steps: nat -> StepEnv, k: nat)
    requires k <= |order| && Indices(o.tasks, order)
    ensures SameRegistry(After(p, o, order, steps, k).tasks, o.tasks)
    ensures After(p, o, order, steps, k).now >= o.now
  {
    var inv := (j: nat, w: LoopState) => SameRegistry(w.tasks, o.tasks) && w.now >= o.now;
    forall j: nat, w: LoopState | j < k && |w.tasks| == |o.tasks| && inv(j, w)
      ensures inv(j + 1, Step(p, w, order[j], steps(j)))
    {
      StepKeepsRegistry(p, w, order[j], steps(j));
    }
    LoopInduction(p, o, order, steps, inv, 0, k);
  }

  lemma RegistryKept(s: Sched, env: PassEnv, k: nat)
    requires k <= |s.tasks|
    ensures SameRegistry(At(s, env, k).tasks, s.tasks)
    ensures At(s, env, k).now >= s.now + env.lead >= s.now
  {
    LoopKeepsRegistry(PlanOf(s, env), Opening(s, env), OrderOf(s, env), env.steps, k);
  }

  lemma RegistryKeptByPass(s: Sched, env: PassEnv)
    ensures SameRegistry(Pass(s, env).tasks, s.tasks)
    ensures Pass(s, env).now >= s.now
  {
    RegistryKept(s, env, |s.tasks|);
  }

  /** What every action keeps, a run keeps. */
  lemma {:induction false} RunInduction(s: Sched, acts: seq<Action>, inv: (nat, Sched) -> bool)
    requires inv(0, s)
    requires forall j: nat, m: Sched | j < |acts| && m == Run(s, acts[..j]) && inv(j, m) ::
               inv(j + 1, Act(m, acts[j]))
    ensures inv(|acts|, Run(s, acts))
  {
    if acts != [] {
      var n := |acts| - 1;
      var before := acts[..n];
      forall j: nat, m: Sched | j < n && m == Run(s, before[..j]) && inv(j, m)
        ensures inv(j + 1, Act(m, before[j]))
      {
        assert before[..j] == acts[..j];
        assert before[j] == acts[j];
      }
      RunInduction(s, before, inv);
      var m := Run(s, before);
      assert inv(n + 1, Act(m, acts[n]));
      assert Run(s, acts) == Act(m, acts[n]);
    }
  }

  lemma RegistryKeptByAct(s: Sched, a: Action)
    ensures SameRegistry(Act(s, a).tasks, s.tasks)
    ensures Act(s, a).now >= s.now
  {
    if a.DoPass? {
      RegistryKeptByPass(s, a.env);
    }
  }

  lemma RegistryKeptByRun(s: Sched, acts: seq<Action>)
    ensures SameRegistry(Run(s, acts).tasks, s.tasks)
    ensures Run(s, acts).now >= s.now
  {
    var inv := (j: nat, m: Sched) => SameRegistry(m.tasks, s.tasks) && m.now >= s.now;
    forall j: nat, m: Sched | j < |acts| && inv(j, m) ensures inv(j + 1, Act(m, acts[j])) {
      RegistryKeptByAct(m, acts[j]);
    }
    RunInduction(s, acts, inv);
  }
}
