/**
 The metered release of pressure-deferred chores (scripts/daemon.py:3911-3975, 4047-4099): what the
 queue holds in every run, when a pass shrinks it, and when a process can never drain it again.
 */
module ReleaseQueue {
  import opened Common
  import opened TaskRecord
  import opened DispatchOrder
  import opened DuePass

  ghost predicate QueueOk(ts: seq<TaskState>, queue: seq<string>) {
    && NoDuplicates(queue)
    && (forall i | 0 <= i < |ts| && ts[i].cfg.name in queue :: !ts[i].cfg.exempt && !ts[i].cfg.ownThread)
    && (forall q | q in queue :: exists i | 0 <= i < |ts| :: ts[i].cfg.name == q)
  }

  /** Chore `i` is due if it is queued. */
  ghost predicate DueIfQueued(ts: seq<TaskState>, queue: seq<string>, now: real, i: nat) {
    i < |ts| && (ts[i].cfg.name in queue ==> Due(ts[i], now))
  }

  ghost predicate QueuedAreDue(ts: seq<TaskState>, queue: seq<string>, now: real) {
    forall i | 0 <= i < |ts| && ts[i].cfg.name in queue :: Due(ts[i], now)
  }

  lemma RemoveOnce(q: seq<string>, x: string)
    requires NoDuplicates(q)
    ensures NoDuplicates(Remove(q, x)) && x !in Remove(q, x)
    ensures forall y | y != x :: y in Remove(q, x) <==> y in q
  {
    if x !in q {
      RemoveAbsent(q, x);
    } else {
      var k := RemoveSplits(q, x);
      CutOnce(q, k, Remove(q, x));
      CutMembers(q, k, Remove(q, x));
    }
  }

  lemma CutOnce(q: seq<string>, k: nat, r: seq<string>)
    requires NoDuplicates(q) && k < |q| && r == q[..k] + q[k + 1..]
    ensures NoDuplicates(r) && q[k] !in r
  {
    forall j | 0 <= j < |r| ensures r[j] == q[if j < k then j else j + 1] && r[j] != q[k] {
    }
  }

  lemma CutMembers(q: seq<string>, k: nat, r: seq<string>)
    requires k < |q| && r == q[..k] + q[k + 1..]
    ensures forall y | y != q[k] :: y in r <==> y in q
  {
    forall y | y != q[k] && y in q ensures y in r {
      var j :| 0 <= j < |q| && q[j] == y;
      assert r[if j < k then j else j - 1] == y;
    }
  }

  // ---------- one place of the loop ----------

  lemma RemoveKeepsQueueOk(ts: seq<TaskState>, q: seq<string>, x: string)
    requires QueueOk(ts, q)
    ensures QueueOk(ts, Remove(q, x))
  {
    RemoveOnce(q, x);
  }

  lemma AppendKeepsQueueOk(ts: seq<TaskState>, q: seq<string>, i: nat)
    requires UniqueNames(ts) && QueueOk(ts, q) && i < |ts| && ts[i].cfg.name !in q
    requires !ts[i].cfg.exempt && !ts[i].cfg.ownThread
    ensures QueueOk(ts, q + [ts[i].cfg.name])
  {
    assert forall j | 0 <= j < |ts| && ts[j].cfg.name == ts[i].cfg.name :: j == i;
  }

  lemma StepKeepsQueueOk(p: Plan, s: LoopState, i: nat, e: StepEnv)
    requires i < |s.tasks| && UniqueNames(s.tasks) && QueueOk(s.tasks, s.queue)
    ensures QueueOk(s.tasks, Step(p, s, i, e).queue)
  {
    StepQueue(p, s, i, e);
    match Did(p, s, i, e)
    case Leave =>
    case Defer => AppendKeepsQueueOk(s.tasks, s.queue, i);
    case Launch => RemoveKeepsQueueOk(s.tasks, s.queue, s.tasks[i].cfg.name);
    case Execute => RemoveKeepsQueueOk(s.tasks, s.queue, s.tasks[i].cfg.name);
  }

  lemma SameRegistryQueueOk(a: seq<TaskState>, b: seq<TaskState>, q: seq<string>)
    requires SameRegistry(a, b) && QueueOk(a, q) && UniqueNames(a)
    ensures QueueOk(b, q) && UniqueNames(b)
  {
    forall x | x in q ensures exists i | 0 <= i < |b| :: b[i].cfg.name == x {
      var i :| 0 <= i < |a| && a[i].cfg.name == x;
      assert b[i].cfg.name == x;
    }
  }

  /** Only the visited task changes, and it can only stay on the queue by being left or put there. */
  lemma StepKeepsDue(p: Plan, s: LoopState, i: nat, e: StepEnv, j: nat)
    requires i < |s.tasks| && QueueOk(s.tasks, s.queue) && DueIfQueued(s.tasks, s.queue, s.now, j)
    requires UniqueNames(s.tasks)
    ensures var t := Step(p, s, i, e); DueIfQueued(t.tasks, t.queue, t.now, j)
  {
    StepKeepsRegistry(p, s, i, e);
    if j == i {
      VisitedStaysDue(p, s, i, e);
    } else {
      OthersStayDue(p, s, i, e, j);
    }
  }

  lemma OthersStayDue(p: Plan, s: LoopState, i: nat, e: StepEnv, j: nat)
    requires i < |s.tasks| && QueueOk(s.tasks, s.queue) && DueIfQueued(s.tasks, s.queue, s.now, j)
    requires UniqueNames(s.tasks) && j != i
    ensures var t := Step(p, s, i, e); DueIfQueued(t.tasks, t.queue, t.now, j)
  {
    StepKeepsRegistry(p, s, i, e);
    StepQueue(p, s, i, e);
    RemoveOnce(s.queue, s.tasks[i].cfg.name);
    var t := Step(p, s, i, e);
    if t.tasks[j].cfg.name in t.queue {
      assert t.tasks[j] == s.tasks[j] && s.tasks[j].cfg.name in s.queue;
      DueStaysDue(s.tasks[j], s.now, t.now);
    }
  }

  lemma VisitedStaysDue(p: Plan, s: LoopState, i: nat, e: StepEnv)
    requires i < |s.tasks| && QueueOk(s.tasks, s.queue) && DueIfQueued(s.tasks, s.queue, s.now, i)
    ensures var t := Step(p, s, i, e); DueIfQueued(t.tasks, t.queue, t.now, i)
  {
    StepKeepsRegistry(p, s, i, e);
    StepQueue(p, s, i, e);
    RemoveOnce(s.queue, s.tasks[i].cfg.name);
    var t := Step(p, s, i, e);
    if Did(p, s, i, e).Leave? && s.tasks[i].cfg.name in s.queue {
      DueStaysDue(s.tasks[i], s.now, t.now);
    }
  }

  lemma LoopKeepsQueue(p: Plan, o: LoopState, order: seq<nat>, steps: nat -> StepEnv, k: nat)
    requires k <= |order| && Indices(o.tasks, order)
    requires UniqueNames(o.tasks) && QueueOk(o.tasks, o.queue)
    ensures var t := After(p, o, order, steps, k); QueueOk(t.tasks, t.queue) && UniqueNames(t.tasks)
  {
    var inv := (j: nat, w: LoopState) => UniqueNames(w.tasks) && QueueOk(w.tasks, w.queue);
    forall j: nat, w: LoopState | j < k && |w.tasks| == |o.tasks| && inv(j, w)
      ensures inv(j + 1, Step(p, w, order[j], steps(j)))
    {
      StepKeepsSound(p, w, order[j], steps(j));
    }
    LoopInduction(p, o, order, steps, inv, 0, k);
  }

  lemma StepKeepsSound(p: Plan, w: LoopState, i: nat, e: StepEnv)
    requires i < |w.tasks| && UniqueNames(w.tasks) && QueueOk(w.tasks, w.queue)
    ensures var t := Step(p, w, i, e); UniqueNames(t.tasks) && QueueOk(t.tasks, t.queue)
  {
    StepKeepsQueueOk(p, w, i, e);
    StepKeepsRegistry(p, w, i, e);
    SameRegistryQueueOk(w.tasks, Step(p, w, i, e).tasks, Step(p, w, i, e).queue);
  }

  lemma LoopKeepsDue(p: Plan, o: LoopState, order: seq<nat>, steps: nat -> StepEnv, k: nat, i: nat)
    requires k <= |order| && Indices(o.tasks, order)
    requires UniqueNames(o.tasks) && QueueOk(o.tasks, o.queue) && DueIfQueued(o.tasks, o.queue, o.now, i)
    ensures var t := After(p, o, order, steps, k); DueIfQueued(t.tasks, t.queue, t.now, i)
  {
    var inv := (j: nat, w: LoopState) =>
      UniqueNames(w.tasks) && QueueOk(w.tasks, w.queue) && DueIfQueued(w.tasks, w.queue, w.now, i);
    forall j: nat, w: LoopState | j < k && |w.tasks| == |o.tasks| && inv(j, w)
      ensures inv(j + 1, Step(p, w, order[j], steps(j)))
    {
      StepKeepsSound(p, w, order[j], steps(j));
      StepKeepsDue(p, w, order[j], steps(j), i);
    }
    LoopInduction(p, o, order, steps, inv, 0, k);
  }

  /** A due task has no child, so neither exits nor reaps touch it. */
  lemma OpeningLeavesDueTasks(s: Sched, env: PassEnv, i: nat)
    requires i < |s.tasks| && Due(s.tasks[i], s.now)
    ensures Opening(s, env).tasks[i] == s.tasks[i] && Due(s.tasks[i], Opening(s, env).now)
  {
  }

  lemma OpeningKeepsRegistry(s: Sched, env: PassEnv)
    ensures var o := Opening(s, env);
            && SameRegistry(o.tasks, s.tasks) && o.queue == s.queue && o.log == []
            && (UniqueNames(s.tasks) ==> UniqueNames(o.tasks))
  {
  }

  lemma OpeningKeepsQueue(s: Sched, env: PassEnv)
    requires UniqueNames(s.tasks) && QueueOk(s.tasks, s.queue)
    ensures var o := Opening(s, env);
            UniqueNames(o.tasks) && QueueOk(o.tasks, o.queue) && SameRegistry(o.tasks, s.tasks)
  {
    var o := Opening(s, env);
    assert SameRegistry(o.tasks, s.tasks);
  }

  lemma AtKeepsQueue(s: Sched, env: PassEnv, k: nat)
    requires k <= |s.tasks| && UniqueNames(s.tasks) && QueueOk(s.tasks, s.queue)
    ensures var t := At(s, env, k); QueueOk(t.tasks, t.queue) && UniqueNames(t.tasks)
  {
    OpeningKeepsQueue(s, env);
    LoopKeepsQueue(PlanOf(s, env), Opening(s, env), OrderOf(s, env), env.steps, k);
  }

  lemma PassKeepsQueue(s: Sched, env: PassEnv)
    requires UniqueNames(s.tasks) && QueueOk(s.tasks, s.queue)
    ensures QueueOk(Pass(s, env).tasks, Pass(s, env).queue)
  {
    AtKeepsQueue(s, env, |s.tasks|);
    var f := Final(s, env);
    assert SameRegistry(Pass(s, env).tasks, f.tasks);
  }

  lemma PassKeepsDue(s: Sched, env: PassEnv, i: nat)
    requires UniqueNames(s.tasks) && QueueOk(s.tasks, s.queue) && DueIfQueued(s.tasks, s.queue, s.now, i)
    ensures var t := Pass(s, env); DueIfQueued(t.tasks, t.queue, t.now, i)
  {
    OpeningKeepsQueue(s, env);
    if s.tasks[i].cfg.name in s.queue {
      OpeningLeavesDueTasks(s, env, i);
    }
    LoopKeepsDue(PlanOf(s, env), Opening(s, env), OrderOf(s, env), env.steps, |s.tasks|, i);
    ClosingLeavesDueTasks(Final(s, env), env, i);
  }

  lemma ClosingLeavesDueTasks(f: LoopState, env: PassEnv, i: nat)
    requires DueIfQueued(f.tasks, f.queue, f.now, i)
    ensures var t := Closing(f, env); DueIfQueued(t.tasks, t.queue, t.now, i)
  {
  }

  // ---------- every run ----------

  /** Direct runs of queued chores are the one way a queued chore can stop being due. */
  ghost predicate NoQueuedDirectRun(s: Sched, acts: seq<Action>) {
    forall n | 0 <= n < |acts| && acts[n].RunDirect? && acts[n].task < |s.tasks| ::
      s.tasks[acts[n].task].cfg.name !in Run(s, acts[..n]).queue
  }

  ghost predicate Sound(s: Sched) {
    UniqueNames(s.tasks) && QueueOk(s.tasks, s.queue)
  }

  lemma ActKeepsSound(s: Sched, a: Action)
    requires Sound(s)
    ensures Sound(Act(s, a))
  {
    RegistryKeptByAct(s, a);
    if a.DoPass? {
      PassKeepsQueue(s, a.env);
    } else {
      SameRegistryQueueOk(s.tasks, Act(s, a).tasks, s.queue);
    }
  }

  lemma ActKeepsDue(s: Sched, a: Action, i: nat)
    requires Sound(s) && DueIfQueued(s.tasks, s.queue, s.now, i)
    requires a.RunDirect? && a.task == i ==> s.tasks[i].cfg.name !in s.queue
    ensures var t := Act(s, a); DueIfQueued(t.tasks, t.queue, t.now, i)
  {
    if a.DoPass? {
      PassKeepsDue(s, a.env, i);
    } else if s.tasks[i].cfg.name in s.queue {
      var t := Act(s, a);
      assert t.tasks[i] == s.tasks[i];
      DueStaysDue(s.tasks[i], s.now, t.now);
    }
  }

  lemma ActKeepsQueuedDue(s: Sched, a: Action)
    requires Sound(s) && QueuedAreDue(s.tasks, s.queue, s.now)
    requires a.RunDirect? && a.task < |s.tasks| ==> s.tasks[a.task].cfg.name !in s.queue
    ensures QueuedAreDue(Act(s, a).tasks, Act(s, a).queue, Act(s, a).now)
  {
    var t := Act(s, a);
    forall i | 0 <= i < |t.tasks| && t.tasks[i].cfg.name in t.queue ensures Due(t.tasks[i], t.now) {
      ActKeepsDue(s, a, i);
    }
  }

  /** In every run the queue holds no chore twice and never an exempt or thread-owned one. */
  lemma QueueInvariant(s: Sched, acts: seq<Action>)
    requires Sound(s)
    ensures Sound(Run(s, acts))
  {
    var inv := (j: nat, m: Sched) => Sound(m);
    forall j: nat, m: Sched | j < |acts| && inv(j, m) ensures inv(j + 1, Act(m, acts[j])) {
      ActKeepsSound(m, acts[j]);
    }
    RunInduction(s, acts, inv);
  }

  /** Unless a queued chore is run directly, everything queued stays due, so the head is the one released. */
  lemma QueuedStayDue(s: Sched, acts: seq<Action>)
    requires Sound(s) && QueuedAreDue(s.tasks, s.queue, s.now) && NoQueuedDirectRun(s, acts)
    ensures var t := Run(s, acts); QueuedAreDue(t.tasks, t.queue, t.now)
  {
    var inv := (j: nat, m: Sched) =>
      Sound(m) && SameRegistry(m.tasks, s.tasks) && QueuedAreDue(m.tasks, m.queue, m.now);
    forall j: nat, m: Sched | j < |acts| && m == Run(s, acts[..j]) && inv(j, m)
      ensures inv(j + 1, Act(m, acts[j]))
    {
      RegistryKeptByAct(m, acts[j]);
      ActKeepsSound(m, acts[j]);
      ActKeepsQueuedDue(m, acts[j]);
    }
    RunInduction(s, acts, inv);
  }

  lemma HeadIsReleased(s: Sched, env: PassEnv)
    requires UniqueNames(s.tasks) && QueueOk(s.tasks, s.queue)
    requires s.queue != [] && QueuedAreDue(s.tasks, s.queue, s.now) && !env.pressure.Over()
    ensures PlanOf(s, env).slot == Some(s.queue[0])
  {
    assert s.queue[0] in s.queue;
    var i :| 0 <= i < |s.tasks| && s.tasks[i].cfg.name == s.queue[0];
    OpeningKeepsQueue(s, env);
    OpeningLeavesDueTasks(s, env, i);
    assert DueByName(Opening(s, env).tasks, s.queue[0], Opening(s, env).now);
  }

  // ---------- busy passes ----------

  /** What an over-bar pass keeps: nothing leaves the queue, and only exempt chores have started. */
  ghost predicate OnlyExempt(o: LoopState, w: LoopState) {
    && SameRegistry(w.tasks, o.tasks) && o.queue <= w.queue
    && forall e | e in w.log :: e.task < |o.tasks| && o.tasks[e.task].cfg.exempt
  }

  lemma OverBarStep(p: Plan, o: LoopState, w: LoopState, i: nat, e: StepEnv)
    requires i < |o.tasks| && p.over && p.slot.None? && OnlyExempt(o, w)
    ensures OnlyExempt(o, Step(p, w, i, e))
  {
    StepKeepsRegistry(p, w, i, e);
    StepQueue(p, w, i, e);
    StepLog(p, w, i, e);
  }

  lemma OverBarLoop(p: Plan, o: LoopState, order: seq<nat>, steps: nat -> StepEnv, k: nat)
    requires k <= |order| && Indices(o.tasks, order) && p.over && p.slot.None? && o.log == []
    ensures OnlyExempt(o, After(p, o, order, steps, k))
  {
    var inv := (j: nat, w: LoopState) => OnlyExempt(o, w);
    forall j: nat, w: LoopState | j < k && |w.tasks| == |o.tasks| && inv(j, w)
      ensures inv(j + 1, Step(p, w, order[j], steps(j)))
    {
      OverBarStep(p, o, w, order[j], steps(j));
    }
    LoopInduction(p, o, order, steps, inv, 0, k);
  }

  /** Over the bar only exempt chores start, and nothing leaves the queue. */
  lemma OverBarPass(s: Sched, env: PassEnv)
    requires env.pressure.Over()
    ensures s.queue <= Pass(s, env).queue
    ensures forall e | e in Final(s, env).log :: e.task < |s.tasks| && s.tasks[e.task].cfg.exempt
  {
    var o := Opening(s, env);
    assert SameRegistry(o.tasks, s.tasks);
    OverBarLoop(PlanOf(s, env), o, OrderOf(s, env), env.steps, |s.tasks|);
  }

  // ---------- calm passes ----------

  /** The queue as the slot allows it: untouched, or without the slot's chore. */
  ghost predicate OnlySlotLeft(q0: seq<string>, slot: Option<string>, q: seq<string>) {
    q == q0 || (slot.Some? && slot.value in q0 && q == Remove(q0, slot.value))
  }

  lemma RemovingTheSlot(q0: seq<string>, slot: Option<string>, q: seq<string>, name: string)
    requires NoDuplicates(q0) && OnlySlotLeft(q0, slot, q) && (name in q ==> slot == Some(name))
    ensures OnlySlotLeft(q0, slot, Remove(q, name))
  {
    RemoveKeeps(q, name);
    if slot.Some? {
      RemoveOnce(q0, slot.value);
    }
  }

  /** What a calm pass keeps: only the slot's chore leaves the queue, and nobody else waiting is dispatched. */
  ghost predicate Metered(slot: Option<string>, o: LoopState, w: LoopState) {
    && SameRegistry(w.tasks, o.tasks) && OnlySlotLeft(o.queue, slot, w.queue)
    && forall e | e in w.log ::
         e.task < |o.tasks| && (o.tasks[e.task].cfg.name !in o.queue || slot == Some(o.tasks[e.task].cfg.name))
  }

  lemma MeteredStep(p: Plan, o: LoopState, w: LoopState, i: nat, e: StepEnv)
    requires i < |o.tasks| && !p.over && NoDuplicates(o.queue) && Metered(p.slot, o, w)
    ensures Metered(p.slot, o, Step(p, w, i, e))
  {
    StepKeepsRegistry(p, w, i, e);
    StepQueue(p, w, i, e);
    StepLog(p, w, i, e);
    var v := Did(p, w, i, e);
    assert !v.Defer?;
    if v.Launch? || v.Execute? {
      RemovingTheSlot(o.queue, p.slot, w.queue, w.tasks[i].cfg.name);
      if p.slot.Some? {
        RemoveOnce(o.queue, p.slot.value);
      }
    }
  }

  lemma CalmLoop(p: Plan, o: LoopState, order: seq<nat>, steps: nat -> StepEnv, k: nat)
    requires k <= |order| && Indices(o.tasks, order) && !p.over && NoDuplicates(o.queue) && o.log == []
    ensures Metered(p.slot, o, After(p, o, order, steps, k))
  {
    var inv := (j: nat, w: LoopState) => Metered(p.slot, o, w);
    forall j: nat, w: LoopState | j < k && |w.tasks| == |o.tasks| && inv(j, w)
      ensures inv(j + 1, Step(p, w, order[j], steps(j)))
    {
      MeteredStep(p, o, w, order[j], steps(j));
    }
    LoopInduction(p, o, order, steps, inv, 0, k);
  }

  /** A pass not over the bar adds nothing, and removes at most the one chore holding the slot; FIFO order is kept. */
  lemma CalmPass(s: Sched, env: PassEnv)
    requires !env.pressure.Over() && NoDuplicates(s.queue)
    ensures var q := Pass(s, env).queue;
            q == s.queue
            || exists n :: 0 <= n < |s.queue| && PlanOf(s, env).slot == Some(s.queue[n])
                           && q == s.queue[..n] + s.queue[n + 1..]
    ensures forall e | e in Final(s, env).log ::
              e.task < |s.tasks|
              && (s.tasks[e.task].cfg.name !in s.queue || PlanOf(s, env).slot == Some(s.tasks[e.task].cfg.name))
  {
    var o := Opening(s, env);
    OpeningKeepsRegistry(s, env);
    CalmLoop(PlanOf(s, env), o, OrderOf(s, env), env.steps, |s.tasks|);
    MeteredMeans(s.tasks, PlanOf(s, env).slot, o, Final(s, env));
  }

  lemma MeteredMeans(ts: seq<TaskState>, slot: Option<string>, o: LoopState, w: LoopState)
    requires SameRegistry(o.tasks, ts) && Metered(slot, o, w)
    ensures w.queue == o.queue || exists n :: 0 <= n < |o.queue| && slot == Some(o.queue[n])
                                              && w.queue == o.queue[..n] + o.queue[n + 1..]
    ensures forall e | e in w.log ::
              e.task < |ts| && (ts[e.task].cfg.name !in o.queue || slot == Some(ts[e.task].cfg.name))
  {
    if slot.Some? && slot.value in o.queue {
      var n := RemoveSplits(o.queue, slot.value);
    }
  }

  // ---------- exactly when the slot is served ----------

  /** Away from its own place nothing in the loop touches a task. */
  lemma UntouchedBeforePlace(p: Plan, o: LoopState, order: seq<nat>, steps: nat -> StepEnv, m: nat, k: nat)
    requires k <= m < |order| && Indices(o.tasks, order) && NoDuplicates(order)
    ensures After(p, o, order, steps, k).tasks[order[m]] == o.tasks[order[m]]
  {
    var i := order[m];
    var inv := (j: nat, w: LoopState) => i < |w.tasks| && w.tasks[i] == o.tasks[i];
    forall j: nat, w: LoopState | j < k && |w.tasks| == |o.tasks| && inv(j, w)
      ensures inv(j + 1, Step(p, w, order[j], steps(j)))
    {
      assert order[j] != i;
      StepKeepsRegistry(p, w, order[j], steps(j));
    }
    LoopInduction(p, o, order, steps, inv, 0, k);
  }

  /** The slot's chore does not leave the queue before its own place, */
  lemma QueueBeforePlace(p: Plan, o: LoopState, order: seq<nat>, steps: nat -> StepEnv, m: nat)
    requires m < |order| && Indices(o.tasks, order) && NoDuplicates(order)
    requires !p.over && NoDuplicates(o.queue) && UniqueNames(o.tasks) && o.log == []
    requires p.slot == Some(o.tasks[order[m]].cfg.name)
    ensures After(p, o, order, steps, m).queue == o.queue
  {
    assert Metered(p.slot, o, o);
    QueueStandsStill(p, o, order, steps, m, 0, m);
  }

  /** nor after it. */
  lemma QueueAfterPlace(p: Plan, o: LoopState, order: seq<nat>, steps: nat -> StepEnv, m: nat)
    requires m < |order| && Indices(o.tasks, order) && NoDuplicates(order)
    requires !p.over && NoDuplicates(o.queue) && UniqueNames(o.tasks) && o.log == []
    requires p.slot == Some(o.tasks[order[m]].cfg.name)
    ensures After(p, o, order, steps, |order|).queue == After(p, o, order, steps, m + 1).queue
  {
    CalmLoop(p, o, order, steps, m + 1);
    QueueStandsStill(p, o, order, steps, m, m + 1, |order|);
  }

  /** Between places `b` and `k`, none of them `m`, a calm pass leaves the queue as it is. */
  lemma QueueStandsStill(p: Plan, o: LoopState, order: seq<nat>, steps: nat -> StepEnv, m: nat, b: nat, k: nat)
    requires b <= k <= |order| && m < |order| && (k <= m || m < b) && Indices(o.tasks, order) && NoDuplicates(order)
    requires !p.over && NoDuplicates(o.queue) && UniqueNames(o.tasks)
    requires p.slot == Some(o.tasks[order[m]].cfg.name)
    requires Metered(p.slot, o, After(p, o, order, steps, b))
    ensures After(p, o, order, steps, k).queue == After(p, o, order, steps, b).queue
  {
    var q := After(p, o, order, steps, b).queue;
    var inv := (j: nat, w: LoopState) => Metered(p.slot, o, w) && w.queue == q;
    forall j: nat, w: LoopState | b <= j < k && |w.tasks| == |o.tasks| && inv(j, w)
      ensures inv(j + 1, Step(p, w, order[j], steps(j)))
    {
      assert order[j] != order[m];
      MeteredStep(p, o, w, order[j], steps(j));
      OthersLeaveTheQueueAlone(p, o, w, order[j], steps(j));
    }
    LoopInduction(p, o, order, steps, inv, b, k);
  }

  lemma OthersLeaveTheQueueAlone(p: Plan, o: LoopState, w: LoopState, i: nat, e: StepEnv)
    requires i < |o.tasks| && !p.over && NoDuplicates(o.queue)
    requires Metered(p.slot, o, w) && p.slot != Some(o.tasks[i].cfg.name)
    ensures Step(p, w, i, e).queue == w.queue
  {
    StepQueue(p, w, i, e);
    assert w.tasks[i].cfg.name == o.tasks[i].cfg.name;
    if w.tasks[i].cfg.name in w.queue {
      assert Did(p, w, i, e).Leave?;
    }
  }

  /** The lane's candidate is only ever launched at its own place, so before it the lane is as it opened. */
  lemma LaneBeforePlace(p: Plan, o: LoopState, order: seq<nat>, steps: nat -> StepEnv, m: nat, k: nat)
    requires k <= m < |order| && Indices(o.tasks, order) && NoDuplicates(order)
    requires p.bulkNext == Some(order[m]) && !o.busy
    ensures !After(p, o, order, steps, k).busy
  {
    var inv := (j: nat, w: LoopState) => !w.busy;
    forall j: nat, w: LoopState | j < k && |w.tasks| == |o.tasks| && inv(j, w)
      ensures inv(j + 1, Step(p, w, order[j], steps(j)))
    {
      assert order[j] != order[m];
      StepStays(p, w, order[j], steps(j));
    }
    LoopInduction(p, o, order, steps, inv, 0, k);
  }

  /**
   The queue shrinks exactly when the chore that holds the slot is reached before a stop, is not
   yielded, and either is the lane's candidate or is a foreground chore with budget left for it.
   `i` is the slot's chore and `m` its place in the dispatch order.
   */
  lemma SlotServedExactlyWhen(s: Sched, env: PassEnv, i: nat, m: nat)
    requires !env.pressure.Over() && UniqueNames(s.tasks) && QueueOk(s.tasks, s.queue)
    requires i < |s.tasks| && PlanOf(s, env).slot == Some(s.tasks[i].cfg.name)
    requires m < |s.tasks| && OrderOf(s, env)[m] == i
    ensures Pass(s, env).queue != s.queue
       <==> && !At(s, env, m).stopped && !env.steps(m).stop
            && s.tasks[i].cfg.name !in env.yielded
            && (if s.tasks[i].cfg.background then PlanOf(s, env).bulkNext == Some(i)
                else s.tasks[i].cfg.floor || At(s, env, m).used < FOREGROUND_BUDGET_SEC as real)
    ensures Pass(s, env).queue != s.queue ==> Pass(s, env).queue == Remove(s.queue, s.tasks[i].cfg.name)
  {
    var p, o, order, steps := PlanOf(s, env), Opening(s, env), OrderOf(s, env), env.steps;
    OpeningKeepsQueue(s, env);
    SlotAtItsPlace(p, o, order, steps, i, m);
    QueueAfterPlace(p, o, order, steps, m);
    var name := s.tasks[i].cfg.name;
    RemoveOnce(s.queue, name);
    assert name in s.queue && name !in Remove(s.queue, name);
  }

  lemma SlotAtItsPlace(p: Plan, o: LoopState, order: seq<nat>, steps: nat -> StepEnv, i: nat, m: nat)
    requires m < |order| && Indices(o.tasks, order) && NoDuplicates(order) && order[m] == i
    requires !p.over && UniqueNames(o.tasks) && QueueOk(o.tasks, o.queue) && o.log == []
    requires p.slot == Some(o.tasks[i].cfg.name) && p.slot.value in o.queue
    requires DueByName(o.tasks, p.slot.value, o.now)
    requires p.bulkNext.Some? ==> !o.busy
    ensures var a := After(p, o, order, steps, m); var t := o.tasks[i];
            After(p, o, order, steps, m + 1).queue
            == if && !a.stopped && !steps(m).stop && t.cfg.name !in p.yielded
                  && (if t.cfg.background then p.bulkNext == Some(i)
                      else t.cfg.floor || a.used < FOREGROUND_BUDGET_SEC as real)
               then Remove(o.queue, t.cfg.name) else o.queue
  {
    QueueBeforePlace(p, o, order, steps, m);
    UntouchedBeforePlace(p, o, order, steps, m, m);
    LoopKeepsRegistry(p, o, order, steps, m);
    var a, e, t := After(p, o, order, steps, m), steps(m), o.tasks[i];
    var j :| 0 <= j < |o.tasks| && o.tasks[j].cfg.name == t.cfg.name && Due(o.tasks[j], o.now);
    assert j == i;
    DueStaysDue(t, o.now, a.now + e.delay);
    if p.bulkNext == Some(i) {
      LaneBeforePlace(p, o, order, steps, m, m);
    }
    StepQueue(p, a, i, e);
  }

  // ---------- a backlog that never drains ----------

  /**
   The head of the queue is a bulk chore, and a bulk chore that ran longer ago waits behind it. The
   slot is the head's and the lane is the other's, so each waits for the other.
   */
  ghost predicate Deadlocked(s: Sched, a: nat, b: nat) {
    && a < |s.tasks| && b < |s.tasks| && a != b && s.queue != []
    && s.queue[0] == s.tasks[a].cfg.name && s.tasks[b].cfg.name in s.queue
    && s.tasks[a].cfg.background && s.tasks[b].cfg.background
    && Due(s.tasks[a], s.now) && Due(s.tasks[b], s.now)
    && (s.tasks[b].lastRun < s.tasks[a].lastRun || (s.tasks[b].lastRun == s.tasks[a].lastRun && b < a))
  }

  /** The world leaves the pair alone: `b` is never handed to the server, neither is run directly. */
  ghost predicate LeavesPairAlone(s: Sched, act: Action, a: nat, b: nat)
    requires b < |s.tasks|
  {
    match act
    case DoPass(env) => s.tasks[b].cfg.name !in env.yielded
    case RunDirect(i, _, _) => i != a && i != b
    case Sleep(_) => true
  }

  /** What a blocked queue keeps at every place of a pass. */
  ghost predicate Blocked(o: LoopState, w: LoopState) {
    && o.queue <= w.queue && SameRegistry(w.tasks, o.tasks)
    && (forall j | 0 <= j < |o.tasks| && o.tasks[j].cfg.name in o.queue :: w.tasks[j] == o.tasks[j])
    && (forall e | e in w.log :: e.task < |o.tasks| && o.tasks[e.task].cfg.name !in o.queue)
  }

  lemma QueuedIsLeft(p: Plan, o: LoopState, w: LoopState, a: nat, i: nat, e: StepEnv)
    requires i < |o.tasks| && UniqueNames(o.tasks) && Blocked(o, w) && w.tasks[i].cfg.name in w.queue
    requires a < |o.tasks| && o.tasks[a].cfg.background && p.bulkNext != Some(a)
    requires p.slot.None? || p.slot == Some(o.tasks[a].cfg.name)
    ensures Did(p, w, i, e).Leave?
  {
    assert w.tasks[i].cfg == o.tasks[i].cfg;
    assert o.tasks[i].cfg.name == o.tasks[a].cfg.name ==> i == a;
  }

  lemma BlockedStep(p: Plan, o: LoopState, w: LoopState, a: nat, i: nat, e: StepEnv)
    requires i < |o.tasks| && UniqueNames(o.tasks) && Blocked(o, w)
    requires a < |o.tasks| && o.tasks[a].cfg.background && p.bulkNext != Some(a)
    requires p.slot.None? || p.slot == Some(o.tasks[a].cfg.name)
    ensures Blocked(o, Step(p, w, i, e))
  {
    if w.tasks[i].cfg.name in w.queue {
      QueuedIsLeft(p, o, w, a, i, e);
      LeftAlone(p, w, i, e);
    } else {
      UnqueuedKeepsBlocked(p, o, w, i, e);
    }
  }

  lemma LeftAlone(p: Plan, w: LoopState, i: nat, e: StepEnv)
    requires i < |w.tasks| && Did(p, w, i, e).Leave?
    ensures var t := Step(p, w, i, e); t.tasks == w.tasks && t.queue == w.queue && t.log == w.log
  {
  }

  lemma UnqueuedKeepsBlocked(p: Plan, o: LoopState, w: LoopState, i: nat, e: StepEnv)
    requires i < |o.tasks| && Blocked(o, w) && w.tasks[i].cfg.name !in w.queue
    ensures Blocked(o, Step(p, w, i, e))
  {
    StepKeepsRegistry(p, w, i, e);
    StepQueue(p, w, i, e);
    StepLog(p, w, i, e);
    assert o.tasks[i].cfg.name !in o.queue;
  }

  lemma BlockedLoop(p: Plan, o: LoopState, order: seq<nat>, steps: nat -> StepEnv, a: nat, k: nat)
    requires k <= |order| && Indices(o.tasks, order) && UniqueNames(o.tasks) && o.log == []
    requires a < |o.tasks| && o.tasks[a].cfg.background && p.bulkNext != Some(a)
    requires p.slot.None? || p.slot == Some(o.tasks[a].cfg.name)
    ensures Blocked(o, After(p, o, order, steps, k))
  {
    var inv := (j: nat, w: LoopState) => Blocked(o, w);
    forall j: nat, w: LoopState | j < k && |w.tasks| == |o.tasks| && inv(j, w)
      ensures inv(j + 1, Step(p, w, order[j], steps(j)))
    {
      BlockedStep(p, o, w, a, order[j], steps(j));
    }
    LoopInduction(p, o, order, steps, inv, 0, k);
  }

  /** The lane goes to the other one, and the slot to the head. */
  lemma DeadlockedPlan(s: Sched, env: PassEnv, a: nat, b: nat)
    requires Deadlocked(s, a, b) && s.tasks[b].cfg.name !in env.yielded
    ensures PlanOf(s, env).bulkNext != Some(a)
    ensures PlanOf(s, env).slot.None? || PlanOf(s, env).slot == Some(s.tasks[a].cfg.name)
  {
    var o := Opening(s, env);
    OpeningLeavesDueTasks(s, env, a);
    OpeningLeavesDueTasks(s, env, b);
    assert BulkCandidate(o.tasks[b], env.yielded, o.now);
    assert DueByName(o.tasks, s.queue[0], o.now);
  }

  /** No pass ever dispatches anything of a deadlocked queue. */
  lemma DeadlockedPass(s: Sched, env: PassEnv, a: nat, b: nat)
    requires UniqueNames(s.tasks) && QueueOk(s.tasks, s.queue)
    requires Deadlocked(s, a, b) && s.tasks[b].cfg.name !in env.yielded
    ensures s.queue <= Pass(s, env).queue && Deadlocked(Pass(s, env), a, b)
    ensures Pass(s, env).tasks[a] == s.tasks[a] && Pass(s, env).tasks[b] == s.tasks[b]
    ensures forall e | e in Final(s, env).log :: e.task < |s.tasks| && s.tasks[e.task].cfg.name !in s.queue
  {
    BlockedPass(s, env, a, b);
    OpeningLeavesDueTasks(s, env, a);
    OpeningLeavesDueTasks(s, env, b);
    OpeningKeepsRegistry(s, env);
    BlockedNames(s.tasks, Opening(s, env), Final(s, env));
    BlockedClose(s, env, a, b);
  }

  lemma BlockedPass(s: Sched, env: PassEnv, a: nat, b: nat)
    requires UniqueNames(s.tasks) && QueueOk(s.tasks, s.queue)
    requires Deadlocked(s, a, b) && s.tasks[b].cfg.name !in env.yielded
    ensures Blocked(Opening(s, env), Final(s, env))
  {
    DeadlockedPlan(s, env, a, b);
    OpeningKeepsRegistry(s, env);
    BlockedLoop(PlanOf(s, env), Opening(s, env), OrderOf(s, env), env.steps, a, |s.tasks|);
  }

  lemma BlockedNames(ts: seq<TaskState>, o: LoopState, w: LoopState)
    requires SameRegistry(o.tasks, ts) && Blocked(o, w)
    ensures forall e | e in w.log :: e.task < |ts| && ts[e.task].cfg.name !in o.queue
  {
  }

  lemma BlockedClose(s: Sched, env: PassEnv, a: nat, b: nat)
    requires Deadlocked(s, a, b) && Blocked(Opening(s, env), Final(s, env))
    requires Opening(s, env).tasks[a] == s.tasks[a] && Opening(s, env).tasks[b] == s.tasks[b]
    ensures s.queue <= Pass(s, env).queue && Deadlocked(Pass(s, env), a, b)
    ensures Pass(s, env).tasks[a] == s.tasks[a] && Pass(s, env).tasks[b] == s.tasks[b]
  {
    RegistryKeptByPass(s, env);
    assert s.queue[0] in s.queue;
    var f, t := Final(s, env), Pass(s, env);
    assert f.tasks[a] == s.tasks[a] && f.tasks[b] == s.tasks[b];
    assert t.tasks[a] == s.tasks[a] && t.tasks[b] == s.tasks[b];
    DueStaysDue(s.tasks[a], s.now, t.now);
    DueStaysDue(s.tasks[b], s.now, t.now);
    assert t.queue[0] == s.queue[0];
  }

  /**
   The deadlock lasts as long as the process, whose memory holds the queue: whatever readings, outcomes,
   sleeps and other direct runs follow, the queue keeps every chore it holds, and the two bulk chores are
   never touched again.
   */
  lemma DeadlockIsForever(s: Sched, acts: seq<Action>, a: nat, b: nat)
    requires Sound(s) && Deadlocked(s, a, b)
    requires forall n | 0 <= n < |acts| :: LeavesPairAlone(s, acts[n], a, b)
    ensures var t := Run(s, acts);
            s.queue <= t.queue && Deadlocked(t, a, b) && t.tasks[a] == s.tasks[a] && t.tasks[b] == s.tasks[b]
  {
    var inv := (j: nat, m: Sched) => Sound(m) && StillDeadlocked(s, m, a, b);
    forall j: nat, m: Sched | j < |acts| && inv(j, m) ensures inv(j + 1, Act(m, acts[j])) {
      ActKeepsSound(m, acts[j]);
      ActKeepsDeadlock(s, m, acts[j], a, b);
    }
    RunInduction(s, acts, inv);
  }

  ghost predicate StillDeadlocked(s: Sched, m: Sched, a: nat, b: nat) {
    && Deadlocked(m, a, b) && s.queue <= m.queue && a < |s.tasks| && b < |s.tasks|
    && m.tasks[a] == s.tasks[a] && m.tasks[b] == s.tasks[b]
  }

  lemma ActKeepsDeadlock(s: Sched, m: Sched, act: Action, a: nat, b: nat)
    requires Sound(m) && StillDeadlocked(s, m, a, b) && LeavesPairAlone(s, act, a, b)
    ensures StillDeadlocked(s, Act(m, act), a, b)
  {
    RegistryKeptByAct(m, act);
    match act
    case DoPass(env) =>
      DeadlockedPass(m, env, a, b);
    case RunDirect(i, took, failed) =>
      assert Act(m, act).tasks[a] == m.tasks[a] && Act(m, act).tasks[b] == m.tasks[b];
    case Sleep(d) =>
  }

  /** A head that belongs to the server blocks the queue just the same, for as long as it stays yielded. */
  lemma YieldedHeadBlocks(s: Sched, env: PassEnv, a: nat)
    requires UniqueNames(s.tasks) && QueueOk(s.tasks, s.queue)
    requires a < |s.tasks| && s.queue != [] && s.queue[0] == s.tasks[a].cfg.name
    requires Due(s.tasks[a], s.now) && s.tasks[a].cfg.name in env.yielded && !env.pressure.Over()
    ensures Pass(s, env).queue == s.queue
  {
    OpeningLeavesDueTasks(s, env, a);
    assert DueByName(Opening(s, env).tasks, s.queue[0], Opening(s, env).now);
    var m := PlaceOf(Opening(s, env).tasks, a);
    SlotServedExactlyWhen(s, env, a, m);
  }

  // ---------- how a deadlock comes about ----------

  /** A deferred chore is never lost: over the bar, every due chore the loop reaches ends up queued. */
  lemma DeferredIsQueued(s: Sched, env: PassEnv, i: nat, m: nat)
    requires env.pressure.Over() && i < |s.tasks| && m < |s.tasks| && OrderOf(s, env)[m] == i
    requires Due(s.tasks[i], s.now) && s.tasks[i].cfg.name !in env.yielded
    requires !s.tasks[i].cfg.exempt && !s.tasks[i].cfg.ownThread
    requires !At(s, env, m).stopped && !env.steps(m).stop
    ensures s.tasks[i].cfg.name in Pass(s, env).queue
  {
    OpeningLeavesDueTasks(s, env, i);
    DueGetsQueued(PlanOf(s, env), Opening(s, env), OrderOf(s, env), env.steps, i, m);
  }

  lemma DueGetsQueued(p: Plan, o: LoopState, order: seq<nat>, steps: nat -> StepEnv, i: nat, m: nat)
    requires m < |order| && Indices(o.tasks, order) && NoDuplicates(order) && order[m] == i
    requires p.over && p.slot.None? && Due(o.tasks[i], o.now) && o.tasks[i].cfg.name !in p.yielded
    requires !o.tasks[i].cfg.exempt && !o.tasks[i].cfg.ownThread
    requires !After(p, o, order, steps, m).stopped && !steps(m).stop
    ensures o.tasks[i].cfg.name in After(p, o, order, steps, |order|).queue
  {
    var a, e := After(p, o, order, steps, m), steps(m);
    assert a.tasks[i] == o.tasks[i] by {
      UntouchedBeforePlace(p, o, order, steps, m, m);
    }
    assert a.now >= o.now by {
      LoopKeepsRegistry(p, o, order, steps, m);
    }
    DueStaysDue(o.tasks[i], o.now, a.now + e.delay);
    DueIsDeferred(p, a, i, e);
    StaysQueuedAfter(p, o, order, steps, m, o.tasks[i].cfg.name);
  }

  lemma DueIsDeferred(p: Plan, a: LoopState, i: nat, e: StepEnv)
    requires i < |a.tasks| && p.over && p.slot.None? && !a.stopped && !e.stop
    requires Due(a.tasks[i], a.now + e.delay) && a.tasks[i].cfg.name !in p.yielded
    requires !a.tasks[i].cfg.exempt && !a.tasks[i].cfg.ownThread
    ensures a.tasks[i].cfg.name in Step(p, a, i, e).queue
  {
    StepQueue(p, a, i, e);
  }

  lemma OverBarStepKeeps(p: Plan, a: LoopState, i: nat, e: StepEnv, name: string)
    requires i < |a.tasks| && p.over && p.slot.None? && name in a.queue
    ensures name in Step(p, a, i, e).queue
  {
    StepQueue(p, a, i, e);
    if Did(p, a, i, e).Launch? || Did(p, a, i, e).Execute? {
      assert a.tasks[i].cfg.name !in a.queue;
    }
  }

  lemma StaysQueuedAfter(p: Plan, o: LoopState, order: seq<nat>, steps: nat -> StepEnv, m: nat, name: string)
    requires m < |order| && Indices(o.tasks, order) && p.over && p.slot.None?
    requires name in Step(p, After(p, o, order, steps, m), order[m], steps(m)).queue
    ensures name in After(p, o, order, steps, |order|).queue
  {
    StaysQueued(p, o, order, steps, m + 1, |order|, name);
  }

  /** Once queued, a chore stays queued to the end of an over-bar pass. */
  lemma StaysQueued(p: Plan, o: LoopState, order: seq<nat>, steps: nat -> StepEnv, m: nat, k: nat, name: string)
    requires m <= k <= |order| && Indices(o.tasks, order) && p.over && p.slot.None?
    requires name in After(p, o, order, steps, m).queue
    ensures name in After(p, o, order, steps, k).queue
  {
    var inv := (j: nat, w: LoopState) => name in w.queue;
    forall j: nat, w: LoopState | m <= j < k && |w.tasks| == |o.tasks| && inv(j, w)
      ensures inv(j + 1, Step(p, w, order[j], steps(j)))
    {
      OverBarStepKeeps(p, w, order[j], steps(j), name);
    }
    LoopInduction(p, o, order, steps, inv, m, k);
  }

  /** An instantaneous over-bar pass over childless, gated tasks, of which only `i` is due and not yet queued. */
  ghost predicate OnlyNewlyDue(o: LoopState, i: nat) {
    && i < |o.tasks| && UniqueNames(o.tasks)
    && (forall j | 0 <= j < |o.tasks| :: !o.tasks[j].cfg.exempt && !o.tasks[j].cfg.ownThread)
    && o.tasks[i].cfg.name !in o.queue && Due(o.tasks[i], o.now)
    && (forall j | 0 <= j < |o.tasks| && j != i :: o.tasks[j].cfg.name in o.queue || !Due(o.tasks[j], o.now))
  }

  lemma OneMoreLoop(p: Plan, o: LoopState, order: seq<nat>, steps: nat -> StepEnv, i: nat, m: nat, k: nat)
    requires k <= |order| && m < |order| && Indices(o.tasks, order) && NoDuplicates(order) && order[m] == i
    requires p.over && p.slot.None? && p.yielded == {} && !o.stopped && OnlyNewlyDue(o, i)
    requires forall j | 0 <= j < |order| :: steps(j) == StepEnv(false, 0.0, 0.0, false)
    ensures var w := After(p, o, order, steps, k);
            && w.tasks == o.tasks && w.now == o.now && !w.stopped
            && w.queue == if m < k then o.queue + [o.tasks[i].cfg.name] else o.queue
  {
    var inv := (j: nat, w: LoopState) =>
      && w.tasks == o.tasks && w.now == o.now && !w.stopped
      && w.queue == if m < j then o.queue + [o.tasks[i].cfg.name] else o.queue;
    forall j: nat, w: LoopState | j < k && |w.tasks| == |o.tasks| && inv(j, w)
      ensures inv(j + 1, Step(p, w, order[j], steps(j)))
    {
      assert j != m ==> order[j] != i;
      OneMoreStep(p, o, w, i, order[j], m < j);
    }
    LoopInduction(p, o, order, steps, inv, 0, k);
  }

  lemma OneMoreStep(p: Plan, o: LoopState, w: LoopState, i: nat, j: nat, done: bool)
    requires p.over && p.slot.None? && p.yielded == {} && OnlyNewlyDue(o, i) && j < |o.tasks|
    requires w.tasks == o.tasks && w.now == o.now && !w.stopped
    requires w.queue == if done then o.queue + [o.tasks[i].cfg.name] else o.queue
    requires done ==> j != i
    ensures var t := Step(p, w, j, StepEnv(false, 0.0, 0.0, false));
            && t.tasks == o.tasks && t.now == o.now && !t.stopped
            && t.queue == if done || j == i then o.queue + [o.tasks[i].cfg.name] else o.queue
  {
    if j != i {
      assert o.tasks[j].cfg.name != o.tasks[i].cfg.name;
    }
  }

  const QUIET_BUSY_PASS: PassEnv :=
    PassEnv({}, Pressure(Some(300), 300, 210.0), 0.0, (m, i) => None, k => StepEnv(false, 0.0, 0.0, false))

  lemma OneMoreQueued(s: Sched, i: nat)
    requires forall j | 0 <= j < |s.tasks| :: s.tasks[j].child.None?
    requires OnlyNewlyDue(LoopState(s.tasks, s.queue, s.announced, s.now, 0.0, false, false, []), i)
    ensures var t := Pass(s, QUIET_BUSY_PASS);
            t.tasks == s.tasks && t.now == s.now && t.queue == s.queue + [s.tasks[i].cfg.name]
  {
    var env := QUIET_BUSY_PASS;
    var o := Opening(s, env);
    assert o.tasks == s.tasks;
    var m := PlaceOf(o.tasks, i);
    OneMoreLoop(PlanOf(s, env), o, OrderOf(s, env), env.steps, i, m, |s.tasks|);
    assert Pass(s, env).tasks == s.tasks;
  }

  const SIX_HOURS: nat := 21600

  const NEWER: TaskState :=
    TaskState(Config("version-update", SIX_HOURS, true, false, false, false), 1800, 0, None)
  const QUARANTINED: TaskState :=
    TaskState(Config("github-config-audit", SIX_HOURS, true, false, false, false), 0, 3, None)

  lemma PairFacts()
    ensures NEWER.cfg.name != QUARANTINED.cfg.name
    ensures Due(NEWER, 23400.0) && !Due(QUARANTINED, 23400.0)
    ensures Due(NEWER, 25200.0) && Due(QUARANTINED, 25200.0)
  {
    assert NEWER.cfg.name[0] != QUARANTINED.cfg.name[0];
    assert Penalty(SIX_HOURS, 3) == MAX_BACKOFF_SEC;
    assert 23400.0.Floor == 23400 && 25200.0.Floor == 25200;
  }

  lemma NewerIsQueued(s: Sched)
    requires s == Sched([NEWER, QUARANTINED], [], {}, 23400.0)
    ensures var t := Pass(s, QUIET_BUSY_PASS);
            t.tasks == s.tasks && t.now == 23400.0 && t.queue == [NEWER.cfg.name]
  {
    PairFacts();
    OneMoreQueued(s, 0);
  }

  lemma QuarantinedIsQueued(s: Sched)
    requires s.tasks == [NEWER, QUARANTINED] && s.queue == [NEWER.cfg.name] && s.now == 25200.0
    ensures var t := Pass(s, QUIET_BUSY_PASS);
            t.tasks == s.tasks && t.now == 25200.0 && t.queue == [NEWER.cfg.name, QUARANTINED.cfg.name]
  {
    PairFacts();
    OneMoreQueued(s, 1);
  }

  /**
   The shipped cadences reach the deadlock from an empty queue, in two passes half an hour apart. The
   second chore ran half an hour before the first, but three failures keep it in quarantine for an
   hour, and the host is over the bar when each of them comes due.
   */
  lemma DeadlockIsReachable() returns (s: Sched, halfAnHourLater: Sched)
    ensures s.queue == [] && s.tasks == [NEWER, QUARANTINED]
    ensures UniqueNames(s.tasks) && QueueOk(s.tasks, s.queue)
    ensures halfAnHourLater == Pass(s, QUIET_BUSY_PASS).(now := Pass(s, QUIET_BUSY_PASS).now + 1800.0)
    ensures Deadlocked(Pass(halfAnHourLater, QUIET_BUSY_PASS), 0, 1)
  {
    s := Sched([NEWER, QUARANTINED], [], {}, 23400.0);
    var s1 := Pass(s, QUIET_BUSY_PASS);
    halfAnHourLater := Sched(s.tasks, [NEWER.cfg.name], s1.announced, 25200.0);
    NewerIsQueued(s);
    QuarantinedIsQueued(halfAnHourLater);
    PairFacts();
  }
}
