/**
 The books of the release queue over whole runs (scripts/daemon.py:3911-3975, 4047-4099): which chore a
 calm pass serves, and so how long a queued chore waits, whatever is run directly in between.
 */
module ReleaseBooks {
  import opened Common
  import opened TaskRecord
  import opened DispatchOrder
  import opened DuePass
  import opened ReleaseQueue

  // ---------- whose turn it is ----------

  /** A queued chore is no longer due while a direct run of it is fresh. */
  ghost predicate DueAtOpening(s: Sched, env: PassEnv, k: nat)
    requires k < |s.queue|
  {
    DueByName(Opening(s, env).tasks, s.queue[k], Opening(s, env).now)
  }

  /** The turn is that of the first queued chore that is due as the pass opens. */
  ghost predicate TurnOf(s: Sched, env: PassEnv, n: nat) {
    n < |s.queue| && DueAtOpening(s, env, n) && forall k | 0 <= k < n :: !DueAtOpening(s, env, k)
  }

  /**
   A pass under the bar that serves place `n` of the queue, its task `i` standing at place `m` of the
   order: it gets there before a stop, the task is nobody else's, and it is the lane's candidate or a
   foreground task with budget left for it at that moment.
   */
  ghost predicate ServesAt(s: Sched, env: PassEnv, n: nat, i: nat, m: nat) {
    && !env.pressure.Over() && TurnOf(s, env, n)
    && i < |s.tasks| && s.tasks[i].cfg.name == s.queue[n]
    && m < |s.tasks| && OrderOf(s, env)[m] == i
    && !At(s, env, m).stopped && !env.steps(m).stop && s.tasks[i].cfg.name !in env.yielded
    && (if s.tasks[i].cfg.background then PlanOf(s, env).bulkNext == Some(i)
        else s.tasks[i].cfg.floor || At(s, env, m).used < FOREGROUND_BUDGET_SEC as real)
  }

  ghost predicate Serves(s: Sched, a: Action, n: nat) {
    a.DoPass? && exists i: nat, m: nat :: ServesAt(s, a.env, n, i, m)
  }

  lemma {:induction false} FirstDue(queue: seq<string>, ts: seq<TaskState>, now: real) returns (n: nat)
    requires NextRelease(queue, ts, now).Some?
    ensures n < |queue| && NextRelease(queue, ts, now) == Some(queue[n]) && DueByName(ts, queue[n], now)
    ensures forall k | 0 <= k < n :: !DueByName(ts, queue[k], now)
  {
    if DueByName(ts, queue[0], now) {
      n := 0;
    } else {
      var j := FirstDue(queue[1..], ts, now);
      n := j + 1;
      forall k | 0 <= k < n ensures !DueByName(ts, queue[k], now) {
        assert k > 0 ==> queue[k] == queue[1..][k - 1];
      }
    }
  }

  /** The slot of a pass under the bar goes to the chore whose turn it is, and to nobody exactly if it is nobody's. */
  lemma TurnIsSlot(s: Sched, env: PassEnv, n: nat)
    requires !env.pressure.Over() && TurnOf(s, env, n)
    ensures PlanOf(s, env).slot == Some(s.queue[n])
  {
    var o := Opening(s, env);
    assert o.queue == s.queue && s.queue[n] in s.queue;
    var k := FirstDue(o.queue, o.tasks, o.now);
    assert DueAtOpening(s, env, k);
  }

  lemma SlotIsTurn(s: Sched, env: PassEnv) returns (n: nat)
    requires !env.pressure.Over() && PlanOf(s, env).slot.Some?
    ensures TurnOf(s, env, n)
  {
    var o := Opening(s, env);
    assert o.queue == s.queue;
    n := FirstDue(o.queue, o.tasks, o.now);
    forall k | 0 <= k < n ensures !DueAtOpening(s, env, k) {
    }
  }

  // ---------- one pass, one action ----------

  function Without<T>(s: seq<T>, n: nat): seq<T>
    requires n < |s|
  {
    s[..n] + s[n + 1..]
  }

  lemma RemoveAtPlace(q: seq<string>, n: nat)
    requires NoDuplicates(q) && n < |q|
    ensures Remove(q, q[n]) == Without(q, n)
  {
    var k := RemoveSplits(q, q[n]);
    assert k == n;
  }

  lemma ServedLeaves(s: Sched, env: PassEnv, n: nat, i: nat, m: nat)
    requires Sound(s) && ServesAt(s, env, n, i, m)
    ensures Pass(s, env).queue == Without(s.queue, n)
  {
    TurnIsSlot(s, env, n);
    SlotServedExactlyWhen(s, env, i, m);
    RemoveAtPlace(s.queue, n);
  }

  lemma UnservedStays(s: Sched, env: PassEnv)
    requires Sound(s) && !env.pressure.Over() && forall n: nat :: !Serves(s, DoPass(env), n)
    ensures Pass(s, env).queue == s.queue
  {
    if PlanOf(s, env).slot.None? {
      CalmPass(s, env);
    } else {
      var n := SlotIsTurn(s, env);
      TurnIsSlot(s, env, n);
      assert s.queue[n] in s.queue;
      var i: nat :| i < |s.tasks| && s.tasks[i].cfg.name == s.queue[n];
      var m := PlaceOf(Opening(s, env).tasks, i);
      SlotServedExactlyWhen(s, env, i, m);
      assert !Serves(s, DoPass(env), n);
      assert !ServesAt(s, env, n, i, m);
    }
  }

  /** The place an action serves, if any. */
  ghost function Served(s: Sched, a: Action): Option<nat> {
    if exists n: nat :: Serves(s, a, n) then var n: nat :| Serves(s, a, n); Some(n) else None
  }

  /** What is served is the turn of the pass. */
  lemma TurnIsServed(s: Sched, a: Action)
    ensures Served(s, a).Some? ==> a.DoPass? && !a.env.pressure.Over() && TurnOf(s, a.env, Served(s, a).value)
  {
    if Served(s, a).Some? {
      var i: nat, m: nat :| ServesAt(s, a.env, Served(s, a).value, i, m);
    }
  }

  /** A calm pass takes one chore off the queue, the first that is due, if and only if its turn is served. */
  lemma CalmQueueStep(s: Sched, env: PassEnv)
    requires Sound(s) && !env.pressure.Over()
    ensures var n := Served(s, DoPass(env));
            && (n.Some? ==> TurnOf(s, env, n.value))
            && Pass(s, env).queue == if n.Some? then Without(s.queue, n.value) else s.queue
  {
    var n := Served(s, DoPass(env));
    if n.Some? {
      assert Serves(s, DoPass(env), n.value);
      var i: nat, m: nat :| ServesAt(s, env, n.value, i, m);
      ServedLeaves(s, env, n.value, i, m);
    } else {
      UnservedStays(s, env);
    }
  }

  /** What an action over the bar appends to the queue. */
  ghost function Appends(s: Sched, a: Action): seq<string> {
    if a.DoPass? && a.env.pressure.Over() && |s.queue| <= |Act(s, a).queue| then Act(s, a).queue[|s.queue|..] else []
  }

  lemma OverBarAppends(s: Sched, a: Action)
    requires a.DoPass? && a.env.pressure.Over()
    ensures Served(s, a).None? && Act(s, a).queue == s.queue + Appends(s, a)
  {
    OverBarPass(s, a.env);
    assert Pass(s, a.env).queue == s.queue + Pass(s, a.env).queue[|s.queue|..];
  }

  /** One action: one place is served or none, and only an over-bar pass appends. */
  lemma OnlyPassesServe(s: Sched, a: Action)
    requires !a.DoPass?
    ensures Served(s, a).None? && Appends(s, a) == [] && Act(s, a).queue == s.queue
  {
  }

  lemma CalmAppendsNothing(s: Sched, a: Action)
    requires a.DoPass? && !a.env.pressure.Over()
    ensures Appends(s, a) == []
  {
  }

  lemma QueueStep(s: Sched, a: Action)
    requires Sound(s)
    ensures var n := Served(s, a);
            && (n.Some? ==> a.DoPass? && TurnOf(s, a.env, n.value))
            && Act(s, a).queue == (if n.Some? then Without(s.queue, n.value) else s.queue) + Appends(s, a)
  {
    if !a.DoPass? {
      OnlyPassesServe(s, a);
    } else if a.env.pressure.Over() {
      OverBarAppends(s, a);
    } else {
      CalmQueueStep(s, a.env);
      CalmAppendsNothing(s, a);
      assert a == DoPass(a.env);
    }
  }

  // ---------- the books of a run ----------

  /**
   The state; how many passes served; all the queue was ever fed, its first content included; and which
   of those feeds are still waiting.
   */
  datatype Books = Books(sched: Sched, served: nat, feed: seq<string>, left: seq<nat>)

  function Range(a: nat, b: nat): seq<nat>
    requires a <= b
  {
    seq(b - a, k requires 0 <= k < b - a => a + k)
  }

  function Struck(left: seq<nat>, n: Option<nat>): seq<nat> {
    if n.Some? && n.value < |left| then Without(left, n.value) else left
  }

  /** The books after place `n` was served and `more` appended. */
  function Entry(b: Books, after: Sched, n: Option<nat>, more: seq<string>): Books {
    Books(after, b.served + (if n.Some? then 1 else 0), b.feed + more,
          Struck(b.left, n) + Range(|b.feed|, |b.feed + more|))
  }

  ghost function Entered(b: Books, a: Action): Books {
    Entry(b, Act(b.sched, a), Served(b.sched, a), Appends(b.sched, a))
  }

  ghost function Opened(s: Sched): Books {
    Books(s, 0, s.queue, Range(0, |s.queue|))
  }

  ghost function Tally(s: Sched, acts: seq<Action>): Books {
    if acts == [] then Opened(s) else Entered(Tally(s, acts[..|acts| - 1]), acts[|acts| - 1])
  }

  lemma {:induction false} TallyIsRun(s: Sched, acts: seq<Action>)
    ensures Tally(s, acts).sched == Run(s, acts)
  {
    if acts != [] {
      TallyIsRun(s, acts[..|acts| - 1]);
    }
  }

  /** The feeds at `left`, in the order they came in, are what `queue` holds. */
  ghost predicate Holds(feed: seq<string>, left: seq<nat>, queue: seq<string>) {
    && |queue| == |left|
    && (forall k | 0 <= k < |left| :: left[k] < |feed| && queue[k] == feed[left[k]])
    && (forall j, k | 0 <= j < k < |left| :: left[j] < left[k])
  }

  /** Nothing is lost and nothing overtakes but by being served: the queue is the unserved feeds in their order. */
  ghost predicate Balanced(b: Books) {
    |b.left| + b.served == |b.feed| && Holds(b.feed, b.left, b.sched.queue)
  }

  lemma StrikeKeeps(feed: seq<string>, left: seq<nat>, queue: seq<string>, n: nat)
    requires Holds(feed, left, queue) && n < |queue|
    ensures Holds(feed, Without(left, n), Without(queue, n))
  {
  }

  lemma FeedKeeps(feed: seq<string>, left: seq<nat>, queue: seq<string>, more: seq<string>)
    requires Holds(feed, left, queue)
    ensures Holds(feed + more, left + Range(|feed|, |feed + more|), queue + more)
  {
  }

  lemma EntryBalances(b: Books, after: Sched, n: Option<nat>, more: seq<string>)
    requires Balanced(b) && (n.Some? ==> n.value < |b.sched.queue|)
    requires after.queue == (if n.Some? then Without(b.sched.queue, n.value) else b.sched.queue) + more
    ensures Balanced(Entry(b, after, n, more))
  {
    if n.Some? {
      StrikeKeeps(b.feed, b.left, b.sched.queue, n.value);
      FeedKeeps(b.feed, Without(b.left, n.value), Without(b.sched.queue, n.value), more);
    } else {
      FeedKeeps(b.feed, b.left, b.sched.queue, more);
    }
  }

  lemma ActionBalances(b: Books, a: Action)
    requires Balanced(b) && Sound(b.sched)
    ensures Balanced(Entered(b, a)) && Sound(Entered(b, a).sched)
  {
    QueueStep(b.sched, a);
    ActKeepsSound(b.sched, a);
    EntryBalances(b, Act(b.sched, a), Served(b.sched, a), Appends(b.sched, a));
  }

  /**
   Whatever passes, sleeps and direct runs follow: the queue is everything ever fed to it, in that order,
   but for exactly as many chores as passes served, each of them the first that was due at the time.
   */
  lemma {:induction false} BooksAreRight(s: Sched, acts: seq<Action>)
    requires Sound(s)
    ensures var b := Tally(s, acts); b.sched == Run(s, acts) && Sound(b.sched) && s.queue <= b.feed && Balanced(b)
  {
    if acts != [] {
      var n := |acts| - 1;
      BooksAreRight(s, acts[..n]);
      ActionBalances(Tally(s, acts[..n]), acts[n]);
    }
  }

  // ---------- how long a queued chore waits ----------

  /** As long as feed `f` waits, every pass that served has served one fed before it. */
  predicate Standing(left: seq<nat>, served: nat, f: nat) {
    f in left ==> served <= f < served + |left| && left[f - served] == f
  }

  /** Feed `f` is chore `i`, due while it is queued, and in its turn. */
  ghost predicate InTurn(b: Books, f: nat, i: nat) {
    && Balanced(b) && Sound(b.sched) && DueIfQueued(b.sched.tasks, b.sched.queue, b.sched.now, i)
    && f < |b.feed| && b.feed[f] == b.sched.tasks[i].cfg.name && Standing(b.left, b.served, f)
  }

  /** A due chore is never passed over: the turn is its own or that of one ahead of it. */
  lemma TurnIsNotBehind(s: Sched, env: PassEnv, k: nat, i: nat, n: nat)
    requires Sound(s) && k < |s.queue| && i < |s.tasks| && s.tasks[i].cfg.name == s.queue[k]
    requires DueIfQueued(s.tasks, s.queue, s.now, i) && TurnOf(s, env, n)
    ensures n <= k
  {
    OpeningKeepsQueue(s, env);
    OpeningLeavesDueTasks(s, env, i);
    assert DueAtOpening(s, env, k);
  }

  lemma StruckPlace(left: seq<nat>, n: nat, k: nat)
    requires (forall j, k | 0 <= j < k < |left| :: left[j] < left[k]) && n <= k < |left|
    ensures left[k] in Without(left, n) ==> n < k && Without(left, n)[k - 1] == left[k]
  {
    if n == k {
      forall j | 0 <= j < |Without(left, n)| ensures Without(left, n)[j] != left[k] {
        assert Without(left, n)[j] == if j < n then left[j] else left[j + 1];
      }
    }
  }

  lemma StrikeKeepsStanding(left: seq<nat>, served: nat, f: nat, n: nat)
    requires (forall j, k | 0 <= j < k < |left| :: left[j] < left[k]) && n < |left|
    requires Standing(left, served, f) && (f in left ==> served + n <= f)
    ensures Standing(Without(left, n), served + 1, f)
  {
    var rest := Without(left, n);
    if f in rest {
      assert f in left;
      StruckPlace(left, n, f - served);
    }
  }

  lemma FeedKeepsStanding(left: seq<nat>, served: nat, f: nat, more: seq<nat>)
    requires Standing(left, served, f) && f !in more
    ensures Standing(left + more, served, f)
  {
  }

  /** The passage that served, if any, served a place no further back than that of feed `f`. */
  lemma ServedNotBehind(s: Sched, a: Action, k: nat, i: nat)
    requires Sound(s) && k < |s.queue| && i < |s.tasks| && s.tasks[i].cfg.name == s.queue[k]
    requires DueIfQueued(s.tasks, s.queue, s.now, i)
    ensures Served(s, a).Some? ==> Served(s, a).value <= k
  {
    TurnIsServed(s, a);
    if Served(s, a).Some? {
      TurnIsNotBehind(s, a.env, k, i, Served(s, a).value);
    }
  }

  lemma TurnIsNotBehindFeed(b: Books, a: Action, f: nat, i: nat)
    requires InTurn(b, f, i)
    ensures Served(b.sched, a).Some? ==> Served(b.sched, a).value < |b.left|
    ensures Served(b.sched, a).Some? && f in b.left ==> b.served + Served(b.sched, a).value <= f
  {
    TurnIsServed(b.sched, a);
    if f in b.left {
      PlaceOfFeed(b, f, i);
      ServedNotBehind(b.sched, a, f - b.served, i);
    }
  }

  lemma PlaceOfFeed(b: Books, f: nat, i: nat)
    requires InTurn(b, f, i) && f in b.left
    ensures b.served <= f && f - b.served < |b.sched.queue|
    ensures b.sched.queue[f - b.served] == b.sched.tasks[i].cfg.name
  {
    assert b.left[f - b.served] == f;
  }

  lemma StandingAfter(left: seq<nat>, served: nat, f: nat, n: Option<nat>, more: seq<nat>)
    requires (forall j, k | 0 <= j < k < |left| :: left[j] < left[k]) && Standing(left, served, f) && f !in more
    requires n.Some? ==> n.value < |left| && (f in left ==> served + n.value <= f)
    ensures Standing(Struck(left, n) + more, served + (if n.Some? then 1 else 0), f)
  {
    if n.Some? {
      StrikeKeepsStanding(left, served, f, n.value);
      FeedKeepsStanding(Without(left, n.value), served + 1, f, more);
    } else {
      FeedKeepsStanding(left, served, f, more);
    }
  }

  lemma EntryKeepsStanding(b: Books, after: Sched, n: Option<nat>, more: seq<string>, f: nat)
    requires (forall j, k | 0 <= j < k < |b.left| :: b.left[j] < b.left[k])
    requires f < |b.feed| && Standing(b.left, b.served, f)
    requires n.Some? ==> n.value < |b.left| && (f in b.left ==> b.served + n.value <= f)
    ensures Standing(Entry(b, after, n, more).left, Entry(b, after, n, more).served, f)
  {
    StandingAfter(b.left, b.served, f, n, Range(|b.feed|, |b.feed + more|));
  }

  lemma EntryKeepsTurn(b: Books, a: Action, f: nat, i: nat)
    requires InTurn(b, f, i) && (a.RunDirect? ==> a.task != i)
    ensures InTurn(Entered(b, a), f, i)
  {
    RegistryKeptByAct(b.sched, a);
    ActKeepsDue(b.sched, a, i);
    ActionBalances(b, a);
    TurnIsNotBehindFeed(b, a, f, i);
    EntryKeepsStanding(b, Act(b.sched, a), Served(b.sched, a), Appends(b.sched, a), f);
  }

  /** What stood at place `f` of the queue `q`, if it still waits, has moved up once for every pass that served. */
  ghost predicate WaitsInTurn(q: seq<string>, b: Books, f: nat)
    requires f < |q|
  {
    f in b.left ==> b.served <= f && f - b.served < |b.sched.queue| && b.sched.queue[f - b.served] == q[f]
  }

  /** Nobody runs chore `i` directly. */
  predicate NeverRunDirectly(acts: seq<Action>, i: nat) {
    forall n | 0 <= n < |acts| && acts[n].RunDirect? :: acts[n].task != i
  }

  /**
   A due chore at place `f` of the queue that nobody runs directly, whatever else is run, deferred, yielded
   or stopped: as long as it waits, exactly the passes that served have moved it one place up each. So it is
   served by the (f + 1)-st serving pass at the latest.
   */
  lemma BacklogDrains(s: Sched, acts: seq<Action>, f: nat, i: nat)
    requires Sound(s) && f < |s.queue| && i < |s.tasks| && s.tasks[i].cfg.name == s.queue[f] && Due(s.tasks[i], s.now)
    requires NeverRunDirectly(acts, i)
    ensures WaitsInTurn(s.queue, Tally(s, acts), f)
  {
    StaysInTurn(s, acts, f, i);
    assert InTurn(Tally(s, acts), f, i);
    StandingMeansQueued(s.queue, Tally(s, acts), f, i);
  }

  lemma {:induction false} StaysInTurn(s: Sched, acts: seq<Action>, f: nat, i: nat)
    requires Sound(s) && f < |s.queue| && i < |s.tasks| && s.tasks[i].cfg.name == s.queue[f] && Due(s.tasks[i], s.now)
    requires NeverRunDirectly(acts, i)
    ensures s.queue <= Tally(s, acts).feed && InTurn(Tally(s, acts), f, i)
  {
    if acts != [] {
      var n := |acts| - 1;
      StaysInTurn(s, acts[..n], f, i);
      EntryKeepsTurn(Tally(s, acts[..n]), acts[n], f, i);
    }
  }

  lemma StandingMeansQueued(q: seq<string>, b: Books, f: nat, i: nat)
    requires InTurn(b, f, i) && q <= b.feed && f < |q|
    ensures WaitsInTurn(q, b, f)
  {
  }

  // ---------- first in, first out ----------

  lemma FirstIsServed(s: Sched, a: Action)
    requires Sound(s) && QueuedAreDue(s.tasks, s.queue, s.now)
    ensures Served(s, a).Some? ==> Served(s, a).value == 0 && s.queue != []
  {
    TurnIsServed(s, a);
    if Served(s, a).Some? {
      assert s.queue[0] in s.queue;
      var i: nat :| i < |s.tasks| && s.tasks[i].cfg.name == s.queue[0];
      TurnIsNotBehind(s, a.env, 0, i, Served(s, a).value);
    }
  }

  /** The queue is the feed without as many of its first chores as passes served. */
  ghost predicate InOrderFed(b: Books) {
    b.served <= |b.feed| && b.sched.queue == b.feed[b.served..]
  }

  lemma InOrderAfter(feed: seq<string>, served: nat, queue: seq<string>, n: Option<nat>, more: seq<string>)
    requires served <= |feed| && queue == feed[served..] && (n.Some? ==> n.value == 0 && queue != [])
    ensures var d := served + if n.Some? then 1 else 0;
            d <= |feed + more| && (if n.Some? then Without(queue, n.value) else queue) + more == (feed + more)[d..]
  {
  }

  lemma EntryInOrder(b: Books, a: Action)
    requires InOrderFed(b) && Sound(b.sched) && QueuedAreDue(b.sched.tasks, b.sched.queue, b.sched.now)
    ensures InOrderFed(Entered(b, a))
  {
    QueueStep(b.sched, a);
    FirstIsServed(b.sched, a);
    InOrderAfter(b.feed, b.served, b.sched.queue, Served(b.sched, a), Appends(b.sched, a));
  }

  /** If no queued chore is ever run directly, the queue is first in, first out. */
  lemma {:induction false} FirstInFirstOut(s: Sched, acts: seq<Action>)
    requires Sound(s) && QueuedAreDue(s.tasks, s.queue, s.now) && NoQueuedDirectRun(s, acts)
    ensures var b := Tally(s, acts);
            s.queue <= b.feed && b.served <= |b.feed| && Run(s, acts).queue == b.feed[b.served..]
  {
    if acts != [] {
      var n := |acts| - 1;
      NoneBefore(s, acts, n);
      FirstInFirstOut(s, acts[..n]);
      OneMoreInOrder(s, acts[..n], acts[n]);
      TallyIsRun(s, acts);
    }
  }

  lemma NoneBefore(s: Sched, acts: seq<Action>, n: nat)
    requires n <= |acts| && NoQueuedDirectRun(s, acts)
    ensures NoQueuedDirectRun(s, acts[..n])
  {
    forall k | 0 <= k <= n ensures acts[..n][..k] == acts[..k] {
    }
  }

  lemma OneMoreInOrder(s: Sched, before: seq<Action>, a: Action)
    requires Sound(s) && QueuedAreDue(s.tasks, s.queue, s.now) && NoQueuedDirectRun(s, before)
    requires var b := Tally(s, before);
             s.queue <= b.feed && b.served <= |b.feed| && Run(s, before).queue == b.feed[b.served..]
    ensures var b := Entered(Tally(s, before), a); s.queue <= b.feed && InOrderFed(b)
  {
    TallyIsRun(s, before);
    QueueInvariant(s, before);
    QueuedStayDue(s, before);
    EntryInOrder(Tally(s, before), a);
  }

  // ---------- when a pass is sure to serve ----------

  function TookSum(steps: nat -> StepEnv, k: nat): (t: Duration) {
    if k == 0 then 0.0 else TookSum(steps, k - 1) + steps(k - 1).took
  }

  /** The budget used up before a place is at most what the bodies before it took. */
  lemma UsedIsBounded(s: Sched, env: PassEnv, k: nat)
    requires k <= |s.tasks|
    requires forall j | 0 <= j < k :: !env.steps(j).stop
    ensures !At(s, env, k).stopped && At(s, env, k).used <= TookSum(env.steps, k)
  {
    UsedInLoop(PlanOf(s, env), Opening(s, env), OrderOf(s, env), env.steps, k);
  }

  lemma UsedInLoop(p: Plan, o: LoopState, order: seq<nat>, steps: nat -> StepEnv, k: nat)
    requires k <= |order| && Indices(o.tasks, order) && !o.stopped && o.used == 0.0
    requires forall j | 0 <= j < k :: !steps(j).stop
    ensures var w := After(p, o, order, steps, k); !w.stopped && w.used <= TookSum(steps, k)
  {
    var inv := (j: nat, w: LoopState) => !w.stopped && w.used <= TookSum(steps, j);
    forall j: nat, w: LoopState | j < k && |w.tasks| == |o.tasks| && inv(j, w)
      ensures inv(j + 1, Step(p, w, order[j], steps(j)))
    {
      StepStays(p, w, order[j], steps(j));
    }
    LoopInduction(p, o, order, steps, inv, 0, k);
  }

  /**
   A calm pass serves a foreground chore whose turn it is and that nobody else owns whenever no stop comes
   before it and the bodies ahead of it stay under the budget; how long its own body takes does not matter.
   */
  lemma ForegroundTurnIsServed(s: Sched, env: PassEnv, n: nat, i: nat, m: nat)
    requires Sound(s) && !env.pressure.Over() && TurnOf(s, env, n)
    requires i < |s.tasks| && s.tasks[i].cfg.name == s.queue[n] && m < |s.tasks| && OrderOf(s, env)[m] == i
    requires !s.tasks[i].cfg.background && s.tasks[i].cfg.name !in env.yielded
    requires forall j | 0 <= j <= m :: !env.steps(j).stop
    requires s.tasks[i].cfg.floor || TookSum(env.steps, m) < FOREGROUND_BUDGET_SEC as real
    ensures Serves(s, DoPass(env), n)
  {
    UsedIsBounded(s, env, m);
    assert ServesAt(s, env, n, i, m);
  }
}
