/**
 The lock of the chained clear (scripts/clear_trigger.py:454-468, 1000-1004) as interleaved steps of any
 number of chains on one state directory: a non-blocking flock, which the kernel drops when its holder dies.
 What each chain types is what ClearChain says of it.
 */
module ChainLock {
  import opened Common
  import opened ResumeState
  import opened ClearChain

  /** What the world has in store for one chain. */
  datatype Job = Job(disk: Disk, payload: Payload, scenario: Scenario)

  /** All it would type alone, granted the lock or refused it. */
  function Keys(job: Job, granted: bool): seq<Act> {
    var (_, _, forClear, more) := Chain(job.disk, job.payload, job.scenario.(lockFree := granted));
    forClear + more
  }

  /** A chain has not asked yet, holds the lock having done its first `done` acts, or is over. */
  datatype Stage = Fresh | Holding(done: nat) | Over

  /** What chain `p` does: ask once, act on the pane, give the lock back when it has nothing left to do, die. */
  datatype Event = Ask(p: nat) | Press(p: nat) | Finish(p: nat) | Die(p: nat)

  /** `typed` is the whole history of acts, each with its chain. */
  datatype World = World(holder: Option<nat>, stages: map<nat, Stage>, typed: seq<(nat, Act)>)

  const START_WORLD: World := World(None, map[], [])

  function StageOf(w: World, p: nat): Stage {
    if p in w.stages then w.stages[p] else Fresh
  }

  function By(p: nat, acts: seq<Act>): seq<(nat, Act)> {
    seq(|acts|, k requires 0 <= k < |acts| => (p, acts[k]))
  }

  function Step(w: World, e: Event, jobs: nat -> Job): World {
    match e
    case Ask(p) =>
      if !StageOf(w, p).Fresh? then w
      else if w.holder.None? then w.(holder := Some(p), stages := w.stages[p := Holding(0)])
      else w.(stages := w.stages[p := Over], typed := w.typed + By(p, Keys(jobs(p), false)))
    case Press(p) =>
      var s, keys := StageOf(w, p), Keys(jobs(p), true);
      if s.Holding? && s.done < |keys| then
        w.(stages := w.stages[p := Holding(s.done + 1)], typed := w.typed + [(p, keys[s.done])])
      else w
    case Finish(p) => if StageOf(w, p) == Holding(|Keys(jobs(p), true)|) then Gone(w, p) else w
    case Die(p) => Gone(w, p)
  }

  function Gone(w: World, p: nat): World {
    w.(holder := if w.holder == Some(p) then None else w.holder, stages := w.stages[p := Over])
  }

  function Run(w: World, es: seq<Event>, jobs: nat -> Job): World {
    if es == [] then w else Step(Run(w, es[..|es| - 1], jobs), es[|es| - 1], jobs)
  }

  /** What chain `p` typed. */
  function Of(typed: seq<(nat, Act)>, p: nat): seq<Act> {
    if typed == [] then []
    else
      var last := typed[|typed| - 1];
      Of(typed[..|typed| - 1], p) + if last.0 == p then [last.1] else []
  }

  lemma OfSnoc(typed: seq<(nat, Act)>, k: (nat, Act), p: nat)
    ensures Of(typed + [k], p) == Of(typed, p) + if k.0 == p then [k.1] else []
  {
    assert (typed + [k])[..|typed|] == typed;
  }

  lemma {:induction false} OfNobody(typed: seq<(nat, Act)>, p: nat)
    ensures Of(typed, p) == [] <==> forall k | 0 <= k < |typed| :: typed[k].0 != p
  {
    if typed != [] {
      OfNobody(typed[..|typed| - 1], p);
    }
  }

  // ---------- what a refused chain does ----------

  lemma RefusedTypesNothing(job: Job)
    ensures Keys(job, false) == []
  {
    NothingBeforeTheEnter(job.disk, job.payload, job.scenario.(lockFree := false));
  }

  /** So only the lock's holder ever types. */
  lemma StepTyped(w: World, e: Event, jobs: nat -> Job)
    ensures Step(w, e, jobs).typed == w.typed
            || (e.Press? && StageOf(w, e.p).Holding? && StageOf(w, e.p).done < |Keys(jobs(e.p), true)|
                && Step(w, e, jobs).typed == w.typed + [(e.p, Keys(jobs(e.p), true)[StageOf(w, e.p).done])])
  {
    if e.Ask? {
      RefusedTypesNothing(jobs(e.p));
      assert w.typed + By(e.p, []) == w.typed;
    }
  }

  // ---------- every interleaving ----------

  /** The holder, and nobody else, is past its question and not over. */
  ghost predicate HolderHolds(w: World) {
    forall p: nat :: StageOf(w, p).Holding? <==> w.holder == Some(p)
  }

  lemma StepHolds(w: World, e: Event, jobs: nat -> Job)
    requires HolderHolds(w)
    ensures HolderHolds(Step(w, e, jobs))
  {
    forall p: nat ensures StageOf(Step(w, e, jobs), p).Holding? <==> Step(w, e, jobs).holder == Some(p) {
      assert StageOf(w, p).Holding? <==> w.holder == Some(p);
      assert StageOf(w, e.p).Holding? <==> w.holder == Some(e.p);
    }
  }

  /** In every interleaving at most one chain holds the lock, and only it is at work. */
  lemma {:induction false} OneChainAtATime(es: seq<Event>, jobs: nat -> Job)
    ensures HolderHolds(Run(START_WORLD, es, jobs))
  {
    if es != [] {
      OneChainAtATime(es[..|es| - 1], jobs);
      StepHolds(Run(START_WORLD, es[..|es| - 1], jobs), es[|es| - 1], jobs);
    }
  }

  /** What a chain has typed, by its stage. */
  ghost predicate TypedSoFar(acts: seq<Act>, s: Stage, keys: seq<Act>) {
    match s
    case Fresh => acts == []
    case Holding(done) => done <= |keys| && acts == keys[..done]
    case Over => acts <= keys
  }

  ghost predicate OwnKeys(w: World, p: nat, jobs: nat -> Job) {
    TypedSoFar(Of(w.typed, p), StageOf(w, p), Keys(jobs(p), true))
  }

  lemma OthersKeep(w: World, e: Event, jobs: nat -> Job, p: nat)
    requires e.p != p
    ensures StageOf(Step(w, e, jobs), p) == StageOf(w, p) && Of(Step(w, e, jobs).typed, p) == Of(w.typed, p)
  {
    StepTyped(w, e, jobs);
    if e.Press? && Step(w, e, jobs).typed != w.typed {
      OfSnoc(w.typed, (e.p, Keys(jobs(e.p), true)[StageOf(w, e.p).done]), p);
    }
  }

  lemma PressKeepsOwnKeys(w: World, p: nat, jobs: nat -> Job)
    requires OwnKeys(w, p, jobs)
    ensures OwnKeys(Step(w, Press(p), jobs), p, jobs)
  {
    var s, keys := StageOf(w, p), Keys(jobs(p), true);
    if s.Holding? && s.done < |keys| {
      OfSnoc(w.typed, (p, keys[s.done]), p);
      assert keys[..s.done] + [keys[s.done]] == keys[..s.done + 1];
    }
  }

  lemma StepKeepsOwnKeys(w: World, e: Event, jobs: nat -> Job, p: nat)
    requires OwnKeys(w, p, jobs)
    ensures OwnKeys(Step(w, e, jobs), p, jobs)
  {
    if e.p != p {
      OthersKeep(w, e, jobs, p);
    } else if e.Press? {
      PressKeepsOwnKeys(w, p, jobs);
    } else {
      StepTyped(w, e, jobs);
    }
  }

  /** In every interleaving what a chain types is a beginning of what it would type alone, in that order. */
  lemma {:induction false} EachTypesItsOwn(es: seq<Event>, jobs: nat -> Job, p: nat)
    ensures OwnKeys(Run(START_WORLD, es, jobs), p, jobs)
    ensures Of(Run(START_WORLD, es, jobs).typed, p) <= Keys(jobs(p), true)
  {
    if es != [] {
      EachTypesItsOwn(es[..|es| - 1], jobs, p);
      StepKeepsOwnKeys(Run(START_WORLD, es[..|es| - 1], jobs), es[|es| - 1], jobs, p);
    }
  }

  /** Nobody's keys stand between two of another's. */
  ghost predicate InBlocks(typed: seq<(nat, Act)>) {
    forall a, b, c | 0 <= a < b < c < |typed| && typed[a].0 == typed[c].0 :: typed[b].0 == typed[a].0
  }

  /** A holder that has typed was the last to type. */
  ghost predicate HolderTypedLast(w: World) {
    w.holder.Some? && Of(w.typed, w.holder.value) != [] ==>
      w.typed != [] && w.typed[|w.typed| - 1].0 == w.holder.value
  }

  lemma OneMoreInBlock(typed: seq<(nat, Act)>, k: (nat, Act))
    requires InBlocks(typed)
    requires (forall a | 0 <= a < |typed| :: typed[a].0 != k.0) || (typed != [] && typed[|typed| - 1].0 == k.0)
    ensures InBlocks(typed + [k])
  {
    var all, n := typed + [k], |typed|;
    forall a, b, c | 0 <= a < b < c <= n && all[a].0 == all[c].0 ensures all[b].0 == all[a].0 {
      assert a < n && all[a] == typed[a] && all[b] == typed[b];
      if c == n && b < n - 1 {
        assert typed[n - 1].0 == typed[a].0;
      }
    }
  }

  lemma StepKeepsBlocks(w: World, e: Event, jobs: nat -> Job)
    requires HolderHolds(w) && InBlocks(w.typed) && HolderTypedLast(w)
    requires forall p: nat :: OwnKeys(w, p, jobs)
    ensures InBlocks(Step(w, e, jobs).typed) && HolderTypedLast(Step(w, e, jobs))
  {
    StepTyped(w, e, jobs);
    var t := Step(w, e, jobs);
    assert StageOf(w, e.p).Holding? <==> w.holder == Some(e.p);
    if t.typed != w.typed {
      OfNobody(w.typed, e.p);
      OneMoreInBlock(w.typed, (e.p, Keys(jobs(e.p), true)[StageOf(w, e.p).done]));
    } else if t.holder != w.holder && t.holder.Some? {
      assert OwnKeys(w, e.p, jobs);
    }
  }

  /**
   So however chains come, press and die, the panes see one chain after another: the keys of each in one
   unbroken block, and each block a beginning of the verified keys of the one that typed it.
   */
  lemma {:induction false} ChainsTakeTurns(es: seq<Event>, jobs: nat -> Job)
    ensures var w := Run(START_WORLD, es, jobs); InBlocks(w.typed) && HolderTypedLast(w)
  {
    if es != [] {
      var n := |es| - 1;
      ChainsTakeTurns(es[..n], jobs);
      OneChainAtATime(es[..n], jobs);
      forall p: nat ensures OwnKeys(Run(START_WORLD, es[..n], jobs), p, jobs) {
        EachTypesItsOwn(es[..n], jobs, p);
      }
      StepKeepsBlocks(Run(START_WORLD, es[..n], jobs), es[n], jobs);
    }
  }

  // ---------- one chain alone ----------

  /** What a chain does that nobody disturbs: it asks, does its first `n` acts, and gives the lock back. */
  function Presses(p: nat, n: nat): seq<Event> {
    if n == 0 then [] else Presses(p, n - 1) + [Press(p)]
  }

  lemma PressOnce(w: World, p: nat, jobs: nat -> Job, n: nat) returns (t: World)
    requires n < |Keys(jobs(p), true)| && StageOf(w, p) == Holding(n) && Of(w.typed, p) == Keys(jobs(p), true)[..n]
    ensures t == Step(w, Press(p), jobs) && StageOf(t, p) == Holding(n + 1) && t.holder == w.holder
    ensures Of(t.typed, p) == Keys(jobs(p), true)[..n + 1]
  {
    var keys := Keys(jobs(p), true);
    t := Step(w, Press(p), jobs);
    OfSnoc(w.typed, (p, keys[n]), p);
    assert keys[..n] + [keys[n]] == keys[..n + 1];
  }

  lemma PressesNext(w: World, p: nat, jobs: nat -> Job, n: nat, before: World, t: World)
    requires before == Run(w, Presses(p, n), jobs) && t == Step(before, Press(p), jobs)
    ensures t == Run(w, Presses(p, n + 1), jobs)
  {
    var es := Presses(p, n + 1);
    assert es[..|es| - 1] == Presses(p, n) && es[|es| - 1] == Press(p);
  }

  lemma PressesDone(w: World, p: nat, jobs: nat -> Job, n: nat) returns (t: World)
    requires StageOf(w, p) == Holding(0) && n <= |Keys(jobs(p), true)| && Of(w.typed, p) == []
    ensures t == Run(w, Presses(p, n), jobs)
    ensures StageOf(t, p) == Holding(n) && t.holder == w.holder && Of(t.typed, p) == Keys(jobs(p), true)[..n]
  {
    t := w;
    for k := 0 to n
      invariant t == Run(w, Presses(p, k), jobs)
      invariant StageOf(t, p) == Holding(k) && t.holder == w.holder && Of(t.typed, p) == Keys(jobs(p), true)[..k]
    {
      var next := PressOnce(t, p, jobs, k);
      PressesNext(w, p, jobs, k, t, next);
      t := next;
    }
  }

  lemma FinishOnlyWhenDone(w: World, p: nat, jobs: nat -> Job, n: nat)
    requires StageOf(w, p) == Holding(n) && n <= |Keys(jobs(p), true)| && w.holder == Some(p)
    ensures n == |Keys(jobs(p), true)| ==> Step(w, Finish(p), jobs).holder.None?
    ensures n < |Keys(jobs(p), true)| ==> Step(w, Finish(p), jobs) == w
  {
  }

  /**
   A chain that finds the lock free and is left to itself types all it has to, and then, but not a key earlier, the
   lock is free again.
   */
  lemma LoneChainRunsThrough(w: World, p: nat, jobs: nat -> Job, n: nat)
    requires StageOf(w, p).Fresh? && w.holder.None? && Of(w.typed, p) == [] && n <= |Keys(jobs(p), true)|
    ensures var t := Run(Step(w, Ask(p), jobs), Presses(p, n), jobs);
            && Of(t.typed, p) == Keys(jobs(p), true)[..n] && t.holder == Some(p)
            && (n == |Keys(jobs(p), true)| ==> Of(t.typed, p) == Keys(jobs(p), true) && Step(t, Finish(p), jobs).holder.None?)
            && (n < |Keys(jobs(p), true)| ==> Step(t, Finish(p), jobs) == t)
  {
    var t := PressesDone(Step(w, Ask(p), jobs), p, jobs, n);
    FinishOnlyWhenDone(t, p, jobs, n);
  }

  // ---------- a second chain ----------

  /** A chain that is over types nothing more, whatever follows. */
  lemma {:induction false} OverIsSilent(w: World, es: seq<Event>, jobs: nat -> Job, p: nat)
    requires StageOf(w, p).Over?
    ensures StageOf(Run(w, es, jobs), p).Over? && Of(Run(w, es, jobs).typed, p) == Of(w.typed, p)
  {
    if es != [] {
      var n := |es| - 1;
      OverIsSilent(w, es[..n], jobs, p);
      var m := Run(w, es[..n], jobs);
      StepTyped(m, es[n], jobs);
      if Step(m, es[n], jobs).typed != m.typed {
        OfSnoc(m.typed, (es[n].p, Keys(jobs(es[n].p), true)[StageOf(m, es[n].p).done]), p);
      }
    }
  }

  /**
   A second chain that asks while the first is pending, in whatever interleaving of whatever chains, never
   types a key: not then, and not after the first is done.
   */
  lemma SecondChainTypesNothing(before: seq<Event>, p: nat, later: seq<Event>, jobs: nat -> Job)
    requires StageOf(Run(START_WORLD, before, jobs), p).Fresh? && Run(START_WORLD, before, jobs).holder.Some?
    ensures Of(Run(START_WORLD, before + [Ask(p)] + later, jobs).typed, p) == []
  {
    EachTypesItsOwn(before, jobs, p);
    var w := Run(START_WORLD, before, jobs);
    var asked := before + [Ask(p)];
    assert asked[..|before|] == before;
    assert Run(START_WORLD, asked, jobs) == Step(w, Ask(p), jobs);
    StepTyped(w, Ask(p), jobs);
    OverIsSilent(Step(w, Ask(p), jobs), later, jobs, p);
    RunOn(START_WORLD, asked, later, jobs);
  }

  lemma {:induction false} RunOn(w: World, a: seq<Event>, b: seq<Event>, jobs: nat -> Job)
    ensures Run(w, a + b, jobs) == Run(Run(w, a, jobs), b, jobs)
  {
    if b == [] {
      assert a + b == a;
    } else {
      RunOn(w, a, b[..|b| - 1], jobs);
      assert (a + b)[..|a + b| - 1] == a + b[..|b| - 1];
    }
  }
}
