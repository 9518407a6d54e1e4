/**
 One periodic chore of the daemon (`Task`, scripts/daemon.py:3161-3398): the cadence stamp, the
 consecutive-failure streak with its quarantine penalty, and the handle of a detached child.
 */
module TaskRecord {
  import opened Common

  const BACKOFF_AFTER_FAILS: nat := 3
  const MAX_BACKOFF_SEC: nat := 3600
  const WORKLOAD_TIMEOUT_SEC: nat := 1800
  const KILL_GRACE_SEC: nat := 120

  /** `_BULK_RECHECK_SEC`, an operator's knob: the source clamps whatever was set to at least 1. */
  const BULK_RECHECK_SEC: Positive

  /** `floor` is membership of the name in `_FOREGROUND_FLOOR`. */
  datatype Config = Config(name: string, interval: nat, background: bool, ownThread: bool,
                           exempt: bool, floor: bool)

  /** `rc` is what `Popen.poll()` reports: None for as long as the process runs. */
  datatype Child = Child(t0: real, rc: Option<int>)

  datatype TaskState = TaskState(cfg: Config, lastRun: int, fails: nat, child: Option<Child>) {
    predicate ChildAlive() {
      child.Some? && child.value.rc.None?
    }
  }

  /** Everything that stamps a task: the end of a body, the reap of a child, a refused spawn. */
  datatype Outcome = BodyOk | BodyFailed | ReapedOk | ReapedFailed | SpawnFailed {
    predicate Failure() {
      BodyFailed? || ReapedFailed? || SpawnFailed?
    }
  }

  function Pow2(n: nat): (p: nat)
    ensures p >= 1
  {
    if n == 0 then 1 else 2 * Pow2(n - 1)
  }

  function Penalty(interval: nat, fails: nat): nat {
    if fails < BACKOFF_AFTER_FAILS then 0
    else Min(interval * Pow2(Min(fails - BACKOFF_AFTER_FAILS, 16)), MAX_BACKOFF_SEC)
  }

  function TimeUntilDue(t: TaskState, now: real): nat {
    if t.child.Some? then BULK_RECHECK_SEC
    else Max(0, t.lastRun + t.cfg.interval + Penalty(t.cfg.interval, t.fails) - now.Floor)
  }

  predicate Due(t: TaskState, now: real) {
    TimeUntilDue(t, now) == 0
  }

  function Record(t: TaskState, o: Outcome, now: real): TaskState {
    t.(lastRun := now.Floor,
       fails := if o.Failure() then t.fails + 1 else 0,
       child := if o.BodyOk? || o.BodyFailed? then t.child else None)
  }

  /** The human is pushed exactly when a body or a reap (never a refused spawn) completes the streak. */
  predicate Pushes(t: TaskState, o: Outcome) {
    (o.BodyFailed? || o.ReapedFailed?) && t.fails + 1 == BACKOFF_AFTER_FAILS
  }

  function Reap(t: TaskState, now: real): TaskState {
    if t.child.Some? && t.child.value.rc.Some?
    then Record(t, if t.child.value.rc.value == 0 then ReapedOk else ReapedFailed, now)
    else t
  }

  function Spawn(t: TaskState, ok: bool, now: real): TaskState {
    if ok then t.(child := Some(Child(now, None))) else Record(t, SpawnFailed, now)
  }

  class Task {
    const cfg: Config
    var lastRun: int
    var failcount: nat
    var child: Option<Child>
    /** Quarantine pushes sent and SIGKILLs issued: what the outside world saw. */
    var pushed: nat
    var kills: nat

    function State(): TaskState
      reads this
    {
      TaskState(cfg, lastRun, failcount, child)
    }

    constructor (cfg: Config, lastRun: int, failcount: nat)
      ensures this.cfg == cfg && State() == TaskState(cfg, lastRun, failcount, None)
      ensures pushed == 0 && kills == 0
    {
      this.cfg := cfg;
      this.lastRun, this.failcount, this.child := lastRun, failcount, None;
      pushed, kills := 0, 0;
    }

    method NotifyQuarantine(fails: nat)
      modifies this`pushed
      ensures pushed == old(pushed) + if fails == BACKOFF_AFTER_FAILS then 1 else 0
    {
      if fails != BACKOFF_AFTER_FAILS {
        return;
      }
      pushed := pushed + 1;
    }

    /** `took` and `failed` are the body's doing; `start` is the clock when the run begins. */
    method Run(start: real, took: Duration, failed: bool) returns (elapsed: Duration)
      modifies this
      ensures old(State()).ChildAlive() ==>
                elapsed == 0.0 && State() == old(State()) && pushed == old(pushed)
      ensures !old(State()).ChildAlive() ==>
                var o := if failed then BodyFailed else BodyOk;
                && elapsed == took
                && State() == Record(old(State()), o, start + took)
                && pushed == old(pushed) + if Pushes(old(State()), o) then 1 else 0
      ensures kills == old(kills)
    {
      if child.Some? && child.value.rc.None? {
        return 0.0;
      }
      elapsed := took;
      lastRun := (start + elapsed).Floor;
      if failed {
        var fails := failcount + 1;
        failcount := fails;
        NotifyQuarantine(fails);
      } else if failcount != 0 {
        failcount := 0;
      }
    }

    method SpawnBackground(now: real, ok: bool)
      requires child.None?
      modifies this
      ensures State() == Spawn(old(State()), ok, now)
      ensures pushed == old(pushed) && kills == old(kills)
    {
      if ok {
        child := Some(Child(now, None));
      } else {
        child := None;
        lastRun := now.Floor;
        failcount := failcount + 1;
      }
    }

    /** Reaps a finished child; one past the workload cap plus grace is hard-killed, to be reaped later. */
    method PollBackground(now: real)
      modifies this
      ensures State() == Reap(old(State()), now)
      ensures var was := old(State());
              && pushed == old(pushed)
                   + (if was.child.Some? && was.child.value.rc.Some? && was.child.value.rc.value != 0
                         && Pushes(was, ReapedFailed) then 1 else 0)
              && kills == old(kills)
                   + (if was.ChildAlive()
                         && now - was.child.value.t0 > (WORKLOAD_TIMEOUT_SEC + KILL_GRACE_SEC) as real
                      then 1 else 0)
    {
      if child.None? {
        return;
      }
      var rc := child.value.rc;
      if rc.None? {
        if now - child.value.t0 > (WORKLOAD_TIMEOUT_SEC + KILL_GRACE_SEC) as real {
          kills := kills + 1;
        }
        return;
      }
      child := None;
      lastRun := now.Floor;
      if rc.value != 0 {
        var fails := failcount + 1;
        failcount := fails;
        NotifyQuarantine(fails);
      } else if failcount != 0 {
        failcount := 0;
      }
    }
  }

  // ---------- the penalty ----------

  lemma {:induction false} Pow2Monotone(m: nat, n: nat)
    requires m <= n
    ensures Pow2(m) <= Pow2(n)
  {
    if m < n {
      Pow2Monotone(m, n - 1);
    }
  }

  lemma ProductMonotone(a: nat, x: nat, y: nat)
    requires x <= y
    ensures a * x <= a * y
  {
  }

  lemma PenaltyMonotone(interval: nat, f: nat, g: nat)
    requires f <= g
    ensures Penalty(interval, f) <= Penalty(interval, g) <= MAX_BACKOFF_SEC
  {
    if f >= BACKOFF_AFTER_FAILS {
      var m, n := Min(f - BACKOFF_AFTER_FAILS, 16), Min(g - BACKOFF_AFTER_FAILS, 16);
      Pow2Monotone(m, n);
      ProductMonotone(interval, Pow2(m), Pow2(n));
    }
  }

  /**
   A task without a child in flight is due exactly from one moment on: its stamp plus its cadence
   plus the penalty. However long the streak, that moment is within an hour of the plain cadence.
   */
  lemma DueWithinAnHourOfCadence(t: TaskState, now: real)
    requires t.child.None?
    ensures Due(t, now) <==> now.Floor >= t.lastRun + t.cfg.interval + Penalty(t.cfg.interval, t.fails)
    ensures now.Floor >= t.lastRun + t.cfg.interval + MAX_BACKOFF_SEC ==> Due(t, now)
    ensures Due(t, now) ==> now.Floor >= t.lastRun + t.cfg.interval
  {
    PenaltyMonotone(t.cfg.interval, t.fails, t.fails);
  }

  /** The penalty itself: none up to the second failure, then the cadence, doubled with each failure, an hour at most. */
  lemma PenaltyExactly(interval: nat, f: nat)
    ensures f <= 2 ==> Penalty(interval, f) == 0
    ensures Penalty(interval, 3) == if interval < 3600 then interval else 3600
    ensures 3 <= f < 19 ==>
              Penalty(interval, f + 1) == if 2 * Penalty(interval, f) < 3600 then 2 * Penalty(interval, f) else 3600
    ensures f >= 19 ==> Penalty(interval, f + 1) == Penalty(interval, f)
  {
    assert Pow2(0) == 1;
    if 3 <= f < 19 {
      Doubling(interval, f - 3);
    }
  }

  lemma Doubling(interval: nat, n: nat)
    ensures interval * Pow2(n + 1) == 2 * (interval * Pow2(n))
  {
    assert Pow2(n + 1) == 2 * Pow2(n);
  }

  /** A childless chore becomes due after exactly the seconds it is said to have left, and not one earlier. */
  lemma DueAfterExactly(t: TaskState, now: real, wait: nat)
    requires t.child.None?
    ensures Due(t, now + wait as real) <==> wait >= TimeUntilDue(t, now)
  {
    assert (now + wait as real).Floor == now.Floor + wait;
  }

  /** One whose child is in flight is looked at again after the recheck beat, and never due. */
  lemma ChildIsRechecked(t: TaskState, now: real)
    requires t.child.Some?
    ensures TimeUntilDue(t, now) == BULK_RECHECK_SEC && !Due(t, now)
  {
  }

  lemma DueStaysDue(t: TaskState, now: real, later: real)
    requires Due(t, now) && now <= later
    ensures t.child.None? && Due(t, later)
  {
  }

  // ---------- streaks over whole histories ----------

  /** The failcount file after a history of outcomes, starting from a clean file. */
  function Streak(h: seq<Outcome>): nat {
    if h == [] then 0
    else if h[|h| - 1].Failure() then Streak(h[..|h| - 1]) + 1 else 0
  }

  /** The quarantine pushes sent over a history of outcomes. */
  function PushCount(h: seq<Outcome>): nat {
    if h == [] then 0
    else
      var last := h[|h| - 1];
      PushCount(h[..|h| - 1])
      + (if !last.SpawnFailed? && last.Failure() && Streak(h[..|h| - 1]) + 1 == BACKOFF_AFTER_FAILS
         then 1 else 0)
  }

  /** Replaying the real bookkeeping over a history yields the two counts above. */
  function Replay(t: TaskState, pushed: nat, h: seq<Outcome>, times: seq<real>): (TaskState, nat)
    requires |times| == |h|
  {
    if h == [] then (t, pushed)
    else
      var n := |h| - 1;
      var (before, sent) := Replay(t, pushed, h[..n], times[..n]);
      (Record(before, h[n], times[n]), sent + if Pushes(before, h[n]) then 1 else 0)
  }

  lemma {:induction false} ReplayCounts(t: TaskState, h: seq<Outcome>, times: seq<real>)
    requires |times| == |h| && t.fails == 0
    ensures Replay(t, 0, h, times).0.fails == Streak(h)
    ensures Replay(t, 0, h, times).1 == PushCount(h)
  {
    if h != [] {
      ReplayCounts(t, h[..|h| - 1], times[..|h| - 1]);
    }
  }

  /** The failcount is the length of the trailing run of failures, whatever came before. */
  lemma {:induction false} StreakIsTrailingRun(h: seq<Outcome>)
    ensures Streak(h) <= |h|
    ensures forall i | |h| - Streak(h) <= i < |h| :: h[i].Failure()
    ensures Streak(h) < |h| ==> !h[|h| - Streak(h) - 1].Failure()
  {
    if h != [] {
      var g := h[..|h| - 1];
      StreakIsTrailingRun(g);
      assert forall i | 0 <= i < |g| :: g[i] == h[i];
    }
  }

  /** Position `i` is the K-th failure of its streak. */
  predicate EntersQuarantine(h: seq<Outcome>, i: nat) {
    && BACKOFF_AFTER_FAILS - 1 <= i < |h|
    && (forall j | i - BACKOFF_AFTER_FAILS < j <= i :: h[j].Failure())
    && (i >= BACKOFF_AFTER_FAILS ==> !h[i - BACKOFF_AFTER_FAILS].Failure())
  }

  ghost function PushedEntries(h: seq<Outcome>): set<nat> {
    set i: nat | i < |h| && EntersQuarantine(h, i) && !h[i].SpawnFailed?
  }

  /** The last outcome completes a streak of K exactly when the ones before it left a streak of K - 1. */
  /** The last two of `g` failed, and the one before them, if there is one, did not. */
  predicate TwoAtTheEnd(g: seq<Outcome>) {
    && |g| >= 2 && g[|g| - 1].Failure() && g[|g| - 2].Failure()
    && (|g| >= 3 ==> !g[|g| - 3].Failure())
  }

  lemma StreakIsTwo(g: seq<Outcome>)
    ensures Streak(g) == BACKOFF_AFTER_FAILS - 1 <==> TwoAtTheEnd(g)
  {
    StreakIsTrailingRun(g);
  }

  lemma EntersAfterTwo(g: seq<Outcome>, last: Outcome)
    ensures EntersQuarantine(g + [last], |g|) <==> last.Failure() && TwoAtTheEnd(g)
  {
    var h := g + [last];
    assert h[|g|] == last && forall j | 0 <= j < |g| :: h[j] == g[j];
    if last.Failure() && TwoAtTheEnd(g) {
      forall j | |g| - BACKOFF_AFTER_FAILS < j <= |g| ensures h[j].Failure() {
        assert j == |g| || j == |g| - 1 || j == |g| - 2;
      }
    }
    if EntersQuarantine(h, |g|) {
      assert h[|g|].Failure() && h[|g| - 1].Failure() && h[|g| - 2].Failure();
    }
  }

  /** The last outcome completes a streak of K exactly when the ones before it left a streak of K - 1. */
  lemma EntersAtTheEnd(g: seq<Outcome>, last: Outcome)
    ensures EntersQuarantine(g + [last], |g|) <==> last.Failure() && Streak(g) + 1 == BACKOFF_AFTER_FAILS
  {
    StreakIsTwo(g);
    EntersAfterTwo(g, last);
  }

  lemma PushedEntriesGrow(g: seq<Outcome>, last: Outcome)
    ensures var h := g + [last];
            PushedEntries(h)
            == PushedEntries(g) + if EntersQuarantine(h, |g|) && !last.SpawnFailed? then {|g|} else {}
  {
    var h := g + [last];
    assert forall j | 0 <= j < |g| :: h[j] == g[j];
    assert forall i: nat | i < |g| :: EntersQuarantine(h, i) <==> EntersQuarantine(g, i);
  }

  /**
   One push per streak whose K-th failure was a body or a reap; a streak that enters quarantine on a
   refused spawn is never announced, although the notification promises one push per streak.
   */
  lemma {:induction false} PushesCountAnnouncedStreaks(h: seq<Outcome>)
    ensures PushCount(h) == |PushedEntries(h)|
  {
    if h == [] {
      assert PushedEntries(h) == {};
    } else {
      var g, last := h[..|h| - 1], h[|h| - 1];
      assert h == g + [last];
      PushesCountAnnouncedStreaks(g);
      EntersAtTheEnd(g, last);
      PushedEntriesGrow(g, last);
      assert |g| !in PushedEntries(g);
    }
  }

  /** The gap is real: three refused spawns in a row quarantine a task without a word. */
  lemma SilentQuarantine()
    ensures var h := [SpawnFailed, SpawnFailed, SpawnFailed];
            EntersQuarantine(h, 2) && Streak(h) == BACKOFF_AFTER_FAILS && PushCount(h) == 0
  {
    var h := [SpawnFailed, SpawnFailed, SpawnFailed];
    assert h[..1] == [SpawnFailed] && h[..1][..0] == [] && h[..2][..1] == h[..1];
    assert Streak(h[..1]) == 1;
    assert Streak(h[..2]) == 2;
    PushesCountAnnouncedStreaks(h);
    assert PushedEntries(h) == {};
  }
}
