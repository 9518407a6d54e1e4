/**
 Running one workload subprocess with retries that share a single time budget (`_run_workload_once`
 and `_run_workload`, scripts/daemon.py:466-618), and why the watchdog around it never has to act.
 Spawning is instantaneous here; everything else takes the time the world says.
 */
module Workload {
  import opened Common
  import TaskRecord

  const HEARTBEAT_TICK: Positive := 10
  const REAP_SEC: nat := 5

  type Reap = d: real | 0.0 <= d <= REAP_SEC as real witness 0.0

  /** One spawn: whether it works, when its process ends by itself, how, and how long a kill takes to reap. */
  datatype Child = Child(spawns: bool, endsAfter: Option<Duration>, rc: int, reap: Reap)

  /** What came back (None for a refused spawn or a kill), when, and after how many attempts. */
  datatype Outcome = Outcome(rc: Option<int>, end: real, attempts: nat)

  /** The first of the checks at `e`, `e + tick`, ... that finds the deadline past or a stop asked for. */
  function FatalCheck(timeout: int, tick: Positive, stop: real -> bool, t0: real, e: nat): (f: nat)
    requires e <= Max(timeout, 0) + tick
    ensures e <= f <= Max(timeout, 0) + tick
    ensures f > timeout || stop(t0 + f as real)
    decreases Max(timeout, 0) + tick - e
  {
    if e > timeout || stop(t0 + e as real) then e else FatalCheck(timeout, tick, stop, t0, e + tick)
  }

  /** A process that ends by its fatal check is reported; any other is killed there, and nothing is reported. */
  function Once(timeout: int, tick: Positive, c: Child, stop: real -> bool, t0: real): (Option<int>, real) {
    if !c.spawns then (None, t0)
    else
      var fatal := FatalCheck(timeout, tick, stop, t0, tick);
      if c.endsAfter.Some? && c.endsAfter.value <= fatal as real then (Some(c.rc), t0 + c.endsAfter.value)
      else (None, t0 + fatal as real + c.reap)
  }

  /** The `n`-th check, a tick after the one before, finds the deadline past or a stop asked for. */
  predicate FatalAt(timeout: int, tick: Positive, stop: real -> bool, t0: real, n: nat) {
    n >= 1 && (n * tick > timeout || stop(t0 + (n * tick) as real))
  }

  lemma NextCheck(n: nat, tick: Positive)
    ensures (n + 1) * tick == n * tick + tick
  {
  }

  lemma {:induction false} FirstFatal(timeout: int, tick: Positive, stop: real -> bool, t0: real, m: nat, e: nat) returns (n: nat)
    requires m >= 1 && e == m * tick <= Max(timeout, 0) + tick
    ensures n >= m && FatalCheck(timeout, tick, stop, t0, e) == n * tick && FatalAt(timeout, tick, stop, t0, n)
    ensures forall k | m <= k < n :: !FatalAt(timeout, tick, stop, t0, k)
    decreases Max(timeout, 0) + tick - e
  {
    if e > timeout || stop(t0 + e as real) {
      n := m;
    } else {
      NextCheck(m, tick);
      n := FirstFatal(timeout, tick, stop, t0, m + 1, e + tick);
    }
  }

  /**
   One run, exactly: the first fatal check `n` kills a process that has not ended by then, and nothing is reported;
   any other is reported with its own code at its own end.
   */
  lemma OnceExactly(timeout: int, tick: Positive, c: Child, stop: real -> bool, t0: real) returns (n: nat)
    requires timeout >= 0
    ensures FatalAt(timeout, tick, stop, t0, n) && forall k | 1 <= k < n :: !FatalAt(timeout, tick, stop, t0, k)
    ensures Once(timeout, tick, c, stop, t0)
         == if !c.spawns then (None, t0)
            else if c.endsAfter.Some? && c.endsAfter.value <= (n * tick) as real then (Some(c.rc), t0 + c.endsAfter.value)
            else (None, t0 + (n * tick) as real + c.reap)
  {
    assert 1 * tick == tick;
    n := FirstFatal(timeout, tick, stop, t0, 1, tick);
  }

  method RunWorkloadOnce(timeout: int, tick: Positive, c: Child, stop: real -> bool, t0: real)
    returns (rc: Option<int>, end: real)
    ensures (rc, end) == Once(timeout, tick, c, stop, t0)
  {
    if !c.spawns {
      return None, t0;
    }
    var elapsed: nat := 0;
    ghost var fatal := FatalCheck(timeout, tick, stop, t0, tick);
    while true
      invariant elapsed <= Max(timeout, 0)
      invariant c.endsAfter.Some? && elapsed > 0 ==> c.endsAfter.value > elapsed as real
      invariant fatal == FatalCheck(timeout, tick, stop, t0, elapsed + tick)
      decreases Max(timeout, 0) - elapsed
    {
      if c.endsAfter.Some? && c.endsAfter.value <= (elapsed + tick) as real {
        assert c.endsAfter.value <= fatal as real;
        return Some(c.rc), t0 + c.endsAfter.value;
      }
      elapsed := elapsed + tick;
      if elapsed > timeout || stop(t0 + elapsed as real) {
        assert fatal == elapsed;
        return None, t0 + elapsed as real + c.reap;
      }
    }
  }

  /** `math.ceil` */
  function Ceil(x: real): (n: int)
    ensures n as real - 1.0 < x <= n as real
  {
    if x.Floor as real == x then x.Floor else x.Floor + 1
  }

  function Remaining(timeout: int, t0: real, now: real, k: nat): int {
    if k == 0 then timeout else Ceil(t0 + timeout as real - now)
  }

  /** The attempts from the `k`-th on, `last` being what the previous one returned. */
  function Attempts(timeout: int, tick: Positive, most: int, world: nat -> Child, stop: real -> bool,
                    t0: real, k: nat, now: real, last: Option<int>): Outcome
    decreases Max(1, most) - k
  {
    if k >= Max(1, most) || Remaining(timeout, t0, now, k) <= 0 then Outcome(last, now, k)
    else
      var (rc, end) := Once(Remaining(timeout, t0, now, k), tick, world(k), stop, now);
      if rc.None? || rc.value == 0 then Outcome(rc, end, k + 1)
      else Attempts(timeout, tick, most, world, stop, t0, k + 1, end, rc)
  }

  method RunWorkload(timeout: int, tick: Positive, most: int, world: nat -> Child, stop: real -> bool, t0: real)
    returns (o: Outcome)
    ensures o == Attempts(timeout, tick, most, world, stop, t0, 0, t0, None)
  {
    var now, rc, k := t0, None, 0;
    while k < Max(1, most)
      invariant k <= Max(1, most)
      invariant Attempts(timeout, tick, most, world, stop, t0, 0, t0, None)
             == Attempts(timeout, tick, most, world, stop, t0, k, now, rc)
    {
      var remaining := if k == 0 then timeout else Ceil(t0 + timeout as real - now);
      if remaining <= 0 {
        break;
      }
      ghost var last, t := rc, now;
      rc, now := RunWorkloadOnce(remaining, tick, world(k), stop, now);
      assert Attempts(timeout, tick, most, world, stop, t0, k, t, last)
          == if Final(rc) then Outcome(rc, now, k + 1)
             else Attempts(timeout, tick, most, world, stop, t0, k + 1, now, rc);
      k := k + 1;
      if rc.None? || rc.value == 0 {
        return Outcome(rc, now, k);
      }
    }
    return Outcome(rc, now, k);
  }

  // ---------- how long it takes ----------

  lemma OnceTakes(timeout: int, tick: Positive, c: Child, stop: real -> bool, t0: real)
    requires timeout >= 0
    ensures t0 <= Once(timeout, tick, c, stop, t0).1 <= t0 + (timeout + tick + REAP_SEC) as real
  {
  }

  lemma {:induction false} AttemptsTake(timeout: int, tick: Positive, most: int, world: nat -> Child, stop: real -> bool,
                                        t0: real, k: nat, now: real, last: Option<int>)
    requires timeout >= 0 && (k == 0 ==> now == t0)
    requires t0 <= now <= t0 + (timeout + 1 + tick + REAP_SEC) as real
    ensures var o := Attempts(timeout, tick, most, world, stop, t0, k, now, last);
            now <= o.end <= t0 + (timeout + 1 + tick + REAP_SEC) as real
    decreases Max(1, most) - k
  {
    var remaining := Remaining(timeout, t0, now, k);
    if k < Max(1, most) && remaining > 0 {
      var (rc, end) := Once(remaining, tick, world(k), stop, now);
      OnceTakes(remaining, tick, world(k), stop, now);
      assert now + remaining as real <= t0 + (timeout + 1) as real;
      if rc.Some? && rc.value != 0 {
        AttemptsTake(timeout, tick, most, world, stop, t0, k + 1, end, rc);
      }
    }
  }

  /**
   However many attempts, whatever their exit times and codes: from the first spawn to the return no
   more than the timeout, one second of rounding, one heartbeat tick and the reap.
   */
  lemma TotalTimeIsBounded(timeout: nat, tick: Positive, most: int, world: nat -> Child, stop: real -> bool, t0: real)
    ensures var o := Attempts(timeout, tick, most, world, stop, t0, 0, t0, None);
            t0 <= o.end <= t0 + (timeout + 1 + tick + REAP_SEC) as real
  {
    AttemptsTake(timeout, tick, most, world, stop, t0, 0, t0, None);
  }

  /**
   So a bulk child that runs a single workload, and gets to it within 104 seconds, is always done before the
   scheduler's watchdog, which counts the same timeout plus its grace from the spawn, can fire.
   */
  lemma InnerCapBeatsWatchdog(most: int, world: nat -> Child, stop: real -> bool, spawned: real, t0: real, now: real)
    requires spawned <= t0 <= spawned + 104.0
    requires now - spawned > (TaskRecord.WORKLOAD_TIMEOUT_SEC + TaskRecord.KILL_GRACE_SEC) as real
    ensures Attempts(TaskRecord.WORKLOAD_TIMEOUT_SEC, HEARTBEAT_TICK, most, world, stop, t0, 0, t0, None).end < now
  {
    TotalTimeIsBounded(TaskRecord.WORKLOAD_TIMEOUT_SEC, HEARTBEAT_TICK, most, world, stop, t0);
  }

  // ---------- what comes back ----------

  /** A clean exit or no result at all ends the matter. */
  predicate Final(rc: Option<int>) {
    rc.None? || rc.value == 0
  }

  lemma OnceReports(remaining: int, tick: Positive, c: Child, stop: real -> bool, now: real)
    requires remaining > 0
    ensures var (rc, end) := Once(remaining, tick, c, stop, now); rc.Some? ==> c.spawns && rc.value == c.rc
  {
  }

  lemma {:induction false} AttemptsEnd(timeout: int, tick: Positive, most: int, world: nat -> Child, stop: real -> bool,
                                       t0: real, k: nat, now: real, last: Option<int>) returns (o: Outcome)
    requires k <= Max(1, most) && (k > 0 ==> last == Some(world(k - 1).rc) && last != Some(0))
    requires k == 0 ==> timeout > 0 && now == t0
    ensures o == Attempts(timeout, tick, most, world, stop, t0, k, now, last)
    ensures 1 <= o.attempts <= Max(1, most) && k <= o.attempts
    ensures o.rc.Some? ==> o.rc.value == world(o.attempts - 1).rc
    ensures forall j | k <= j < o.attempts - 1 :: world(j).spawns && world(j).rc != 0
    ensures !Final(o.rc) ==> o.attempts == Max(1, most) || o.end >= t0 + timeout as real
    decreases Max(1, most) - k
  {
    var remaining := Remaining(timeout, t0, now, k);
    if k >= Max(1, most) || remaining <= 0 {
      o := Outcome(last, now, k);
    } else {
      OnceReports(remaining, tick, world(k), stop, now);
      var (rc, end) := Once(remaining, tick, world(k), stop, now);
      if Final(rc) {
        o := Outcome(rc, end, k + 1);
      } else {
        o := AttemptsEnd(timeout, tick, most, world, stop, t0, k + 1, end, rc);
      }
    }
  }

  /**
   With any budget at all something is tried; only a non-zero exit is ever retried; the answer is the
   last attempt's; and a non-zero answer is never returned while an attempt and any time were left.
   */
  lemma RetriesOnlyFailures(timeout: int, tick: Positive, most: int, world: nat -> Child, stop: real -> bool, t0: real)
    requires timeout > 0
    ensures var o := Attempts(timeout, tick, most, world, stop, t0, 0, t0, None);
            && 1 <= o.attempts <= Max(1, most)
            && (o.rc.Some? ==> o.rc.value == world(o.attempts - 1).rc)
            && (forall j | 0 <= j < o.attempts - 1 :: world(j).spawns && world(j).rc != 0)
            && (!Final(o.rc) ==> o.attempts == Max(1, most) || o.end >= t0 + timeout as real)
  {
    var o := AttemptsEnd(timeout, tick, most, world, stop, t0, 0, t0, None);
  }
}
