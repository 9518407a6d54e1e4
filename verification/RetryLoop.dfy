/**
 Bounded retries on transient failures (`run_with_retry` and `is_transient_subprocess_error`,
 scripts/cpv_network_resilience.py:107-124, 193-278).
 */
module RetryLoop {
  import opened Common

  /** One attempt: the per-attempt timeout struck, or the process ended. */
  datatype Attempt = TimedOut | Ended(rc: int, transient: bool)

  datatype Result = BadBudget
                  | Returned(attempt: nat)
                  | RaisedFailure(attempt: nat)
                  | RaisedTimeout

  predicate Success(a: Attempt) {
    a.Ended? && a.rc == 0
  }

  /** A failure no retry can mend. */
  predicate Permanent(a: Attempt) {
    a.Ended? && a.rc != 0 && !a.transient
  }

  predicate Retryable(a: Attempt) {
    !Success(a) && !Permanent(a)
  }

  /** What the last attempt made, whatever went before, turns into. */
  function Verdict(a: Attempt, k: nat, check: bool): Result {
    if a.TimedOut? then RaisedTimeout
    else if a.rc != 0 && check then RaisedFailure(k)
    else Returned(k)
  }

  /** The first attempt from `k` on that is not retried, or the last one allowed. */
  function LastAttempt(world: nat -> Attempt, most: nat, k: nat): (n: nat)
    requires k < most
    ensures k <= n < most
    ensures forall j | k <= j < n :: Retryable(world(j))
    ensures n < most - 1 ==> !Retryable(world(n))
    decreases most - k
  {
    if k == most - 1 || !Retryable(world(k)) then k else LastAttempt(world, most, k + 1)
  }

  method RunWithRetry(world: nat -> Attempt, most: int, check: bool) returns (r: Result, runs: nat, sleeps: nat)
    ensures most < 1 ==> r == BadBudget && runs == 0 && sleeps == 0
    ensures most >= 1 ==>
              && runs == LastAttempt(world, most, 0) + 1
              && sleeps == runs - 1
              && r == Verdict(world(runs - 1), runs - 1, check)
              && (forall j | 0 <= j < runs - 1 ::
                    world(j).TimedOut? || (world(j).Ended? && world(j).rc != 0 && world(j).transient))
              && (runs < most ==> world(runs - 1).Ended? && (world(runs - 1).rc == 0 || !world(runs - 1).transient))
              && (r.RaisedTimeout? <==> world(runs - 1).TimedOut?)
              && (r == RaisedFailure(runs - 1) <==> world(runs - 1).Ended? && world(runs - 1).rc != 0 && check)
              && (r == Returned(runs - 1) <==> world(runs - 1).Ended? && (world(runs - 1).rc == 0 || !check))
  {
    runs, sleeps := 0, 0;
    if most < 1 {
      return BadBudget, 0, 0;
    }
    var last: Option<nat> := None;
    var attempt := 1;
    while attempt <= most
      invariant 1 <= attempt <= most + 1
      invariant runs == attempt - 1
      invariant attempt <= most ==> sleeps == runs && LastAttempt(world, most, 0) == LastAttempt(world, most, attempt - 1)
      invariant attempt == most + 1 ==>
          && sleeps == runs - 1 && LastAttempt(world, most, 0) == most - 1
          && last == Some(most - 1) && world(most - 1).Ended? && world(most - 1).rc != 0
    {
      var a := world(attempt - 1);
      runs := runs + 1;
      match a
      case TimedOut =>
        if attempt < most {
          sleeps := sleeps + 1;
          attempt := attempt + 1;
          continue;
        }
        return RaisedTimeout, runs, sleeps;
      case Ended(rc, transient) =>
        if rc == 0 {
          return Returned(attempt - 1), runs, sleeps;
        }
        last := Some(attempt - 1);
        if !transient {
          break;
        }
        if attempt < most {
          sleeps := sleeps + 1;
        }
        attempt := attempt + 1;
    }
    // The source's trailing AssertionError: the loop never ends without a result in hand.
    assert last.Some?;
    r := if check then RaisedFailure(last.value) else Returned(last.value);
  }

  lemma {:induction false} LastAttemptIs(world: nat -> Attempt, most: nat, from: nat, k: nat)
    requires from <= k < most && !Retryable(world(k)) && forall j | from <= j < k :: Retryable(world(j))
    ensures LastAttempt(world, most, from) == k
    decreases k - from
  {
    if from < k {
      LastAttemptIs(world, most, from + 1, k);
    }
  }

  /**
   The result is a success exactly when some attempt within the budget succeeds before any permanent
   failure, and then it is the first success.
   */
  lemma FirstSuccessWins(world: nat -> Attempt, most: nat, check: bool, k: nat)
    requires most >= 1
    ensures var n := LastAttempt(world, most, 0);
            (Success(world(n)) && n == k)
            <==> k < most && Success(world(k)) && forall j | 0 <= j < k :: Retryable(world(j))
    ensures Success(world(k)) ==> Verdict(world(k), k, check) == Returned(k)
  {
    var n := LastAttempt(world, most, 0);
    if k < most && Success(world(k)) && (forall j | 0 <= j < k :: Retryable(world(j))) {
      LastAttemptIs(world, most, 0, k);
    }
  }

  /** A timeout gets out exactly when every attempt was retryable and the last of the budget timed out. */
  lemma TimeoutPropagates(world: nat -> Attempt, most: nat, check: bool)
    requires most >= 1
    ensures var n := LastAttempt(world, most, 0);
            Verdict(world(n), n, check).RaisedTimeout?
            <==> world(most - 1).TimedOut? && forall j | 0 <= j < most :: Retryable(world(j))
  {
    var n := LastAttempt(world, most, 0);
    if forall j | 0 <= j < most :: Retryable(world(j)) {
      assert n == most - 1;
    }
  }

  // ---------- transient or permanent ----------

  predicate AnyMatches(patterns: seq<string -> bool>, stderr: string) {
    exists k | 0 <= k < |patterns| :: patterns[k](stderr)
  }

  /** A permanent match always beats a transient one, wherever either stands. */
  method IsTransient(stderr: string, rc: int, permanent: seq<string -> bool>, transient: seq<string -> bool>)
    returns (r: bool)
    ensures r <==> rc != 0 && stderr != "" && !AnyMatches(permanent, stderr) && AnyMatches(transient, stderr)
  {
    if rc == 0 {
      return false;
    }
    if stderr == "" {
      return false;
    }
    for k := 0 to |permanent|
      invariant forall j | 0 <= j < k :: !permanent[j](stderr)
    {
      if permanent[k](stderr) {
        return false;
      }
    }
    for k := 0 to |transient|
      invariant forall j | 0 <= j < k :: !transient[j](stderr)
    {
      if transient[k](stderr) {
        return true;
      }
    }
    return false;
  }
}
