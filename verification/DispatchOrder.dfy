/**
 The order in which one due-pass visits the tasks, and the choice of the bulk task
 (scripts/daemon.py:3671-3695, 4033-4035): floor tasks first, then least recently run; ties keep
 the registration order. Tasks are named by their index in the registry.
 */
module DispatchOrder {
  import opened Common
  import opened TaskRecord

  /** Strict: `i` is visited before `j`. */
  predicate Before(ts: seq<TaskState>, i: nat, j: nat)
    requires i < |ts| && j < |ts|
  {
    if ts[i].cfg.floor != ts[j].cfg.floor then ts[i].cfg.floor
    else if ts[i].lastRun != ts[j].lastRun then ts[i].lastRun < ts[j].lastRun
    else i < j
  }

  ghost predicate Indices(ts: seq<TaskState>, order: seq<nat>) {
    forall a | 0 <= a < |order| :: order[a] < |ts|
  }

  ghost predicate InOrder(ts: seq<TaskState>, order: seq<nat>)
    requires Indices(ts, order)
  {
    forall a, b | 0 <= a < b < |order| :: Before(ts, order[a], order[b])
  }

  function Insert(ts: seq<TaskState>, order: seq<nat>, i: nat): (r: seq<nat>)
    requires Indices(ts, order) && i < |ts| && i !in order
    requires InOrder(ts, order)
    ensures |r| == |order| + 1 && Indices(ts, r) && InOrder(ts, r)
    ensures forall j :: j in r <==> j == i || j in order
  {
    if order == [] then [i]
    else if Before(ts, i, order[0]) then [i] + order
    else
      var rest := Insert(ts, order[1..], i);
      assert forall b | 0 <= b < |rest| :: Before(ts, order[0], rest[b]) by {
        forall b | 0 <= b < |rest| ensures Before(ts, order[0], rest[b]) {
          assert rest[b] in rest;
          if rest[b] != i {
            var c :| 0 <= c < |order[1..]| && order[1..][c] == rest[b];
            assert order[c + 1] == rest[b];
          }
        }
      }
      [order[0]] + rest
  }

  /** `sorted(tasks, key=(not floor, last run))`: Python's sort is stable. */
  function Order(ts: seq<TaskState>, n: nat): (r: seq<nat>)
    requires n <= |ts|
    ensures |r| == n && Indices(ts, r) && InOrder(ts, r)
    ensures forall j: nat :: j in r <==> j < n
  {
    if n == 0 then [] else Insert(ts, Order(ts, n - 1), n - 1)
  }

  /** Every task has one place in the order. */
  lemma PlaceOf(ts: seq<TaskState>, i: nat) returns (k: nat)
    requires i < |ts|
    ensures k < |ts| && Order(ts, |ts|)[k] == i
  {
    assert i in Order(ts, |ts|);
    k :| 0 <= k < |ts| && Order(ts, |ts|)[k] == i;
  }

  /** Floor chores first, then the longest not run, then as registered. */
  lemma OrderExactly(ts: seq<TaskState>, a: nat, b: nat)
    requires a < b < |ts|
    ensures var i, j := Order(ts, |ts|)[a], Order(ts, |ts|)[b];
            && (ts[j].cfg.floor ==> ts[i].cfg.floor)
            && (ts[i].cfg.floor == ts[j].cfg.floor ==> ts[i].lastRun <= ts[j].lastRun)
            && (ts[i].cfg.floor == ts[j].cfg.floor && ts[i].lastRun == ts[j].lastRun ==> i < j)
  {
    assert Before(ts, Order(ts, |ts|)[a], Order(ts, |ts|)[b]);
  }

  // ---------- the bulk lane's candidate ----------

  predicate BulkCandidate(t: TaskState, yielded: set<string>, now: real) {
    t.cfg.background && t.cfg.name !in yielded && Due(t, now)
  }

  /** `min(due, key=last_run)` over the first `n` tasks: the first minimal one wins. */
  function BulkNext(ts: seq<TaskState>, yielded: set<string>, now: real, n: nat): (r: Option<nat>)
    requires n <= |ts|
    ensures r.Some? ==> r.value < n && BulkCandidate(ts[r.value], yielded, now)
    ensures r.Some? ==> forall j | 0 <= j < n && BulkCandidate(ts[j], yielded, now) ::
                          ts[r.value].lastRun < ts[j].lastRun
                          || (ts[r.value].lastRun == ts[j].lastRun && r.value <= j)
    ensures r.None? ==> forall j | 0 <= j < n :: !BulkCandidate(ts[j], yielded, now)
  {
    if n == 0 then None
    else
      var best := BulkNext(ts, yielded, now, n - 1);
      if BulkCandidate(ts[n - 1], yielded, now)
         && (best.None? || ts[n - 1].lastRun < ts[best.value].lastRun)
      then Some(n - 1)
      else best
  }
}
