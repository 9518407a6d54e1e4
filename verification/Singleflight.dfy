/**
 The per-root singleflight lock of the external clear (scripts/external_handoff_clear.py:702-726):
 an O_CREAT|O_EXCL file, taken over when stale, as the interleaved steps of any number of processes.
 */
module Singleflight {
  import opened Common

  /** The summary deadline plus ten minutes. */
  const STALE_AFTER: nat

  datatype Lock = Lock(owner: nat, mtime: int)

  /**
   Where one process stands. `start` is the clock it read on entry, `round` which of its two tries this
   is, `seen` the lock its stat examined (None when the stat failed).
   */
  datatype Pc = Trying(start: int, round: nat)
              | Blocked(start: int, round: nat)
              | TakingOver(start: int, round: nat, seen: Option<Lock>)
              | Inside(start: int)
              | Gone

  datatype World = World(lock: Option<Lock>, pcs: map<nat, Pc>, clock: int)

  /** One atomic step of one process, or the clock. `Die` may strike anywhere and releases nothing. */
  datatype Event = Enter(p: nat) | Open(p: nat) | Stat(p: nat, ok: bool) | Unlink(p: nat)
                 | Leave(p: nat) | Die(p: nat) | Tick(d: nat)

  function HeldFor(lock: Option<Lock>, ok: bool, start: int): int {
    if lock.Some? && ok then start - lock.value.mtime else STALE_AFTER + 1
  }

  function Move(w: World, p: nat, pc: Pc): World {
    w.(pcs := w.pcs[p := pc])
  }

  function Step(w: World, e: Event): World {
    match e
    case Tick(d) => w.(clock := w.clock + d)
    case Enter(p) => if p !in w.pcs then Move(w, p, Trying(w.clock, 0)) else w
    case Open(p) =>
      if p !in w.pcs || !w.pcs[p].Trying? then w
      else if w.lock.None? then Move(w, p, Inside(w.pcs[p].start)).(lock := Some(Lock(p, w.clock)))
      else Move(w, p, Blocked(w.pcs[p].start, w.pcs[p].round))
    case Stat(p, ok) =>
      if p !in w.pcs || !w.pcs[p].Blocked? then w
      else
        var (start, round) := (w.pcs[p].start, w.pcs[p].round);
        if HeldFor(w.lock, ok, start) <= STALE_AFTER then Move(w, p, Gone)
        else Move(w, p, TakingOver(start, round, if ok then w.lock else None))
    case Unlink(p) =>
      if p !in w.pcs || !w.pcs[p].TakingOver? then w
      else
        var (start, round) := (w.pcs[p].start, w.pcs[p].round);
        Move(w, p, if round == 0 then Trying(start, 1) else Gone).(lock := None)
    case Leave(p) => if p in w.pcs && w.pcs[p].Inside? then Move(w, p, Gone).(lock := None) else w
    case Die(p) => if p in w.pcs then Move(w, p, Gone) else w
  }

  function Run(w: World, es: seq<Event>): World {
    if es == [] then w else Step(Run(w, es[..|es| - 1]), es[|es| - 1])
  }

  predicate Holds(w: World, p: nat) {
    p in w.pcs && w.pcs[p].Inside?
  }

  ghost predicate MutualExclusion(w: World) {
    forall p, q | Holds(w, p) && Holds(w, q) :: p == q
  }

  /** Whoever is inside owns the file. */
  ghost predicate OwnsFile(w: World) {
    forall p | Holds(w, p) :: w.lock.Some? && w.lock.value.owner == p
  }

  /** A takeover that removes the file of a process still inside. */
  predicate Robs(w: World, e: Event) {
    e.Unlink? && e.p in w.pcs && w.pcs[e.p].TakingOver? && w.lock.Some? && Holds(w, w.lock.value.owner)
  }

  lemma StepOwns(w: World, e: Event)
    requires OwnsFile(w) && !Robs(w, e)
    ensures OwnsFile(Step(w, e))
  {
    var w' := Step(w, e);
    forall q | Holds(w', q) ensures w'.lock.Some? && w'.lock.value.owner == q {
      match e
      case Open(p) => assert q == p || Holds(w, q);
      case Unlink(p) => assert Holds(w, q);
      case Leave(p) => assert Holds(w, q) && (Holds(w, p) ==> p == q);
      case Stat(_, _) => assert Holds(w, q);
      case Enter(_) => assert Holds(w, q);
      case Die(_) => assert Holds(w, q);
      case Tick(_) => assert Holds(w, q);
    }
  }

  /**
   Any number of processes, any interleaving, any deaths and failing stats: at most one is inside,
   as long as no takeover removes the file of a process that is.
   */
  lemma {:induction false} AtMostOneInside(w: World, es: seq<Event>)
    requires OwnsFile(w)
    requires forall n | 0 <= n < |es| :: !Robs(Run(w, es[..n]), es[n])
    ensures OwnsFile(Run(w, es)) && MutualExclusion(Run(w, es))
  {
    if es != [] {
      var n := |es| - 1;
      var before := es[..n];
      forall k | 0 <= k < n ensures !Robs(Run(w, before[..k]), before[k]) {
        assert es[..k] == before[..k] && es[k] == before[k];
      }
      AtMostOneInside(w, before);
      StepOwns(Run(w, before), es[n]);
    }
  }

  /** The condition is needed: a robber in its first try gets in beside its victim. */
  lemma RobberyBreaks(w: World, p: nat)
    requires OwnsFile(w) && Robs(w, Unlink(p)) && w.pcs[p].round == 0
    ensures var v := w.lock.value.owner;
            var w' := Step(Step(w, Unlink(p)), Open(p));
            v != p && Holds(w', v) && Holds(w', p) && !MutualExclusion(w')
  {
    var w' := Step(Step(w, Unlink(p)), Open(p));
    assert Holds(w', w.lock.value.owner) && Holds(w', p);
  }

  /** So does a robber in its last try: it leaves, but the next one to come finds no file. */
  lemma RobberyLetsNextIn(w: World, p: nat, q: nat)
    requires OwnsFile(w) && Robs(w, Unlink(p)) && q !in w.pcs
    ensures var v := w.lock.value.owner;
            var w' := Step(Step(Step(w, Unlink(p)), Enter(q)), Open(q));
            v != q && Holds(w', v) && Holds(w', q) && !MutualExclusion(w')
  {
    var w' := Step(Step(Step(w, Unlink(p)), Enter(q)), Open(q));
    assert Holds(w', w.lock.value.owner) && Holds(w', q);
  }

  // ---------- how a robbery comes about ----------

  /** Every takeover follows a failed stat, or a lock that was past the limit when it was examined. */
  ghost predicate TakeoversJustified(w: World) {
    forall p | p in w.pcs && w.pcs[p].TakingOver? && w.pcs[p].seen.Some? ::
      w.pcs[p].start - w.pcs[p].seen.value.mtime > STALE_AFTER
  }

  lemma {:induction false} TakeoversStayJustified(w: World, es: seq<Event>)
    requires TakeoversJustified(w)
    ensures TakeoversJustified(Run(w, es))
  {
    if es != [] {
      TakeoversStayJustified(w, es[..|es| - 1]);
      var m, e := Run(w, es[..|es| - 1]), es[|es| - 1];
      forall p | p in Step(m, e).pcs && Step(m, e).pcs[p].TakingOver? && Step(m, e).pcs[p].seen.Some?
        ensures Step(m, e).pcs[p].start - Step(m, e).pcs[p].seen.value.mtime > STALE_AFTER
      {
        assert (e.Stat? && e.p == p) || (p in m.pcs && m.pcs[p] == Step(m, e).pcs[p]);
      }
    }
  }

  /**
   So a process is only ever robbed by one whose stat failed, by one that examined an earlier lock than
   the one it removes, or after overstaying the limit.
   */
  lemma WhyRobbed(w: World, es: seq<Event>, p: nat)
    requires TakeoversJustified(w)
    requires Robs(Run(w, es), Unlink(p))
    ensures var m := Run(w, es);
            || m.pcs[p].seen != m.lock
            || m.pcs[p].start - m.lock.value.mtime > STALE_AFTER
  {
    TakeoversStayJustified(w, es);
  }

  /**
   It happens: process 1 finds the lock of process 0, which leaves before 1 looks at its age; the
   missing file counts as stale; process 2 walks in; and 1 removes the lock of 2 and follows.
   */
  lemma StatAfterReleaseBreaks(clock: int) returns (es: seq<Event>)
    ensures var w := Run(World(None, map[], clock), es); Holds(w, 1) && Holds(w, 2) && !MutualExclusion(w)
    ensures forall e | e in es :: !e.Die? && !e.Tick? && (e.Stat? ==> e.ok)
  {
    var w0 := World(None, map[], clock);
    var a := [Enter(0), Open(0), Enter(1), Open(1), Leave(0)];
    var b := [Stat(1, true), Enter(2), Open(2), Unlink(1), Open(1)];
    es := a + b;
    PlayIsRun(w0, a);
    RunConcat(w0, a, b);
    PlayIsRun(Run(w0, a), b);
    OneIsBlockedByNobody(clock);
    OneFollowsTwo(clock);
    assert Holds(Run(w0, es), 1) && Holds(Run(w0, es), 2);
  }

  lemma OneIsBlockedByNobody(clock: int)
    ensures Play(World(None, map[], clock), [Enter(0), Open(0), Enter(1), Open(1), Leave(0)])
         == World(None, map[0 := Gone, 1 := Blocked(clock, 0)], clock)
  {
    var w0 := World(None, map[], clock);
    PlayFive(w0, Enter(0), Open(0), Enter(1), Open(1), Leave(0));
    var l := Some(Lock(0, clock));
    assert Step(w0, Enter(0)) == World(None, map[0 := Trying(clock, 0)], clock);
    var w2 := World(l, map[0 := Inside(clock)], clock);
    assert Step(World(None, map[0 := Trying(clock, 0)], clock), Open(0)) == w2;
    var w3 := World(l, map[0 := Inside(clock), 1 := Trying(clock, 0)], clock);
    assert Step(w2, Enter(1)) == w3;
    var w4 := World(l, map[0 := Inside(clock), 1 := Blocked(clock, 0)], clock);
    assert Step(w3, Open(1)) == w4;
    assert Step(w4, Leave(0)) == World(None, map[0 := Gone, 1 := Blocked(clock, 0)], clock);
  }

  lemma OneFollowsTwo(clock: int)
    ensures var w := Play(World(None, map[0 := Gone, 1 := Blocked(clock, 0)], clock),
                          [Stat(1, true), Enter(2), Open(2), Unlink(1), Open(1)]);
            Holds(w, 1) && Holds(w, 2)
  {
    var w0 := World(None, map[0 := Gone, 1 := Blocked(clock, 0)], clock);
    PlayFive(w0, Stat(1, true), Enter(2), Open(2), Unlink(1), Open(1));
    var stale := TakingOver(clock, 0, None);
    var w1 := World(None, map[0 := Gone, 1 := stale], clock);
    assert Step(w0, Stat(1, true)) == w1;
    var w2 := World(None, map[0 := Gone, 1 := stale, 2 := Trying(clock, 0)], clock);
    assert Step(w1, Enter(2)) == w2;
    var w3 := World(Some(Lock(2, clock)), map[0 := Gone, 1 := stale, 2 := Inside(clock)], clock);
    assert Step(w2, Open(2)) == w3;
    var w4 := World(None, map[0 := Gone, 1 := Trying(clock, 1), 2 := Inside(clock)], clock);
    assert Step(w3, Unlink(1)) == w4;
    assert Step(w4, Open(1)).pcs == map[0 := Gone, 1 := Inside(clock), 2 := Inside(clock)];
  }

  /** The same run, first step first. */
  function Play(w: World, es: seq<Event>): World
    decreases |es|
  {
    if es == [] then w else Play(Step(w, es[0]), es[1..])
  }

  lemma PlayFive(w: World, a: Event, b: Event, c: Event, d: Event, e: Event)
    ensures Play(w, [a, b, c, d, e]) == Step(Step(Step(Step(Step(w, a), b), c), d), e)
  {
    assert [a, b, c, d, e][1..] == [b, c, d, e] && [b, c, d, e][1..] == [c, d, e];
    assert [c, d, e][1..] == [d, e] && [d, e][1..] == [e] && [e][1..] == [];
    var w3 := Step(Step(Step(w, a), b), c);
    assert Play(Step(w3, d), [e]) == Step(Step(w3, d), e);
    assert Play(w3, [d, e]) == Play(Step(w3, d), [e]);
    assert Play(Step(Step(w, a), b), [c, d, e]) == Play(w3, [d, e]);
    assert Play(Step(w, a), [b, c, d, e]) == Play(Step(Step(w, a), b), [c, d, e]);
  }

  lemma {:induction false} RunConcat(w: World, a: seq<Event>, b: seq<Event>)
    ensures Run(w, a + b) == Run(Run(w, a), b)
  {
    if b == [] {
      assert a + b == a;
    } else {
      RunConcat(w, a, b[..|b| - 1]);
      assert (a + b)[..|a + b| - 1] == a + b[..|b| - 1];
    }
  }

  lemma {:induction false} PlayIsRun(w: World, es: seq<Event>)
    ensures Play(w, es) == Run(w, es)
    decreases |es|
  {
    if es != [] {
      PlayIsRun(Step(w, es[0]), es[1..]);
      RunConcat(w, [es[0]], es[1..]);
      assert [es[0]] + es[1..] == es && [es[0]][..0] == [];
      assert Run(w, [es[0]]) == Step(w, es[0]);
    }
  }

  // ---------- a killed holder ----------

  datatype Attempt = Acquired | AlreadyRunning | LockRace

  /** The lock file as one process alone with it sees it. */
  class LockFile {
    var lock: Option<Lock>

    constructor (lock: Option<Lock>)
      ensures this.lock == lock
    {
      this.lock := lock;
    }

    /** The two-round loop, undisturbed: a stale or unreadable lock is removed, then taken. */
    method Acquire(me: nat, now: int, statOk: bool) returns (r: Attempt)
      modifies this
      ensures r == if old(lock).Some? && statOk && now - old(lock).value.mtime <= STALE_AFTER then AlreadyRunning
                   else Acquired
      ensures lock == if r == Acquired then Some(Lock(me, now)) else old(lock)
    {
      for round := 0 to 2
        invariant round == 0 ==> lock == old(lock)
        invariant round == 1 ==> lock.None? && old(lock).Some? && HeldFor(old(lock), statOk, now) > STALE_AFTER
        invariant round < 2
      {
        if lock.None? {
          lock := Some(Lock(me, now));
          return Acquired;
        }
        if HeldFor(lock, statOk, now) <= STALE_AFTER {
          return AlreadyRunning;
        }
        lock := None;
      }
      r := LockRace;
    }
  }

  /** The steps of one process that nobody disturbs. */
  function Solo(p: nat): seq<Event> {
    [Enter(p), Open(p), Stat(p, true), Unlink(p), Open(p)]
  }

  /**
   A holder that was killed keeps everybody out for exactly `STALE_AFTER` seconds: a process that comes
   alone gets in if and only if the dead lock is older than that.
   */
  lemma DeadLockExpires(w: World, p: nat)
    requires p !in w.pcs && w.lock.Some?
    ensures Holds(Play(w, Solo(p)), p) <==> w.clock - w.lock.value.mtime > STALE_AFTER
    ensures !Holds(Play(w, Solo(p)), p) ==> Play(w, Solo(p)).lock == w.lock
  {
    PlayFive(w, Enter(p), Open(p), Stat(p, true), Unlink(p), Open(p));
    var w1 := Step(Step(w, Enter(p)), Open(p));
    assert w1 == Move(w, p, Blocked(w.clock, 0));
  }
}
