/**
 The chained clear (scripts/clear_trigger.py:437-1004) and the verified injector it types through
 (scripts/lib/terminal_trigger.py:1200-1365, 1726-1810): nothing is written before the Enter that the
 read-back allows, and nothing that was written is taken back.
 */
module ClearChain {
  import opened Common
  import opened ResumeState

  const SUBMIT_CONFIRM_ATTEMPTS: nat := 2
  const MAX_TRANSIENT_UNREADABLE: nat := 3

  /** What the prompt field shows. */
  datatype Field = Empty | Ours | Other

  /**
   Everything one turn of the injector's loop may find: the clock past its deadline, the cancels'
   verdict, a fresh interrupt, keystrokes, the field before typing, the field once settled, keystrokes
   since, how many repeated Enters the confirmation asks for, and whether a last look before giving up
   shows our command. None is an unreadable pane.
   */
  datatype Round = Round(late: bool, wanted: bool, interrupted: bool, typing: bool, field: Option<Field>,
                         settled: Option<Field>, typedSince: bool, confirms: nat, leftover: bool)

  /** What the injector did, and in which round. */
  datatype Act = TypeText(cmd: string, round: nat) | ClearField(round: nat) | PreSubmit(round: nat)
               | Enter(cmd: string, round: nat)

  datatype Ending = Submitted | GaveUp | Cancelled | Unverifiable | Raised

  /** `most` bounds the rounds whatever the clock does; `cancellable` is whether anybody is asked. */
  datatype Injection = Injection(cmd: string, most: nat, cancellable: bool, persists: bool, raises: bool, readable: bool)

  /** The field shows exactly our command: it did already, or it does now that it has settled. */
  predicate ReadsBack(r: Round) {
    r.field == Some(Ours) || r.settled == Some(Ours)
  }

  datatype Loop = Loop(round: nat, typed: bool, unreadable: nat, acts: seq<Act>)

  /** Before giving up or obeying a cancel, our own text (and only ours) is taken out of the field. */
  function Leave(s: Loop, r: Round): seq<Act> {
    if s.typed && r.leftover then s.acts + [ClearField(s.round)] else s.acts
  }

  function Enters(cmd: string, round: nat, n: nat): seq<Act> {
    seq(n, k requires 0 <= k < n => Enter(cmd, round))
  }

  function Submit(j: Injection, s: Loop, acts: seq<Act>, r: Round): (Ending, seq<Act>) {
    if j.persists && j.raises then (Raised, acts + [PreSubmit(s.round)])
    else
      (Submitted, acts + (if j.persists then [PreSubmit(s.round)] else [])
                  + Enters(j.cmd, s.round, 1 + Min(r.confirms, SUBMIT_CONFIRM_ATTEMPTS)))
  }

  function Next(s: Loop): Loop {
    s.(round := s.round + 1)
  }

  /** From a round on: how the injection ends, and all it did. */
  function Inject(j: Injection, world: nat -> Round, s: Loop): (Ending, seq<Act>)
    decreases j.most - s.round
  {
    var r := world(s.round);
    if s.round >= j.most || r.late then (GaveUp, Leave(s, r))
    else if j.cancellable && !r.wanted then (Cancelled, Leave(s, r))
    else if r.interrupted || r.typing then Inject(j, world, Next(s))
    else if r.field.None? then
      if !j.readable || s.unreadable >= MAX_TRANSIENT_UNREADABLE then (Unverifiable, s.acts)
      else Inject(j, world, Next(s).(unreadable := s.unreadable + 1))
    else if r.field.value.Other? then Inject(j, world, Next(s).(unreadable := 0))
    else
      var acts := if r.field.value.Ours? then s.acts else s.acts + [TypeText(j.cmd, s.round)];
      if ReadsBack(r) then Submit(j, s, acts, r)
      else
        Inject(j, world,
               Loop(s.round + 1, true, 0, if r.typedSince then acts else acts + [ClearField(s.round)]))
  }

  const START: Loop := Loop(0, false, 0, [])

  // ---------- what an injection may do ----------

  /** The user is quiet, the clear still wanted, and the field empty. */
  predicate FreeToType(j: Injection, r: Round) {
    !r.late && (j.cancellable ==> r.wanted) && !r.interrupted && !r.typing && r.field == Some(Empty)
  }

  /** The read-back shows our command and nothing else, and nobody objects. */
  predicate Verified(j: Injection, r: Round) {
    !r.late && (j.cancellable ==> r.wanted) && !r.interrupted && !r.typing && ReadsBack(r)
  }

  ghost predicate ActOk(j: Injection, world: nat -> Round, a: Act) {
    match a
    case TypeText(cmd, n) => cmd == j.cmd && FreeToType(j, world(n))
    case ClearField(_) => true
    case PreSubmit(n) => j.persists && Verified(j, world(n))
    case Enter(cmd, n) => cmd == j.cmd && Verified(j, world(n))
  }

  predicate Quiet(a: Act) {
    a.TypeText? || a.ClearField?
  }

  /** Typing and clearing up to `n`, and then what one verified submit in round `k` does. */
  ghost predicate SubmitsFrom(j: Injection, acts: seq<Act>, n: nat, e: nat, k: nat) {
    && 1 <= e <= 1 + SUBMIT_CONFIRM_ATTEMPTS && n <= |acts|
    && (forall i | 0 <= i < n :: Quiet(acts[i]))
    && acts[n..] == (if j.persists then [PreSubmit(k)] else []) + Enters(j.cmd, k, e)
  }

  /** Typing and clearing only, then what one verified submit does, in one round. */
  ghost predicate Shape(j: Injection, ending: Ending, acts: seq<Act>) {
    match ending
    case Submitted => exists n: nat, e: nat, k: nat :: SubmitsFrom(j, acts, n, e, k)
    case Raised =>
      j.persists && acts != [] && acts[|acts| - 1].PreSubmit? && forall i | 0 <= i < |acts| - 1 :: Quiet(acts[i])
    case _ => forall i | 0 <= i < |acts| :: Quiet(acts[i])
  }

  ghost predicate Sound(j: Injection, world: nat -> Round, acts: seq<Act>) {
    forall i | 0 <= i < |acts| :: ActOk(j, world, acts[i])
  }

  ghost predicate SoFar(j: Injection, world: nat -> Round, acts: seq<Act>) {
    Sound(j, world, acts) && forall i | 0 <= i < |acts| :: Quiet(acts[i])
  }

  /**
   However the world behaves: every keystroke goes into an empty field with the user quiet, every Enter
   follows a read-back of exactly the command in the same round, the state is persisted at most once,
   directly before that Enter, and an injection that ends any other way has pressed no Enter at all.
   */
  lemma {:induction false} InjectIsVerified(j: Injection, world: nat -> Round, s: Loop)
    requires SoFar(j, world, s.acts)
    ensures var (ending, acts) := Inject(j, world, s); Sound(j, world, acts) && Shape(j, ending, acts)
    decreases j.most - s.round, 1
  {
    var r := world(s.round);
    if s.round >= j.most || r.late || (j.cancellable && !r.wanted) {
    } else if r.interrupted || r.typing {
      InjectIsVerified(j, world, Next(s));
    } else if r.field.None? {
      if j.readable && s.unreadable < MAX_TRANSIENT_UNREADABLE {
        InjectIsVerified(j, world, Next(s).(unreadable := s.unreadable + 1));
      }
    } else if r.field.value.Other? {
      InjectIsVerified(j, world, Next(s).(unreadable := 0));
    } else {
      TypingIsVerified(j, world, s);
    }
  }

  /** The round that types, or finds its own text already there. */
  lemma {:induction false} TypingIsVerified(j: Injection, world: nat -> Round, s: Loop)
    requires SoFar(j, world, s.acts) && s.round < j.most
    requires var r := world(s.round);
             && !r.late && (j.cancellable ==> r.wanted) && !r.interrupted && !r.typing
             && r.field.Some? && !r.field.value.Other?
    ensures var (ending, acts) := Inject(j, world, s); Sound(j, world, acts) && Shape(j, ending, acts)
    decreases j.most - s.round, 0
  {
    var r := world(s.round);
    var acts := if r.field.value.Ours? then s.acts else s.acts + [TypeText(j.cmd, s.round)];
    if ReadsBack(r) {
      SubmitIsVerified(j, world, s, acts);
    } else {
      InjectIsVerified(j, world,
                       Loop(s.round + 1, true, 0, if r.typedSince then acts else acts + [ClearField(s.round)]));
    }
  }

  lemma SoundConcat(j: Injection, world: nat -> Round, a: seq<Act>, b: seq<Act>)
    requires Sound(j, world, a) && Sound(j, world, b)
    ensures Sound(j, world, a + b)
  {
  }

  lemma EntersAreSound(j: Injection, world: nat -> Round, k: nat, n: nat)
    requires Verified(j, world(k))
    ensures Sound(j, world, Enters(j.cmd, k, n))
  {
  }

  lemma SubmitIsVerified(j: Injection, world: nat -> Round, s: Loop, acts: seq<Act>)
    requires SoFar(j, world, acts) && Verified(j, world(s.round))
    ensures var (ending, all) := Submit(j, s, acts, world(s.round)); Sound(j, world, all) && Shape(j, ending, all)
  {
    var pre := if j.persists then [PreSubmit(s.round)] else [];
    SoundConcat(j, world, acts, pre);
    if !(j.persists && j.raises) {
      var e := 1 + Min(world(s.round).confirms, SUBMIT_CONFIRM_ATTEMPTS);
      var enters := Enters(j.cmd, s.round, e);
      EntersAreSound(j, world, s.round, e);
      SoundConcat(j, world, acts + pre, enters);
      SubmitShape(j, acts, pre, enters, e, s.round);
    }
  }

  lemma SubmitShape(j: Injection, acts: seq<Act>, pre: seq<Act>, enters: seq<Act>, e: nat, k: nat)
    requires forall i | 0 <= i < |acts| :: Quiet(acts[i])
    requires pre == (if j.persists then [PreSubmit(k)] else []) && enters == Enters(j.cmd, k, e)
    requires 1 <= e <= 1 + SUBMIT_CONFIRM_ATTEMPTS
    ensures Shape(j, Submitted, acts + pre + enters)
  {
    var all := acts + pre + enters;
    assert all == acts + (pre + enters);
    assert SubmitsFrom(j, all, |acts|, e, k);
  }

  // ---------- the chain ----------

  /** How the chain as a whole went. `gate`: a fresh session appeared after the clear. */
  datatype Scenario = Scenario(lockFree: bool, writes: Writes, now: int, most: nat, readable: bool,
                               first: nat -> Round, gate: bool, rest: nat -> (nat -> Round))

  datatype Result = Skipped | NotCleared(ending: Ending) | NoFreshSession | Stuck(at: nat) | Complete

  function FirstInjection(p: Payload, sc: Scenario): Injection {
    Injection(p.first, sc.most, true, true, Raises(sc.writes), sc.readable)
  }

  function RestInjection(p: Payload, sc: Scenario, k: nat): Injection
    requires k < |p.rest|
  {
    Injection(p.rest[k], sc.most, false, false, false, sc.readable)
  }

  /** Phase B from its `k`-th command on: nobody is asked whether it is still wanted. */
  function PhaseB(p: Payload, sc: Scenario, k: nat): (out: (Result, seq<Act>))
    requires k <= |p.rest|
    ensures out.0.Complete? || (out.0.Stuck? && k <= out.0.at < |p.rest|)
    decreases |p.rest| - k
  {
    if k == |p.rest| then (Complete, [])
    else
      var (ending, acts) := Inject(RestInjection(p, sc, k), sc.rest(k), START);
      if !ending.Submitted? then (Stuck(k), acts)
      else
        var (r, more) := PhaseB(p, sc, k + 1);
        (r, acts + more)
  }

  function Persisted(d: Disk, p: Payload, sc: Scenario): Disk {
    DoAll(d, PersistOps(p, sc.writes, sc.now))
  }

  /** The whole run: its result, the disk afterwards, what was typed for the clear, and what after it. */
  function Chain(d: Disk, p: Payload, sc: Scenario): (Result, Disk, seq<Act>, seq<Act>) {
    if !sc.lockFree then (Skipped, d, [], [])
    else
      var (ending, acts) := Inject(FirstInjection(p, sc), sc.first, START);
      if ending.Raised? then (NotCleared(ending), Persisted(d, p, sc), acts, [])
      else if !ending.Submitted? then (NotCleared(ending), d, acts, [])
      else if !sc.gate then (NoFreshSession, Persisted(d, p, sc), acts, [])
      else
        var (r, more) := PhaseB(p, sc, 0);
        (r, if r.Complete? && p.goal then DoAll(Persisted(d, p, sc), CONSUME_OPS) else Persisted(d, p, sc), acts, more)
  }

  class StateDir {
    var disk: Disk
    /** Somebody's clear chain holds `clear-chain.lock`. */
    var locked: bool

    constructor (disk: Disk)
      ensures this.disk == disk && !locked
    {
      this.disk, locked := disk, false;
    }

    /** The callback before the Enter. */
    method PersistResumeState(p: Payload, w: Writes, now: int) returns (raised: bool)
      modifies this`disk
      ensures disk == DoAll(old(disk), PersistOps(p, w, now)) && raised == Raises(w)
    {
      var ops := PersistOps(p, w, now);
      for k := 0 to |ops|
        invariant disk == DoAll(old(disk), ops[..k])
      {
        disk := Do(disk, ops[k]);
        assert ops[..k + 1][..k] == ops[..k];
      }
      assert ops[..|ops|] == ops;
      raised := Raises(w);
    }

    method ConsumeResumeFlag()
      modifies this`disk
      ensures disk == DoAll(old(disk), CONSUME_OPS)
    {
      ConsumedAtOnce(disk);
      disk := disk.(clearFlag := None);
      disk := disk.(clearTs := None);
      disk := disk.(sessionStamp := false);
    }

    /** Type, read back, and only then press Enter; `p` is persisted right before it if asked for. */
    method InjectUntilSent(j: Injection, world: nat -> Round, p: Payload, w: Writes, now: int)
      returns (ending: Ending, acts: seq<Act>)
      requires j.raises == Raises(w)
      modifies this`disk
      ensures (ending, acts) == Inject(j, world, START)
      ensures disk == if j.persists && (ending.Submitted? || ending.Raised?)
                      then DoAll(old(disk), PersistOps(p, w, now)) else old(disk)
    {
      var s := START;
      while s.round < j.most
        invariant disk == old(disk)
        invariant Inject(j, world, START) == Inject(j, world, s)
        decreases j.most - s.round
      {
        var r := world(s.round);
        if r.late {
          break;
        }
        if j.cancellable && !r.wanted {
          return Cancelled, Leave(s, r);
        }
        if r.interrupted || r.typing {
          s := Next(s);
          continue;
        }
        if r.field.None? {
          if !j.readable || s.unreadable >= MAX_TRANSIENT_UNREADABLE {
            return Unverifiable, s.acts;
          }
          s := Next(s).(unreadable := s.unreadable + 1);
          continue;
        }
        if r.field.value.Other? {
          s := Next(s).(unreadable := 0);
          continue;
        }
        acts := s.acts;
        if !r.field.value.Ours? {
          acts := acts + [TypeText(j.cmd, s.round)];
        }
        if ReadsBack(r) {
          if j.persists {
            acts := acts + [PreSubmit(s.round)];
            var raised := PersistResumeState(p, w, now);
            if raised {
              return Raised, acts;
            }
          } else {
            assert acts == acts + [];
          }
          acts := acts + Enters(j.cmd, s.round, 1 + Min(r.confirms, SUBMIT_CONFIRM_ATTEMPTS));
          return Submitted, acts;
        }
        if !r.typedSince {
          acts := acts + [ClearField(s.round)];
        }
        s := Loop(s.round + 1, true, 0, acts);
      }
      return GaveUp, Leave(s, world(s.round));
    }

    method RunChainPayload(p: Payload, sc: Scenario) returns (r: Result, forClear: seq<Act>, after: seq<Act>)
      requires sc.lockFree == !locked
      modifies this
      ensures (r, disk, forClear, after) == Chain(old(disk), p, sc)
      ensures locked == old(locked)
    {
      forClear, after := [], [];
      if locked {
        return Skipped, [], [];
      }
      locked := true;
      var ending, acts := InjectUntilSent(FirstInjection(p, sc), sc.first, p, sc.writes, sc.now);
      forClear := acts;
      if !ending.Submitted? {
        locked := false;
        return NotCleared(ending), forClear, after;
      }
      if !sc.gate {
        locked := false;
        return NoFreshSession, forClear, after;
      }
      r, after := RunPhaseB(p, sc);
      if r.Complete? && p.goal {
        ConsumeResumeFlag();
      }
      locked := false;
    }

    method RunPhaseB(p: Payload, sc: Scenario) returns (r: Result, acts: seq<Act>)
      modifies this`disk
      ensures (r, acts) == PhaseB(p, sc, 0) && disk == old(disk)
    {
      acts := [];
      assert [] + PhaseB(p, sc, 0).1 == PhaseB(p, sc, 0).1;
      for k := 0 to |p.rest|
        invariant disk == old(disk)
        invariant PhaseB(p, sc, 0) == (PhaseB(p, sc, k).0, acts + PhaseB(p, sc, k).1)
      {
        ghost var done := acts;
        var ending, one := InjectUntilSent(RestInjection(p, sc, k), sc.rest(k), p, Writes(None, true, false, false, false), sc.now);
        acts := acts + one;
        if !ending.Submitted? {
          return Stuck(k), acts;
        }
        assert done + (one + PhaseB(p, sc, k + 1).1) == acts + PhaseB(p, sc, k + 1).1;
      }
      assert acts + [] == acts;
      return Complete, acts;
    }
  }

  // ---------- the guarantees ----------

  ghost predicate NoEnter(acts: seq<Act>) {
    forall i | 0 <= i < |acts| :: !acts[i].Enter?
  }

  lemma ShapeMeansNoEnter(j: Injection, ending: Ending, acts: seq<Act>)
    requires Shape(j, ending, acts) && !ending.Submitted?
    ensures NoEnter(acts)
  {
    forall i | 0 <= i < |acts| ensures !acts[i].Enter? {
      assert Quiet(acts[i]) || (ending.Raised? && i == |acts| - 1);
    }
  }

  lemma ShapeMeansEnter(j: Injection, acts: seq<Act>)
    requires Shape(j, Submitted, acts)
    ensures !NoEnter(acts)
  {
    var n: nat, e: nat, k: nat :| SubmitsFrom(j, acts, n, e, k);
    var m := n + if j.persists then 1 else 0;
    assert acts[m] == acts[n..][m - n] == Enter(j.cmd, k);
  }

  /**
   A chain that never presses Enter on the clear leaves the state directory exactly as it was, unless
   the very callback before that Enter raised; and it types nothing else. A second chain on a locked
   directory does nothing at all.
   */
  lemma NothingBeforeTheEnter(d: Disk, p: Payload, sc: Scenario)
    ensures var (r, d', forClear, after) := Chain(d, p, sc);
            && (NoEnter(forClear) ==> after == [] && (d' == d || r == NotCleared(Raised)))
            && (!sc.lockFree ==> r == Skipped && d' == d && forClear == [] && after == [])
            && (r.NotCleared? ==> NoEnter(forClear))
  {
    var j := FirstInjection(p, sc);
    InjectIsVerified(j, sc.first, START);
    var (ending, acts) := Inject(j, sc.first, START);
    if ending.Submitted? {
      ShapeMeansEnter(j, acts);
    } else {
      ShapeMeansNoEnter(j, ending, acts);
    }
  }

  /**
   Once the clear's Enter was pressed the resume state is on disk and stays there, through a gate that
   times out and a bootstrap that gets stuck; only a completed goal bootstrap takes the marker away.
   And not a key of the bootstrap is typed before a fresh session was seen.
   */
  lemma TheLifelineIsKept(d: Disk, p: Payload, sc: Scenario)
    ensures var (r, d', forClear, after) := Chain(d, p, sc);
            && (!NoEnter(forClear) ==>
                  d' == if r.Complete? && p.goal then DoAll(Persisted(d, p, sc), CONSUME_OPS) else Persisted(d, p, sc))
            && (after != [] ==> sc.gate && !NoEnter(forClear))
            && (r.Complete? ==> sc.gate && !NoEnter(forClear))
  {
    var j := FirstInjection(p, sc);
    InjectIsVerified(j, sc.first, START);
    var (ending, acts) := Inject(j, sc.first, START);
    if ending.Submitted? {
      ShapeMeansEnter(j, acts);
    } else {
      ShapeMeansNoEnter(j, ending, acts);
    }
  }

  /** The flag has its time after the chain, whatever became of it. */
  lemma ChainKeepsMarked(d: Disk, p: Payload, sc: Scenario)
    requires Marked(d)
    ensures Marked(Chain(d, p, sc).1)
  {
    var ops := PersistOps(p, sc.writes, sc.now);
    WriterCrashesSafely(d, p, sc.writes, sc.now, |ops|);
    assert ops[..|ops|] == ops;
    ConsumerCrashesSafely(Persisted(d, p, sc), |CONSUME_OPS|);
    assert CONSUME_OPS[..|CONSUME_OPS|] == CONSUME_OPS;
  }

  // ---------- what the bootstrap types ----------

  /** What each command of phase B tried, from the `k`-th on, did. */
  function PhaseBParts(p: Payload, sc: Scenario, k: nat): seq<seq<Act>>
    requires k <= |p.rest|
    decreases |p.rest| - k
  {
    if k == |p.rest| then []
    else
      var (ending, acts) := Inject(RestInjection(p, sc, k), sc.rest(k), START);
      [acts] + if ending.Submitted? then PhaseBParts(p, sc, k + 1) else []
  }

  function Flatten(parts: seq<seq<Act>>): seq<Act> {
    if parts == [] then [] else parts[0] + Flatten(parts[1..])
  }

  /** Command `j` was typed under verification: submitted, or given up without an Enter. */
  ghost predicate PartOk(p: Payload, sc: Scenario, j: nat, part: seq<Act>, submitted: bool) {
    && j < |p.rest| && Sound(RestInjection(p, sc, j), sc.rest(j), part)
    && if submitted then Shape(RestInjection(p, sc, j), Submitted, part) && !NoEnter(part) else NoEnter(part)
  }

  lemma CommandOk(p: Payload, sc: Scenario, k: nat)
    requires k < |p.rest|
    ensures var (ending, acts) := Inject(RestInjection(p, sc, k), sc.rest(k), START);
            PartOk(p, sc, k, acts, ending.Submitted?)
  {
    var j := RestInjection(p, sc, k);
    InjectIsVerified(j, sc.rest(k), START);
    var (ending, acts) := Inject(j, sc.rest(k), START);
    if ending.Submitted? {
      ShapeMeansEnter(j, acts);
    } else {
      ShapeMeansNoEnter(j, ending, acts);
    }
  }

  /** The parts from command `k` on, all submitted but the one the chain is stuck at. */
  ghost predicate InOrder(p: Payload, sc: Scenario, k: nat, parts: seq<seq<Act>>, r: Result) {
    && (r.Complete? || (r.Stuck? && k <= r.at < |p.rest|)) && k <= |p.rest|
    && |parts| == (if r.Complete? then |p.rest| - k else r.at - k + 1)
    && forall j | 0 <= j < |parts| :: PartOk(p, sc, k + j, parts[j], r.Complete? || k + j < r.at)
  }

  lemma OneMoreInOrder(p: Payload, sc: Scenario, k: nat, part: seq<Act>, parts: seq<seq<Act>>, r: Result)
    requires k < |p.rest| && PartOk(p, sc, k, part, true) && InOrder(p, sc, k + 1, parts, r)
    ensures InOrder(p, sc, k, [part] + parts, r)
  {
    var all := [part] + parts;
    forall j | 0 <= j < |all| ensures PartOk(p, sc, k + j, all[j], r.Complete? || k + j < r.at) {
      if j > 0 {
        assert PartOk(p, sc, k + 1 + (j - 1), parts[j - 1], r.Complete? || k + 1 + (j - 1) < r.at);
      }
    }
  }

  /**
   Phase B types its commands in their order and no others: each of them submitted under verification, but
   for the one it is stuck at, which pressed no Enter and was the last.
   */
  lemma {:induction false} PhaseBInOrder(p: Payload, sc: Scenario, k: nat)
    requires k <= |p.rest|
    ensures PhaseB(p, sc, k).1 == Flatten(PhaseBParts(p, sc, k))
    ensures InOrder(p, sc, k, PhaseBParts(p, sc, k), PhaseB(p, sc, k).0)
    decreases |p.rest| - k
  {
    if k < |p.rest| {
      CommandOk(p, sc, k);
      var (ending, acts) := Inject(RestInjection(p, sc, k), sc.rest(k), START);
      if ending.Submitted? {
        PhaseBInOrder(p, sc, k + 1);
        var parts := PhaseBParts(p, sc, k + 1);
        OneMoreInOrder(p, sc, k, acts, parts, PhaseB(p, sc, k + 1).0);
        assert ([acts] + parts)[1..] == parts;
      } else {
        assert [acts] + [] == [acts] && [acts][1..] == [] && acts + [] == acts;
        assert PhaseBParts(p, sc, k) == [acts];
      }
    }
  }
}
