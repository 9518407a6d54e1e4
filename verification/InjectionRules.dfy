/**
 How an injection ends, exactly (scripts/lib/terminal_trigger.py:1200-1365): which round decides it, what was
 typed and cleared on the way, and so when a chained clear goes through (scripts/clear_trigger.py:437-1004).
 */
module InjectionRules {
  import opened Common
  import opened ResumeState
  import opened ClearChain

  // ---------- the round that decides ----------

  /** The user is at it; the round comes to nothing. */
  predicate Disturbed(r: Round) {
    r.interrupted || r.typing
  }

  /** How many looks in a row found the pane unreadable before round `n`. */
  function Unread(world: nat -> Round, n: nat): nat {
    if n == 0 then 0
    else if Disturbed(world(n - 1)) then Unread(world, n - 1)
    else if world(n - 1).field.None? then Unread(world, n - 1) + 1
    else 0
  }

  predicate OutOfTime(j: Injection, world: nat -> Round, n: nat) {
    n >= j.most || world(n).late
  }

  predicate Unwanted(j: Injection, r: Round) {
    j.cancellable && !r.wanted
  }

  /** The pane cannot be read at all, or has not been for four looks in a row. */
  predicate Blind(j: Injection, world: nat -> Round, n: nat) {
    !Disturbed(world(n)) && world(n).field.None? && (!j.readable || Unread(world, n) >= 3)
  }

  /** The field is empty or ours, and reads back as exactly the command. */
  predicate Ready(j: Injection, world: nat -> Round, n: nat) {
    && n < j.most && Verified(j, world(n))
    && (world(n).field == Some(Empty) || world(n).field == Some(Ours))
  }

  predicate Decides(j: Injection, world: nat -> Round, n: nat) {
    OutOfTime(j, world, n) || Unwanted(j, world(n)) || Blind(j, world, n) || Ready(j, world, n)
  }

  ghost predicate First(j: Injection, world: nat -> Round, n: nat) {
    Decides(j, world, n) && forall m | 0 <= m < n :: !Decides(j, world, m)
  }

  /** The first round that is ready, none before it having ended the attempt. */
  ghost predicate SubmitsAt(j: Injection, world: nat -> Round, n: nat) {
    Ready(j, world, n) && forall m | 0 <= m < n :: !Decides(j, world, m)
  }

  function EndingAt(j: Injection, world: nat -> Round, n: nat): Ending {
    if OutOfTime(j, world, n) then GaveUp
    else if Unwanted(j, world(n)) then Cancelled
    else if Ready(j, world, n) then (if j.persists && j.raises then Raised else Submitted)
    else Unverifiable
  }

  // ---------- what is typed on the way ----------

  /** A round that types: it got as far as an empty field. */
  predicate TypesAt(j: Injection, world: nat -> Round, n: nat) {
    n < j.most && FreeToType(j, world(n))
  }

  ghost predicate Typed(j: Injection, world: nat -> Round, n: nat) {
    exists m | 0 <= m < n :: TypesAt(j, world, m)
  }

  /** The keystrokes of the rounds before `n`, none of which decided: typed, and cleared unless the user has typed since. */
  ghost predicate QuietActs(j: Injection, world: nat -> Round, n: nat, acts: seq<Act>) {
    && (forall i | 0 <= i < |acts| :: Quiet(acts[i]))
    && (forall cmd, k: nat :: TypeText(cmd, k) in acts <==> cmd == j.cmd && k < n && TypesAt(j, world, k))
    && (forall k: nat :: ClearField(k) in acts <==> k < n && TypesAt(j, world, k) && !world(k).typedSince)
  }

  /** What the deciding round `n` adds. */
  function LastActs(j: Injection, world: nat -> Round, n: nat, typed: bool): seq<Act> {
    match EndingAt(j, world, n)
    case GaveUp => if typed && world(n).leftover then [ClearField(n)] else []
    case Cancelled => if typed && world(n).leftover then [ClearField(n)] else []
    case Unverifiable => []
    case Raised => (if world(n).field == Some(Empty) then [TypeText(j.cmd, n)] else []) + [PreSubmit(n)]
    case Submitted =>
      (if world(n).field == Some(Empty) then [TypeText(j.cmd, n)] else [])
      + (if j.persists then [PreSubmit(n)] else [])
      + Enters(j.cmd, n, 1 + Min(world(n).confirms, 2))
  }

  ghost predicate Underway(j: Injection, world: nat -> Round, s: Loop) {
    && (forall m | 0 <= m < s.round :: !Decides(j, world, m))
    && s.unreadable == Unread(world, s.round) && s.typed == Typed(j, world, s.round)
    && QuietActs(j, world, s.round, s.acts)
  }

  /** It ended in round `n`, having done `before` in the rounds before. */
  ghost predicate EndedAt(j: Injection, world: nat -> Round, n: nat, before: seq<Act>, ending: Ending, acts: seq<Act>) {
    && First(j, world, n) && ending == EndingAt(j, world, n)
    && QuietActs(j, world, n, before) && acts == before + LastActs(j, world, n, Typed(j, world, n))
  }

  lemma TypedNext(j: Injection, world: nat -> Round, n: nat)
    ensures Typed(j, world, n + 1) <==> Typed(j, world, n) || TypesAt(j, world, n)
  {
    if Typed(j, world, n) {
      var m :| 0 <= m < n && TypesAt(j, world, m);
      assert m < n + 1;
    }
  }

  lemma DeadRound(j: Injection, world: nat -> Round, s: Loop, unreadable: nat)
    requires Underway(j, world, s) && !Decides(j, world, s.round) && !TypesAt(j, world, s.round)
    requires unreadable == Unread(world, s.round + 1)
    ensures Underway(j, world, Next(s).(unreadable := unreadable))
  {
    TypedNext(j, world, s.round);
  }

  lemma TypingRound(j: Injection, world: nat -> Round, s: Loop, acts: seq<Act>)
    requires Underway(j, world, s) && !Decides(j, world, s.round) && TypesAt(j, world, s.round)
    requires acts == s.acts + [TypeText(j.cmd, s.round)] + if world(s.round).typedSince then [] else [ClearField(s.round)]
    ensures Underway(j, world, Loop(s.round + 1, true, 0, acts))
  {
    TypedNext(j, world, s.round);
    var n := s.round;
    forall cmd, k: nat ensures TypeText(cmd, k) in acts <==> cmd == j.cmd && k < n + 1 && TypesAt(j, world, k) {
      assert TypeText(cmd, k) in acts <==> TypeText(cmd, k) in s.acts || TypeText(cmd, k) == TypeText(j.cmd, n);
    }
    forall k: nat ensures ClearField(k) in acts <==> k < n + 1 && TypesAt(j, world, k) && !world(k).typedSince {
      assert ClearField(k) in acts <==> ClearField(k) in s.acts || (!world(n).typedSince && k == n);
    }
  }

  /** From any round on that is still undecided: where it ends, how, and all it did. */
  lemma {:induction false} InjectFrom(j: Injection, world: nat -> Round, s: Loop) returns (n: nat, before: seq<Act>)
    requires Underway(j, world, s)
    ensures EndedAt(j, world, n, before, Inject(j, world, s).0, Inject(j, world, s).1)
    decreases j.most - s.round
  {
    n, before := s.round, s.acts;
    var r := world(n);
    if OutOfTime(j, world, n) || Unwanted(j, r) {
      QuietEnd(j, world, s);
    } else if Disturbed(r) {
      DeadRound(j, world, s, s.unreadable);
      n, before := InjectFrom(j, world, Next(s));
    } else if r.field.None? {
      if j.readable && s.unreadable < 3 {
        DeadRound(j, world, s, s.unreadable + 1);
        n, before := InjectFrom(j, world, Next(s).(unreadable := s.unreadable + 1));
      } else {
        QuietEnd(j, world, s);
      }
    } else if r.field.value.Other? {
      DeadRound(j, world, s, 0);
      n, before := InjectFrom(j, world, Next(s).(unreadable := 0));
    } else if ReadsBack(r) {
      ReadyEnd(j, world, s);
    } else {
      var acts := s.acts + [TypeText(j.cmd, n)] + if r.typedSince then [] else [ClearField(n)];
      TypingRound(j, world, s, acts);
      TypingContinues(j, world, s, acts);
      n, before := InjectFrom(j, world, Loop(s.round + 1, true, 0, acts));
    }
  }

  lemma TypingContinues(j: Injection, world: nat -> Round, s: Loop, acts: seq<Act>)
    requires s.round < j.most && FreeToType(j, world(s.round)) && !ReadsBack(world(s.round))
    requires acts == s.acts + [TypeText(j.cmd, s.round)] + if world(s.round).typedSince then [] else [ClearField(s.round)]
    ensures Inject(j, world, s) == Inject(j, world, Loop(s.round + 1, true, 0, acts))
  {
    var typed := s.acts + [TypeText(j.cmd, s.round)];
    assert typed + [] == typed;
  }

  lemma QuietEnd(j: Injection, world: nat -> Round, s: Loop)
    requires Underway(j, world, s)
    requires OutOfTime(j, world, s.round) || Unwanted(j, world(s.round)) || Blind(j, world, s.round)
    ensures EndedAt(j, world, s.round, s.acts, Inject(j, world, s).0, Inject(j, world, s).1)
  {
    assert s.acts + [] == s.acts;
  }

  lemma ReadyEnd(j: Injection, world: nat -> Round, s: Loop)
    requires Underway(j, world, s) && Ready(j, world, s.round)
    ensures EndedAt(j, world, s.round, s.acts, Inject(j, world, s).0, Inject(j, world, s).1)
  {
    var n := s.round;
    var typing := if world(n).field == Some(Empty) then [TypeText(j.cmd, n)] else [];
    var typed := if world(n).field == Some(Ours) then s.acts else s.acts + [TypeText(j.cmd, n)];
    assert typed == s.acts + typing;
    var pre := if j.persists then [PreSubmit(n)] else [];
    var enters := Enters(j.cmd, n, 1 + Min(world(n).confirms, 2));
    assert s.acts + typing + pre + enters == s.acts + (typing + pre + enters);
    assert s.acts + typing + [PreSubmit(n)] == s.acts + (typing + [PreSubmit(n)]);
  }

  /**
   An injection ends in the first round that decides, in the way of that round, after typing in every round that
   found the field empty and clearing after every one that did not read back, the user's own text excepted.
   */
  lemma InjectExactly(j: Injection, world: nat -> Round) returns (n: nat, before: seq<Act>)
    ensures EndedAt(j, world, n, before, Inject(j, world, START).0, Inject(j, world, START).1)
    ensures n <= j.most && forall m: nat :: First(j, world, m) <==> m == n
  {
    n, before := InjectFrom(j, world, START);
    if n > j.most {
      assert Decides(j, world, j.most);
    }
    forall m: nat ensures First(j, world, m) <==> m == n {
      if First(j, world, m) {
        assert m < n ==> !Decides(j, world, m);
        assert n < m ==> !Decides(j, world, n);
      }
    }
  }

  /**
   So Enter is pressed, or the callback before it raises, if and only if some round is ready before any other ends
   the attempt, and in the first such round.
   */
  lemma SubmitsExactly(j: Injection, world: nat -> Round)
    ensures var ending := Inject(j, world, START).0;
            && (ending.Submitted? <==> !(j.persists && j.raises) && exists n: nat :: SubmitsAt(j, world, n))
            && (ending.Raised? <==> j.persists && j.raises && exists n: nat :: SubmitsAt(j, world, n))
  {
    var n, before := InjectExactly(j, world);
    if m: nat :| SubmitsAt(j, world, m) {
      assert First(j, world, m);
    }
    if Ready(j, world, n) {
      assert SubmitsAt(j, world, n);
    }
  }

  // ---------- the whole chain ----------

  ghost predicate GoesThrough(j: Injection, world: nat -> Round) {
    exists n: nat :: SubmitsAt(j, world, n)
  }

  ghost predicate RestGoesThrough(p: Payload, sc: Scenario, k: nat)
    requires k < |p.rest|
  {
    GoesThrough(RestInjection(p, sc, k), sc.rest(k))
  }

  lemma {:induction false} PhaseBExactly(p: Payload, sc: Scenario, k: nat)
    requires k <= |p.rest|
    ensures PhaseB(p, sc, k).0.Complete? <==> forall i | k <= i < |p.rest| :: RestGoesThrough(p, sc, i)
    ensures forall at | k <= at < |p.rest| ::
              PhaseB(p, sc, k).0 == Stuck(at)
              <==> !RestGoesThrough(p, sc, at) && forall i | k <= i < at :: RestGoesThrough(p, sc, i)
    decreases |p.rest| - k
  {
    if k < |p.rest| {
      SubmitsExactly(RestInjection(p, sc, k), sc.rest(k));
      if RestGoesThrough(p, sc, k) {
        PhaseBExactly(p, sc, k + 1);
      }
    }
  }

  /** The clear is sent: the lock is free, some round is ready in time, and the resume state is written. */
  ghost predicate Clears(p: Payload, sc: Scenario) {
    sc.lockFree && GoesThrough(FirstInjection(p, sc), sc.first) && !Raises(sc.writes)
  }

  /**
   How a chain ends, exactly: it clears if it can, goes on if a fresh session appears, and completes if every
   command goes through.
   */
  lemma ChainExactly(d: Disk, p: Payload, sc: Scenario)
    ensures var r := Chain(d, p, sc).0;
            && (r.Skipped? <==> !sc.lockFree)
            && (r.NotCleared? <==> sc.lockFree && !Clears(p, sc))
            && (r.NoFreshSession? <==> Clears(p, sc) && !sc.gate)
            && (r.Complete? <==> Clears(p, sc) && sc.gate && forall i | 0 <= i < |p.rest| :: RestGoesThrough(p, sc, i))
            && (forall at | 0 <= at < |p.rest| ::
                  r == Stuck(at) <==> Clears(p, sc) && sc.gate && !RestGoesThrough(p, sc, at)
                                      && forall i | 0 <= i < at :: RestGoesThrough(p, sc, i))
  {
    SubmitsExactly(FirstInjection(p, sc), sc.first);
    PhaseBExactly(p, sc, 0);
  }

  /** What a chain leaves on disk: nothing new until the Enter is due, then the resume state, consumed by a completed goal. */
  lemma ChainLeavesExactly(d: Disk, p: Payload, sc: Scenario)
    ensures var (r, after, _, _) := Chain(d, p, sc);
            && (!sc.lockFree || !GoesThrough(FirstInjection(p, sc), sc.first) ==> after == d)
            && (sc.lockFree && GoesThrough(FirstInjection(p, sc), sc.first) ==>
                  after == if r.Complete? && p.goal
                           then Persisted(d, p, sc).(clearFlag := None, clearTs := None, sessionStamp := false)
                           else Persisted(d, p, sc))
  {
    SubmitsExactly(FirstInjection(p, sc), sc.first);
    ConsumedAtOnce(Persisted(d, p, sc));
  }
}
