/**
 What a clear leaves on disk for the session it creates (scripts/clear_trigger.py:192-195, 333-347,
 492-585), in the order of the writes, and how long the cues of an unfinished recovery hold a clear
 back (683-824; scripts/lib/external_clear.py:1275-1348). Every write is an atomic replace.
 */
module ResumeState {
  import opened Common

  /** A resume flag: its text and its modification time. */
  datatype Flag = Flag(text: string, mtime: int)

  /** The files of one state directory; None is an absent file. */
  datatype Disk = Disk(directive: Option<string>, clearTs: Option<int>, clearFlag: Option<Flag>, sessionStamp: bool,
                       hold: Option<string>, sidecars: map<string, string>, cooldown: Option<int>,
                       rateFlag: Option<int>, rateSince: Option<int>, compactFlag: Option<int>,
                       compactTs: Option<int>, observed: Option<int>)

  /** One atomic file operation. */
  datatype Op = WriteDirective(text: string) | WriteTs(now: int) | WriteFlag(text: string, now: int)
              | TakeHold(transcript: string) | WriteSidecar(pane: string, transcript: string) | StampCooldown(now: int)
              | UnlinkFlag | UnlinkTs | UnlinkSession

  function Do(d: Disk, op: Op): Disk {
    match op
    case WriteDirective(text) => d.(directive := Some(text + "\n"))
    case WriteTs(now) => d.(clearTs := Some(now))
    case WriteFlag(text, now) => d.(clearFlag := Some(Flag(text, now)))
    case TakeHold(transcript) => d.(hold := Some(transcript))
    case WriteSidecar(pane, transcript) => d.(sidecars := d.sidecars[pane := transcript])
    case StampCooldown(now) => d.(cooldown := Some(now))
    case UnlinkFlag => d.(clearFlag := None)
    case UnlinkTs => d.(clearTs := None)
    case UnlinkSession => d.(sessionStamp := false)
  }

  function DoAll(d: Disk, ops: seq<Op>): Disk {
    if ops == [] then d else Do(DoAll(d, ops[..|ops| - 1]), ops[|ops| - 1])
  }

  /** What the chain was asked to do; `pane` is None for a terminal that cannot be named. */
  datatype Payload = Payload(directive: string, transcript: string, summaryHold: bool, pane: Option<string>,
                             countTowardCooldown: bool, first: string, rest: seq<string>, goal: bool)

  /**
   What the world does to the writes: the first three may raise (`raisesAt` says which, counted from 0)
   and abort the rest; the hold, the sidecar and the stamp may fail silently. `handoffExists` is a
   handoff that makes the hold pointless.
   */
  datatype Writes = Writes(raisesAt: Option<nat>, handoffExists: bool, holdOk: bool, sidecarOk: bool, cooldownOk: bool)

  predicate Raises(w: Writes) {
    w.raisesAt.Some? && w.raisesAt.value < 3
  }

  /** All that `_persist_resume_state` writes, in its order. */
  function PersistOps(p: Payload, w: Writes, now: int): seq<Op> {
    var all :=
      [WriteDirective(p.directive), WriteTs(now), WriteFlag(p.directive, now)]
      + (if p.transcript != "" && p.summaryHold && !w.handoffExists && w.holdOk then [TakeHold(p.transcript)] else [])
      + (if p.transcript != "" && p.pane.Some? && w.sidecarOk then [WriteSidecar(p.pane.value, p.transcript)] else [])
      + (if p.countTowardCooldown && w.cooldownOk then [StampCooldown(now)] else []);
    if Raises(w) then all[..w.raisesAt.value] else all
  }

  const CONSUME_OPS: seq<Op> := [UnlinkFlag, UnlinkTs, UnlinkSession]

  // ---------- when the flag stands without its time ----------

  /** A reader that finds the flag finds the time it was written. */
  predicate Marked(d: Disk) {
    d.clearFlag.Some? ==> d.clearTs.Some?
  }

  /** After `ops` a flag stands, if one stood before exactly when `was`. */
  predicate FlagStands(was: bool, ops: seq<Op>) {
    if ops == [] then was
    else
      var n := |ops| - 1;
      match ops[n]
      case WriteFlag(_, _) => true
      case UnlinkFlag => false
      case _ => FlagStands(was, ops[..n])
  }

  /** The last operation on the time unlinks it. */
  predicate TimeLost(ops: seq<Op>) {
    ops != []
    && var n := |ops| - 1;
       match ops[n]
       case WriteTs(_) => false
       case UnlinkTs => true
       case _ => TimeLost(ops[..n])
  }

  /** Operation `i` unlinks the time and none after it writes one. */
  ghost predicate LosesTime(ops: seq<Op>, i: nat) {
    i < |ops| && ops[i].UnlinkTs? && forall j | i < j < |ops| :: !ops[j].WriteTs?
  }

  lemma {:induction false} WhereTimeIsLost(ops: seq<Op>) returns (i: nat)
    requires TimeLost(ops)
    ensures LosesTime(ops, i)
  {
    var n := |ops| - 1;
    if ops[n].UnlinkTs? {
      i := n;
    } else {
      i := WhereTimeIsLost(ops[..n]);
      assert forall j | i < j < n :: ops[j] == ops[..n][j];
    }
  }

  lemma {:induction false} TimeIsLostThere(ops: seq<Op>, i: nat)
    requires LosesTime(ops, i)
    ensures TimeLost(ops)
    decreases |ops|
  {
    var n := |ops| - 1;
    if i < n {
      assert LosesTime(ops[..n], i);
      TimeIsLostThere(ops[..n], i);
    }
  }

  /** That is: some unlink of the time comes after every write of it. */
  lemma TimeLostExactly(ops: seq<Op>)
    ensures TimeLost(ops) <==> exists i: nat :: LosesTime(ops, i)
  {
    if TimeLost(ops) {
      var i := WhereTimeIsLost(ops);
    }
    if i: nat :| LosesTime(ops, i) {
      TimeIsLostThere(ops, i);
    }
  }

  /** Nobody writes a flag without having written a time first. */
  ghost predicate TimesBeforeFlags(ops: seq<Op>) {
    forall j | 0 <= j < |ops| && ops[j].WriteFlag? :: WritesTime(ops[..j])
  }

  ghost predicate WritesTime(ops: seq<Op>) {
    exists i :: 0 <= i < |ops| && ops[i].WriteTs?
  }

  lemma {:induction false} FlagAtTheEnd(d: Disk, ops: seq<Op>)
    ensures DoAll(d, ops).clearFlag.Some? <==> FlagStands(d.clearFlag.Some?, ops)
    ensures (forall j | 0 <= j < |ops| :: !ops[j].WriteFlag?) && FlagStands(d.clearFlag.Some?, ops) ==> d.clearFlag.Some?
  {
    if ops != [] {
      FlagAtTheEnd(d, ops[..|ops| - 1]);
    }
  }

  lemma {:induction false} TimeAtTheEnd(d: Disk, ops: seq<Op>)
    ensures TimeLost(ops) ==> DoAll(d, ops).clearTs.None?
    ensures !TimeLost(ops) && WritesTime(ops) ==> DoAll(d, ops).clearTs.Some?
    ensures !TimeLost(ops) && !WritesTime(ops) ==> DoAll(d, ops).clearTs == d.clearTs
  {
    if ops != [] {
      var n := |ops| - 1;
      TimeAtTheEnd(d, ops[..n]);
      if WritesTime(ops) && !ops[n].WriteTs? {
        var i :| 0 <= i < |ops| && ops[i].WriteTs?;
        assert ops[..n][i].WriteTs?;
      }
      if WritesTime(ops[..n]) {
        var i :| 0 <= i < n && ops[..n][i].WriteTs?;
        assert ops[i].WriteTs?;
      }
    }
  }

  lemma WritesTimeEarly(ops: seq<Op>, j: nat)
    requires j <= |ops|
    ensures WritesTime(ops[..j]) ==> WritesTime(ops)
  {
    if i :| 0 <= i < j && ops[..j][i].WriteTs? {
      assert ops[i].WriteTs?;
    }
  }

  /**
   However writers and consumers of one state directory overlap, from a disk that is in order: a flag ends
   up without its time if and only if one stands at the end and the last operation on the time, whoever's,
   unlinked it.
   */
  lemma MarkedExactly(d: Disk, ops: seq<Op>)
    requires Marked(d) && TimesBeforeFlags(ops)
    ensures Marked(DoAll(d, ops)) <==> !(FlagStands(d.clearFlag.Some?, ops) && TimeLost(ops))
  {
    FlagAtTheEnd(d, ops);
    TimeAtTheEnd(d, ops);
    if !WritesTime(ops) {
      forall j | 0 <= j < |ops| ensures !ops[j].WriteFlag? {
        WritesTimeEarly(ops, j);
      }
    }
  }

  // ---------- who may overlap ----------

  /**
   One party's operations: any number of the callback's writes, or the same from the unverified fallback
   that writes outside the chain's lock, or unlinks alone: a completed goal, or the dispatcher's sweep of
   an aged flag, which takes no lock either (scripts/dispatch.py:2688-2693, 2717-2721).
   */
  ghost predicate Party(ops: seq<Op>) {
    (exists p, w, now :: ops <= PersistOps(p, w, now)) || forall j | 0 <= j < |ops| :: !ops[j].WriteFlag?
  }

  /** `ops` interleaves the parties' operations, each party's in its own order. */
  ghost predicate Merges(ops: seq<Op>, parties: seq<seq<Op>>)
    decreases |ops|
  {
    if ops == [] then forall k | 0 <= k < |parties| :: parties[k] == []
    else exists k :: 0 <= k < |parties| && parties[k] != [] && parties[k][0] == ops[0]
                     && Merges(ops[1..], parties[k := parties[k][1..]])
  }

  lemma PartyIsOrdered(ops: seq<Op>)
    requires Party(ops)
    ensures TimesBeforeFlags(ops)
  {
    forall j | 0 <= j < |ops| && ops[j].WriteFlag? ensures WritesTime(ops[..j]) {
      var p, w, now :| ops <= PersistOps(p, w, now);
      FirstWrites(p, w, now);
      assert PersistOps(p, w, now)[j] == ops[j];
      assert ops[..j][1] == WriteTs(now);
    }
  }

  lemma TailIsOrdered(ops: seq<Op>)
    requires ops != [] && TimesBeforeFlags(ops) && !ops[0].WriteTs?
    ensures !ops[0].WriteFlag? && TimesBeforeFlags(ops[1..])
  {
    assert !WritesTime(ops[..0]);
    var rest := ops[1..];
    forall j | 0 <= j < |rest| && rest[j].WriteFlag? ensures WritesTime(rest[..j]) {
      assert ops[j + 1].WriteFlag?;
      var i :| 0 <= i < j + 1 && ops[..j + 1][i].WriteTs?;
      assert rest[..j][i - 1].WriteTs?;
    }
  }

  lemma ConsIsOrdered(ops: seq<Op>)
    requires ops != [] && !ops[0].WriteFlag? && (ops[0].WriteTs? || TimesBeforeFlags(ops[1..]))
    ensures TimesBeforeFlags(ops)
  {
    forall j | 0 <= j < |ops| && ops[j].WriteFlag? ensures WritesTime(ops[..j]) {
      if ops[0].WriteTs? {
        assert ops[..j][0].WriteTs?;
      } else {
        assert ops[1..][j - 1].WriteFlag?;
        var i :| 0 <= i < j - 1 && ops[1..][..j - 1][i].WriteTs?;
        assert ops[..j][i + 1].WriteTs?;
      }
    }
  }

  /** Overlapping does not put a flag before the first time. */
  lemma {:induction false} MergeIsOrdered(ops: seq<Op>, parties: seq<seq<Op>>)
    requires Merges(ops, parties) && forall k | 0 <= k < |parties| :: TimesBeforeFlags(parties[k])
    ensures TimesBeforeFlags(ops)
    decreases |ops|
  {
    if ops != [] {
      var k :| 0 <= k < |parties| && parties[k] != [] && parties[k][0] == ops[0]
               && Merges(ops[1..], parties[k := parties[k][1..]]);
      if !ops[0].WriteTs? {
        TailIsOrdered(parties[k]);
        MergeIsOrdered(ops[1..], parties[k := parties[k][1..]]);
      } else {
        assert TimesBeforeFlags(parties[k]);
      }
      ConsIsOrdered(ops);
    }
  }

  /** So for any parties, overlapping in any way, each possibly killed anywhere, the condition is exact. */
  lemma OverlapMarkedExactly(d: Disk, ops: seq<Op>, parties: seq<seq<Op>>)
    requires Marked(d) && Merges(ops, parties) && forall k | 0 <= k < |parties| :: Party(parties[k])
    ensures Marked(DoAll(d, ops)) <==> !(FlagStands(d.clearFlag.Some?, ops) && TimeLost(ops))
  {
    forall k | 0 <= k < |parties| ensures TimesBeforeFlags(parties[k]) {
      PartyIsOrdered(parties[k]);
    }
    MergeIsOrdered(ops, parties);
    MarkedExactly(d, ops);
  }

  // ---------- one party alone ----------

  lemma NothingLost(ops: seq<Op>)
    requires forall j | 0 <= j < |ops| :: !ops[j].UnlinkTs?
    ensures !TimeLost(ops)
  {
    TimeLostExactly(ops);
  }

  /** Kill a lone writer after any number of its writes, however they fared: the flag still has its time. */
  lemma WriterCrashesSafely(d: Disk, p: Payload, w: Writes, now: int, k: nat)
    requires Marked(d) && k <= |PersistOps(p, w, now)|
    ensures Marked(DoAll(d, PersistOps(p, w, now)[..k]))
    ensures k < 3 ==> (DoAll(d, PersistOps(p, w, now)[..k]).clearFlag.Some? <==> d.clearFlag.Some?)
  {
    WritesOf(p, w, now, k);
    MarkedWithoutUnlinks(d, PersistOps(p, w, now)[..k], k < 3);
  }

  /** A writer's first `k` writes unlink nothing, and the flag is the third. */
  lemma WritesOf(p: Payload, w: Writes, now: int, k: nat)
    requires k <= |PersistOps(p, w, now)|
    ensures var ops := PersistOps(p, w, now)[..k];
            && Party(ops) && (forall j | 0 <= j < |ops| :: !ops[j].UnlinkTs? && !ops[j].UnlinkFlag?)
            && (k < 3 ==> forall j | 0 <= j < |ops| :: !ops[j].WriteFlag?)
  {
    var all := PersistOps(p, w, now);
    FirstWrites(p, w, now);
    assert all[..k] <= all;
  }

  predicate Harmless(op: Op) {
    !op.WriteFlag? && !op.UnlinkTs? && !op.UnlinkFlag?
  }

  /** Three writes and then only harmless ones, or a beginning of the three. */
  lemma ThreeAndHarmless(a: Op, b: Op, c: Op, x: seq<Op>, y: seq<Op>, z: seq<Op>, ops: seq<Op>)
    requires Harmless(a) && Harmless(b) && !c.UnlinkTs? && !c.UnlinkFlag?
    requires forall op | op in x || op in y || op in z :: Harmless(op)
    requires ops <= [a, b, c] + x + y + z
    ensures forall j | 0 <= j < |ops| :: !ops[j].UnlinkTs? && !ops[j].UnlinkFlag?
    ensures forall j | 0 <= j < |ops| && ops[j].WriteFlag? :: j == 2
    ensures |ops| > 1 ==> ops[1] == b
  {
    var all := [a, b, c] + x + y + z;
    forall j | 0 <= j < |ops|
      ensures !ops[j].UnlinkTs? && !ops[j].UnlinkFlag? && (ops[j].WriteFlag? ==> j == 2) && (j == 1 ==> ops[j] == b)
    {
      assert ops[j] == all[j];
      if j >= 3 {
        assert all[j] in x || all[j] in y || all[j] in z;
      }
    }
  }

  lemma FirstWrites(p: Payload, w: Writes, now: int)
    ensures var ops := PersistOps(p, w, now);
            && (forall j | 0 <= j < |ops| :: !ops[j].UnlinkTs? && !ops[j].UnlinkFlag?)
            && (forall j | 0 <= j < |ops| && ops[j].WriteFlag? :: j == 2)
            && (|ops| > 1 ==> ops[1] == WriteTs(now))
  {
    var x := if p.transcript != "" && p.summaryHold && !w.handoffExists && w.holdOk then [TakeHold(p.transcript)] else [];
    var y :=
      if p.transcript != "" && p.pane.Some? && w.sidecarOk then [WriteSidecar(p.pane.value, p.transcript)] else [];
    var z := if p.countTowardCooldown && w.cooldownOk then [StampCooldown(now)] else [];
    ThreeAndHarmless(WriteDirective(p.directive), WriteTs(now), WriteFlag(p.directive, now), x, y, z,
                     PersistOps(p, w, now));
  }

  lemma MarkedWithoutUnlinks(d: Disk, ops: seq<Op>, early: bool)
    requires Marked(d) && Party(ops) && forall j | 0 <= j < |ops| :: !ops[j].UnlinkTs? && !ops[j].UnlinkFlag?
    requires early ==> forall j | 0 <= j < |ops| :: !ops[j].WriteFlag?
    ensures Marked(DoAll(d, ops)) && (early ==> (DoAll(d, ops).clearFlag.Some? <==> d.clearFlag.Some?))
  {
    PartyIsOrdered(ops);
    NothingLost(ops);
    MarkedExactly(d, ops);
    FlagAtTheEnd(d, ops);
    if early {
      NoFlagOpYet(d.clearFlag.Some?, ops);
    }
  }

  lemma {:induction false} NoFlagOpYet(was: bool, ops: seq<Op>)
    requires forall j | 0 <= j < |ops| :: !ops[j].WriteFlag? && !ops[j].UnlinkFlag?
    ensures FlagStands(was, ops) == was
  {
    if ops != [] {
      NoFlagOpYet(was, ops[..|ops| - 1]);
    }
  }

  /** Nor does killing a lone consumer leave a flag without it: the flag goes first. */
  lemma ConsumerCrashesSafely(d: Disk, k: nat)
    requires Marked(d) && k <= |CONSUME_OPS|
    ensures Marked(DoAll(d, CONSUME_OPS[..k]))
    ensures k > 0 ==> DoAll(d, CONSUME_OPS[..k]).clearFlag.None?
  {
    var ops := CONSUME_OPS[..k];
    assert Party(ops);
    PartyIsOrdered(ops);
    MarkedExactly(d, ops);
    FlagAtTheEnd(d, ops);
    if k > 0 {
      FlagGone(d.clearFlag.Some?, ops);
    }
  }

  lemma {:induction false} FlagGone(was: bool, ops: seq<Op>)
    requires ops != [] && ops[0].UnlinkFlag? && forall j | 0 <= j < |ops| :: !ops[j].WriteFlag?
    ensures !FlagStands(was, ops)
  {
    if |ops| > 1 {
      FlagGone(was, ops[..|ops| - 1]);
    }
  }

  lemma ConsumedAtOnce(d: Disk)
    ensures DoAll(d, CONSUME_OPS) == d.(clearFlag := None, clearTs := None, sessionStamp := false)
  {
    assert CONSUME_OPS[..2] == [UnlinkFlag, UnlinkTs] && CONSUME_OPS[..2][..1] == [UnlinkFlag];
    assert DoAll(d, [UnlinkFlag]) == Do(d, UnlinkFlag) by {
      assert [UnlinkFlag][..0] == [];
    }
    assert DoAll(d, CONSUME_OPS[..2]) == Do(Do(d, UnlinkFlag), UnlinkTs);
  }

  lemma {:induction false} DoAllConcat(d: Disk, a: seq<Op>, b: seq<Op>)
    ensures DoAll(d, a + b) == DoAll(DoAll(d, a), b)
  {
    if b == [] {
      assert a + b == a;
    } else {
      DoAllConcat(d, a, b[..|b| - 1]);
      assert (a + b)[..|a + b| - 1] == a + b[..|b| - 1];
    }
  }

  lemma DoOne(d: Disk, op: Op)
    ensures DoAll(d, [op]) == Do(d, op)
  {
    assert [op][..0] == [];
  }

  /** What the callback leaves on disk if no write raises, file by file. */
  lemma PersistedExactly(d: Disk, p: Payload, w: Writes, now: int)
    requires w.raisesAt.Some? ==> w.raisesAt.value >= 3
    ensures var named := p.transcript != "";
            var after := DoAll(d, PersistOps(p, w, now));
            && after.directive == Some(p.directive + "\n")
            && after.clearTs == Some(now) && after.clearFlag == Some(Flag(p.directive, now))
            && after.hold == (if named && p.summaryHold && !w.handoffExists && w.holdOk then Some(p.transcript) else d.hold)
            && after.sidecars == (if named && p.pane.Some? && w.sidecarOk then d.sidecars[p.pane.value := p.transcript]
                                  else d.sidecars)
            && after.cooldown == (if p.countTowardCooldown && w.cooldownOk then Some(now) else d.cooldown)
            && after.sessionStamp == d.sessionStamp && after.observed == d.observed
            && after.rateFlag == d.rateFlag && after.rateSince == d.rateSince
            && after.compactFlag == d.compactFlag && after.compactTs == d.compactTs
  {
    var base := [WriteDirective(p.directive), WriteTs(now), WriteFlag(p.directive, now)];
    ThreeDone(d, base[0], base[1], base[2]);
    var holds := p.transcript != "" && p.summaryHold && !w.handoffExists && w.holdOk;
    var names := p.transcript != "" && p.pane.Some? && w.sidecarOk;
    var x := if holds then [TakeHold(p.transcript)] else [];
    var y := if names then [WriteSidecar(p.pane.value, p.transcript)] else [];
    var z := if p.countTowardCooldown && w.cooldownOk then [StampCooldown(now)] else [];
    assert PersistOps(p, w, now) == base + x + y + z;
    var after := ThreePerhaps(d, base, holds, names, p.countTowardCooldown && w.cooldownOk, TakeHold(p.transcript),
                              WriteSidecar(if names then p.pane.value else "", p.transcript), StampCooldown(now), x, y, z);
  }

  lemma ThreePerhaps(d: Disk, base: seq<Op>, first: bool, second: bool, third: bool, a: Op, b: Op, c: Op,
                     x: seq<Op>, y: seq<Op>, z: seq<Op>)
    returns (after: Disk)
    requires x == (if first then [a] else []) && y == (if second then [b] else []) && z == (if third then [c] else [])
    ensures after == DoAll(d, base + x + y + z)
    ensures var d1 := if first then Do(DoAll(d, base), a) else DoAll(d, base);
            var d2 := if second then Do(d1, b) else d1;
            after == if third then Do(d2, c) else d2
  {
    after := Perhaps(d, base, DoAll(d, base), first, a, x);
    after := Perhaps(d, base + x, after, second, b, y);
    after := Perhaps(d, base + x + y, after, third, c, z);
  }

  /** One more write, or none. */
  lemma Perhaps(d: Disk, before: seq<Op>, sofar: Disk, written: bool, op: Op, ops: seq<Op>) returns (after: Disk)
    requires sofar == DoAll(d, before) && ops == if written then [op] else []
    ensures after == DoAll(d, before + ops)
    ensures after == if written then Do(sofar, op) else sofar
  {
    DoAllConcat(d, before, ops);
    DoOne(sofar, op);
    after := DoAll(d, before + ops);
  }

  lemma ThreeDone(d: Disk, a: Op, b: Op, c: Op)
    ensures DoAll(d, [a]) == Do(d, a) && DoAll(d, [a, b]) == Do(Do(d, a), b)
    ensures DoAll(d, [a, b, c]) == Do(Do(Do(d, a), b), c)
  {
    DoOne(d, a);
    assert [a, b][..1] == [a] && [a, b, c][..2] == [a, b];
  }

  /** And if one of the first three raises: those before it, and nothing after. */
  lemma CutShortExactly(d: Disk, p: Payload, w: Writes, now: int)
    requires w.raisesAt.Some? && w.raisesAt.value < 3
    ensures var n := w.raisesAt.value;
            DoAll(d, PersistOps(p, w, now))
            == if n == 0 then d
               else if n == 1 then d.(directive := Some(p.directive + "\n"))
               else d.(directive := Some(p.directive + "\n"), clearTs := Some(now))
  {
    var a, b, c := WriteDirective(p.directive), WriteTs(now), WriteFlag(p.directive, now);
    ThreeDone(d, a, b, c);
    var n := w.raisesAt.value;
    assert PersistOps(p, w, now) == [a, b, c][..n];
    assert [a, b, c][..0] == [] && [a, b, c][..1] == [a] && [a, b, c][..2] == [a, b];
  }

  /** Two parties suffice to break it: a sweep that has taken the old flag is overtaken by a whole writer. */
  lemma OvertakenConsumerUnmarks(d: Disk, p: Payload, w: Writes, now: int)
    requires w.raisesAt.None? && Marked(d)
    ensures Merges([UnlinkFlag] + PersistOps(p, w, now) + [UnlinkTs], [[UnlinkFlag, UnlinkTs], PersistOps(p, w, now)])
    ensures !Marked(DoAll(d, [UnlinkFlag] + PersistOps(p, w, now) + [UnlinkTs]))
  {
    var writes := PersistOps(p, w, now);
    assert |writes| > 2 && writes[2].WriteFlag?;
    FirstWrites(p, w, now);
    OvertakeMerges(writes);
    assert Party([UnlinkFlag, UnlinkTs]) && Party(writes);
    OvertakenBy(d, writes);
  }

  lemma OvertakenBy(d: Disk, writes: seq<Op>)
    requires Marked(d) && Party([UnlinkFlag, UnlinkTs]) && Party(writes) && |writes| > 2 && writes[2].WriteFlag?
    requires forall j | 0 <= j < |writes| :: !writes[j].UnlinkFlag?
    requires Merges([UnlinkFlag] + writes + [UnlinkTs], [[UnlinkFlag, UnlinkTs], writes])
    ensures !Marked(DoAll(d, [UnlinkFlag] + writes + [UnlinkTs]))
  {
    var ops := [UnlinkFlag] + writes + [UnlinkTs];
    OverlapMarkedExactly(d, ops, [[UnlinkFlag, UnlinkTs], writes]);
    assert ops[3].WriteFlag? && forall j | 3 < j < |ops| :: !ops[j].UnlinkFlag?;
    FlagStaysWritten(d.clearFlag.Some?, ops, 3);
    assert ops[|ops| - 1] == UnlinkTs;
  }

  lemma {:induction false} FlagStaysWritten(was: bool, ops: seq<Op>, k: nat)
    requires k < |ops| && ops[k].WriteFlag? && forall j | k < j < |ops| :: !ops[j].UnlinkFlag?
    ensures FlagStands(was, ops)
    decreases |ops|
  {
    if k < |ops| - 1 {
      FlagStaysWritten(was, ops[..|ops| - 1], k);
    }
  }

  lemma OvertakeMerges(writes: seq<Op>)
    ensures Merges([UnlinkFlag] + writes + [UnlinkTs], [[UnlinkFlag, UnlinkTs], writes])
  {
    var ops, parties := [UnlinkFlag] + writes + [UnlinkTs], [[UnlinkFlag, UnlinkTs], writes];
    assert parties[0][1..] == [UnlinkTs] && parties[0 := [UnlinkTs]] == [[UnlinkTs], writes];
    assert ops[1..] == writes + [UnlinkTs];
    WritesThenUnlink(writes);
    assert parties[0] != [] && parties[0][0] == ops[0];
  }

  lemma {:induction false} WritesThenUnlink(writes: seq<Op>)
    ensures Merges(writes + [UnlinkTs], [[UnlinkTs], writes])
  {
    var ops, parties := writes + [UnlinkTs], [[UnlinkTs], writes];
    if writes == [] {
      assert ops == [UnlinkTs] && ops[1..] == [];
      assert parties[0][1..] == [] && parties[0 := []] == [[], []];
      assert Merges(ops[1..], parties[0 := parties[0][1..]]);
      assert parties[0] != [] && parties[0][0] == ops[0];
    } else {
      WritesThenUnlink(writes[1..]);
      assert ops[1..] == writes[1..] + [UnlinkTs];
      assert parties[1 := writes[1..]] == [[UnlinkTs], writes[1..]];
      assert parties[1] != [] && parties[1][0] == ops[0];
    }
  }

  // ---------- what may hold a clear back, and for how long ----------

  const UNARMED_MAX_AGE_S: int := 3600
  const POST_ENTER_BOUND_S: int := 180 + 600

  /** The operator's age limits; the source's defaults are a day each. */
  datatype Limits = Limits(rate: int, compact: int, clear: int)

  /** The sidecar's time, or failing that (absent or 0) the flag's own. */
  function WrittenAt(since: Option<int>, mtime: int): int {
    if since.Some? && since.value != 0 then since.value else mtime
  }

  function ClearWritten(d: Disk): int
    requires d.clearFlag.Some?
  {
    WrittenAt(d.clearTs, d.clearFlag.value.mtime)
  }

  /** A fresh session has stamped that this flag's clear ran. */
  predicate Armed(d: Disk)
    requires d.clearFlag.Some?
  {
    var seen := if d.observed.Some? then d.observed.value else 0;
    seen > 0 && ClearWritten(d) <= seen <= ClearWritten(d) + UNARMED_MAX_AGE_S
  }

  predicate RecoveryPending(d: Disk, now: int) {
    d.rateFlag.Some? || d.compactFlag.Some?
    || (d.clearFlag.Some? && (Armed(d) || now - ClearWritten(d) < UNARMED_MAX_AGE_S))
  }

  predicate RateFresh(d: Disk, now: int, l: Limits, recoveredAfter: Option<int>) {
    d.rateFlag.Some?
    && var written := WrittenAt(d.rateSince, d.rateFlag.value);
       !(recoveredAfter.Some? && written < recoveredAfter.value) && now - written < l.rate
  }

  predicate CompactFresh(d: Disk, now: int, l: Limits) {
    d.compactFlag.Some? && now - WrittenAt(d.compactTs, d.compactFlag.value) < l.compact
  }

  predicate ClearFresh(d: Disk, now: int, l: Limits) {
    d.clearFlag.Some? && now - ClearWritten(d) < (if Armed(d) then l.clear else POST_ENTER_BOUND_S)
  }

  /** `_recovery_ok`; `persisted` is whether this very chain has written the clear flag. */
  predicate RecoveryOk(d: Disk, now: int, l: Limits, recoveredAfter: Option<int>, persisted: bool) {
    !RecoveryPending(d, now)
    || !(RateFresh(d, now, l, recoveredAfter) || CompactFresh(d, now, l) || ClearFresh(d, now, l))
    || (persisted && d.rateFlag.None? && d.compactFlag.None?)
  }

  /** The moment each cue stops counting; None for a cue that is absent or disproved. */
  function RateEnd(d: Disk, l: Limits, recoveredAfter: Option<int>): Option<int> {
    if d.rateFlag.None? then None
    else
      var written := WrittenAt(d.rateSince, d.rateFlag.value);
      if recoveredAfter.Some? && written < recoveredAfter.value then None else Some(written + l.rate)
  }

  function CompactEnd(d: Disk, l: Limits): Option<int> {
    if d.compactFlag.None? then None else Some(WrittenAt(d.compactTs, d.compactFlag.value) + l.compact)
  }

  function ClearEnd(d: Disk, l: Limits): Option<int> {
    if d.clearFlag.None? then None
    else Some(ClearWritten(d) + if Armed(d) then l.clear else POST_ENTER_BOUND_S)
  }

  predicate Before(now: int, end: Option<int>) {
    end.Some? && now < end.value
  }

  /**
   As long as the disk stays as it is, the veto of a chain that has written nothing lasts exactly until
   the latest of three moments that can be read off the flags, and then never comes back.
   */
  lemma VetoEndsExactly(d: Disk, now: int, l: Limits, recoveredAfter: Option<int>)
    ensures !RecoveryOk(d, now, l, recoveredAfter, false)
       <==> Before(now, RateEnd(d, l, recoveredAfter)) || Before(now, CompactEnd(d, l)) || Before(now, ClearEnd(d, l))
  {
  }

  /**
   The veto, cue by cue: a cue is as old as its sidecar says, or failing that the flag itself, and counts for its
   limit; an unarmed clear flag for thirteen minutes. A chain that wrote the clear flag itself does not mind it.
   */
  lemma VetoExactly(d: Disk, now: int, l: Limits, recoveredAfter: Option<int>, persisted: bool)
    ensures var rate := if d.rateFlag.None? then 0
                        else if d.rateSince.Some? && d.rateSince.value != 0 then d.rateSince.value else d.rateFlag.value;
            var compact := if d.compactFlag.None? then 0
                           else if d.compactTs.Some? && d.compactTs.value != 0 then d.compactTs.value
                           else d.compactFlag.value;
            var clear := if d.clearFlag.None? then 0
                         else if d.clearTs.Some? && d.clearTs.value != 0 then d.clearTs.value
                         else d.clearFlag.value.mtime;
            var armed := d.observed.Some? && d.observed.value > 0 && clear <= d.observed.value <= clear + 3600;
            !RecoveryOk(d, now, l, recoveredAfter, persisted)
            <==> && (|| (d.rateFlag.Some? && now - rate < l.rate && (recoveredAfter.Some? ==> rate >= recoveredAfter.value))
                     || (d.compactFlag.Some? && now - compact < l.compact)
                     || (d.clearFlag.Some? && now - clear < if armed then l.clear else 780))
                 && (persisted ==> d.rateFlag.Some? || d.compactFlag.Some?)
  {
  }

  /** With the shipped limits no set of flags, whatever its history, vetoes for more than a day after the youngest. */
  lemma VetoIsOverInADay(d: Disk, now: int, recoveredAfter: Option<int>, youngest: int)
    requires d.rateFlag.Some? ==> WrittenAt(d.rateSince, d.rateFlag.value) <= youngest
    requires d.compactFlag.Some? ==> WrittenAt(d.compactTs, d.compactFlag.value) <= youngest
    requires d.clearFlag.Some? ==> ClearWritten(d) <= youngest
    requires now >= youngest + 86400
    ensures RecoveryOk(d, now, Limits(86400, 86400, 86400), recoveredAfter, false)
  {
    VetoEndsExactly(d, now, Limits(86400, 86400, 86400), recoveredAfter);
  }

  /** A clear flag alone that no session ever armed vetoes for thirteen minutes, not for a day. */
  lemma OrphanedFlagVetoesBriefly(d: Disk, now: int, l: Limits)
    requires d.rateFlag.None? && d.compactFlag.None? && d.clearFlag.Some? && !Armed(d)
    ensures RecoveryOk(d, now, l, None, false) <==> now >= ClearWritten(d) + 13 * 60
  {
  }
}
