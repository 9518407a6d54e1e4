/**
 Arming the heartbeat: `arm_prepare.py`, the CronDelete and CronCreate steps the skill performs in
 between, and `arm_record.py`, as one protocol that may crash between any two steps. What it is for
 is never to leave a second heartbeat firing.
 */
module ArmProtocol {
  import opened Common
  import opened Text

  // ---------- the state directory ----------

  /** The files of one project's state directory that an arm touches; None is an absent file. */
  datatype Disk = Disk(disarmed: bool, cronId: Option<string>, armedAt: Option<int>, cadence: Option<string>)

  predicate IdChar(c: char) {
    'A' <= c <= 'Z' || 'a' <= c <= 'z' || '0' <= c <= '9' || c == '_' || c == '-'
  }

  predicate ValidCronId(s: string) {
    1 <= |s| <= 64 && forall c | c in s :: IdChar(c)
  }

  /** A letter, digit, `_` or `-` by its code; one to sixty-four of them. */
  lemma ValidIdExactly(s: string)
    ensures ValidCronId(s)
       <==> 0 < |s| < 65 && forall k | 0 <= k < |s| ::
              var c := s[k] as int; 48 <= c <= 57 || 65 <= c <= 90 || 97 <= c <= 122 || c == 95 || c == 45
  {
    if forall k | 0 <= k < |s| :: IdChar(s[k]) {
      assert forall c | c in s :: IdChar(c);
    }
  }

  function RevokeOptOut(d: Disk, unlinkOk: bool): Disk {
    if unlinkOk then d.(disarmed := false) else d
  }

  /** The stored id is taken, not read: an id that could not be consumed is reported as unknown. */
  function TakeId(d: Disk, readOk: bool, unlinkOk: bool): (Disk, string) {
    if d.cronId.None? || !readOk then (d, "")
    else if !unlinkOk then (d, "")
    else (d.(cronId := None), Strip(d.cronId.value))
  }

  class StateDir {
    var disarmed: bool
    var cronId: Option<string>
    var armedAt: Option<int>
    var cadence: Option<string>

    function View(): Disk
      reads this
    {
      Disk(disarmed, cronId, armedAt, cadence)
    }

    constructor (disk: Disk)
      ensures View() == disk
    {
      disarmed, cronId, armedAt, cadence := disk.disarmed, disk.cronId, disk.armedAt, disk.cadence;
    }

    /** `arm_prepare.main`, from the first write on: the opt-out goes before anything can fail. */
    method Prepare(flagUnlinkOk: bool, readOk: bool, unlinkOk: bool) returns (prior: string, sweep: bool)
      modifies this
      ensures (View(), prior) == TakeId(RevokeOptOut(old(View()), flagUnlinkOk), readOk, unlinkOk)
      ensures sweep <==> prior == ""
    {
      if flagUnlinkOk {
        disarmed := false;
      }
      prior := TakePriorCronId(readOk, unlinkOk);
      sweep := prior == "";
    }

    method TakePriorCronId(readOk: bool, unlinkOk: bool) returns (id: string)
      modifies this
      ensures (View(), id) == TakeId(old(View()), readOk, unlinkOk)
    {
      if cronId.None? || !readOk {
        return "";
      }
      var text := Strip(cronId.value);
      if !unlinkOk {
        return "";
      }
      cronId := None;
      return text;
    }

    /** `arm_record.main`: refuses a malformed id, else writes the clock, the cadence and last the id. */
    method Record(cron: string, id: string, now: int) returns (ok: bool)
      modifies this
      ensures ok <==> Strip(cron) != "" && ValidCronId(Strip(id))
      ensures View() == if ok then Disk(old(View()).disarmed, Some(Strip(id)), Some(now), Some(Strip(cron)))
                        else old(View())
    {
      if Strip(cron) == "" {
        return false;
      }
      if !ValidCronId(Strip(id)) {
        return false;
      }
      armedAt := Some(now);
      cadence := Some(Strip(cron));
      cronId := Some(Strip(id));
      return true;
    }
  }

  function WriteClock(d: Disk, now: int): Disk { d.(armedAt := Some(now)) }
  function WriteCadence(d: Disk, cron: string): Disk { d.(cadence := Some(cron)) }
  function WriteId(d: Disk, id: string): Disk { d.(cronId := Some(id)) }

  /** What one arm records, the next one takes back unchanged. */
  lemma RecordedIdIsTaken(d: Disk, id: string)
    requires ValidCronId(id)
    ensures TakeId(WriteId(d, id), true, true) == (d.(cronId := None), id)
  {
    ValidIdIsSolid(id);
  }

  lemma IdCharIsSolid(c: char)
    requires IdChar(c)
    ensures !IsSpace(c)
  {
  }

  lemma ValidIdIsSolid(id: string)
    requires ValidCronId(id)
    ensures Strip(id) == id
  {
    assert id[0] in id && id[|id| - 1] in id;
    IdCharIsSolid(id[0]);
    IdCharIsSolid(id[|id| - 1]);
    StripKeepsSolid(id);
  }

  // ---------- the protocol ----------

  /** How far the present arm has come. `written` counts the record's files already replaced. */
  datatype Arm = Idle | Revoked | Taken(prior: string) | Cleared | Created(id: string, written: nat)

  /** `live` are the ids of this session's janitor heartbeats. */
  datatype Machine = Machine(disk: Disk, live: set<string>, arm: Arm)

  /**
   The steps of an arm in their order, and what may come between them. A step out of its turn does
   nothing. `listOk` is whether CronList worked, should the step need it.
   */
  datatype Event = Revoke(unlinkOk: bool)
                 | Take(readOk: bool, unlinkOk: bool)
                 | ClearOld(listOk: bool)
                 | Create(id: string)
                 | Write(now: int, cron: string)
                 | Crash
                 | Expire(gone: set<string>)
                 | Disarm(recorded: bool)

  /**
   `fallback` tells the two protocols apart: the docstring's deletes the taken id and goes on, the
   skill's sweeps when that delete finds nothing.
   */
  function DeleteOld(live: set<string>, prior: string, fallback: bool, listOk: bool): set<string> {
    if prior == "" then (if listOk then {} else live)
    else if prior in live then live - {prior}
    else if fallback && listOk then {}
    else live
  }

  function Step(m: Machine, e: Event, fallback: bool): Machine {
    match e
    case Revoke(ok) => if m.arm.Idle? then m.(disk := RevokeOptOut(m.disk, ok), arm := Revoked) else m
    case Take(readOk, unlinkOk) =>
      if m.arm.Revoked? then
        var (d, prior) := TakeId(m.disk, readOk, unlinkOk);
        m.(disk := d, arm := Taken(prior))
      else m
    case ClearOld(listOk) =>
      if m.arm.Taken? then m.(live := DeleteOld(m.live, m.arm.prior, fallback, listOk), arm := Cleared) else m
    case Create(id) => if m.arm.Cleared? then m.(live := m.live + {id}, arm := Created(id, 0)) else m
    case Write(now, cron) => if m.arm.Created? then WriteNext(m, m.arm.id, m.arm.written, now, cron) else m
    case Crash => m.(arm := Idle)
    case Expire(gone) => m.(live := m.live - gone)
    case Disarm(recorded) =>
      if m.arm.Idle? then m.(live := {}, disk := m.disk.(disarmed := m.disk.disarmed || recorded)) else m
  }

  function WriteNext(m: Machine, id: string, written: nat, now: int, cron: string): Machine {
    if !ValidCronId(id) || cron == "" then m.(arm := Idle)
    else if written == 0 then m.(disk := WriteClock(m.disk, now), arm := Created(id, 1))
    else if written == 1 then m.(disk := WriteCadence(m.disk, cron), arm := Created(id, 2))
    else m.(disk := WriteId(m.disk, id), arm := Idle)
  }

  function Run(m: Machine, es: seq<Event>, fallback: bool): Machine {
    if es == [] then m else Step(Run(m, es[..|es| - 1], fallback), es[|es| - 1], fallback)
  }

  /** The undisturbed record is the three writes in a row. */
  lemma WritesMakeTheRecord(m: Machine, id: string, now: int, cron: string, fallback: bool)
    requires m.arm == Created(id, 0) && ValidCronId(id) && cron != ""
    ensures Run(m, [Write(now, cron), Write(now, cron), Write(now, cron)], fallback)
         == m.(disk := WriteId(WriteCadence(WriteClock(m.disk, now), cron), id), arm := Idle)
  {
    var w := Write(now, cron);
    assert [w, w, w][..2] == [w, w] && [w, w][..1] == [w];
    assert Run(m, [w], fallback) == m.(disk := WriteClock(m.disk, now), arm := Created(id, 1)) by {
      assert [w][..0] == [];
    }
    assert Run(m, [w, w], fallback)
        == m.(disk := WriteCadence(WriteClock(m.disk, now), cron), arm := Created(id, 2));
  }

  // ---------- the docstring's protocol ----------

  /** An id is on disk, so the next arm may trust it. */
  predicate Stored(d: Disk) {
    d.cronId.Some? && Strip(d.cronId.value) != ""
  }

  ghost predicate AtMostOne(live: set<string>) {
    forall a, b | a in live && b in live :: a == b
  }

  ghost predicate Linked(m: Machine) {
    Stored(m.disk) ==> m.live <= {Strip(m.disk.cronId.value)}
  }

  /** At every point of every arm: one heartbeat at most, and between arms a stored id is its id. */
  ghost predicate Safe(m: Machine) {
    && AtMostOne(m.live)
    && match m.arm
       case Idle => Linked(m)
       case Revoked => Linked(m)
       case Taken(prior) => Linked(m) && (prior != "" ==> m.live <= {prior} && !Stored(m.disk))
       case Cleared => m.live == {}
       case Created(id, written) => m.live <= {id}
  }

  /** The arm stops here without recording its cron: the turn dies, or the record is refused. */
  predicate Abandons(m: Machine, e: Event) {
    m.arm.Created? && (e.Crash? || (e.Write? && (!ValidCronId(m.arm.id) || e.cron == "")))
  }

  /** An arm that could not consume the stored id, and never records its own cron instead. */
  predicate LeavesStaleId(m: Machine, e: Event) {
    Abandons(m, e) && Stored(m.disk) && Strip(m.disk.cronId.value) != m.arm.id
  }

  /** A sweep is needed, CronList fails, and a heartbeat stays behind that the arm goes on without seeing. */
  predicate SweepMisses(m: Machine, e: Event, fallback: bool) {
    m.arm.Taken? && e.ClearOld? && !e.listOk && DeleteOld(m.live, m.arm.prior, fallback, false) != {}
  }

  /** Neither misfortune happens anywhere in the run. */
  ghost predicate Fortunate(m: Machine, es: seq<Event>, fallback: bool) {
    forall n | 0 <= n < |es| ::
      var w := Run(m, es[..n], fallback);
      !LeavesStaleId(w, es[n]) && !SweepMisses(w, es[n], fallback)
  }

  lemma StepKeepsSafe(m: Machine, e: Event, fallback: bool)
    requires Safe(m) && !LeavesStaleId(m, e) && !SweepMisses(m, e, fallback)
    ensures Safe(Step(m, e, fallback))
  {
    match e
    case Write(now, cron) =>
      if m.arm.Created? {
        WriteKeepsSafe(m, now, cron, fallback);
      }
    case Revoke(_) =>
    case Take(_, _) =>
    case ClearOld(_) =>
    case Create(_) =>
    case Crash =>
    case Expire(_) =>
    case Disarm(_) =>
  }

  lemma WriteKeepsSafe(m: Machine, now: int, cron: string, fallback: bool)
    requires Safe(m) && m.arm.Created? && !LeavesStaleId(m, Write(now, cron))
    ensures Safe(Step(m, Write(now, cron), fallback))
  {
    if ValidCronId(m.arm.id) {
      ValidIdIsSolid(m.arm.id);
    }
  }

  /**
   Crash the arm anywhere, as often as you like, let every file operation fail at will: there is
   never a second heartbeat, unless some one arm both fails to consume the stored id and then fails
   to record its own cron, or a sweep it needs cannot list the heartbeat that is live.
   */
  lemma {:induction false} NeverTwoHeartbeats(m: Machine, es: seq<Event>, fallback: bool)
    requires Safe(m) && Fortunate(m, es, fallback)
    ensures Safe(Run(m, es, fallback))
  {
    if es != [] {
      var n := |es| - 1;
      var before := es[..n];
      forall k | 0 <= k < n ensures es[..k] == before[..k] && es[k] == before[k] {
      }
      assert Fortunate(m, before, fallback) by {
        forall k | 0 <= k < |before|
          ensures var w := Run(m, before[..k], fallback); !LeavesStaleId(w, before[k]) && !SweepMisses(w, before[k], fallback)
        {
          assert es[..k] == before[..k];
        }
      }
      NeverTwoHeartbeats(m, before, fallback);
      StepKeepsSafe(Run(m, before, fallback), es[n], fallback);
    }
  }

  /** The exception is exact: with its cron live, giving up an arm keeps the guarantee iff it leaves no stale id. */
  lemma StaleIdIsTheOnlyException(m: Machine, e: Event, fallback: bool)
    requires Safe(m) && Abandons(m, e) && m.live == {m.arm.id}
    ensures Safe(Step(m, e, fallback)) <==> !LeavesStaleId(m, e)
  {
    if LeavesStaleId(m, e) {
      assert Step(m, e, fallback) == m.(arm := Idle);
      assert m.arm.id in m.live;
    } else {
      StepKeepsSafe(m, e, fallback);
    }
  }

  /** A missed sweep is the other exception, exactly: the next cron is a second one, unless the arm dies first. */
  lemma MissedSweepLeaks(m: Machine, e: Event, fallback: bool, id: string)
    requires AtMostOne(m.live) && SweepMisses(m, e, fallback) && id !in m.live
    ensures !AtMostOne(Step(Step(m, e, fallback), Create(id), fallback).live)
    ensures Safe(m) ==> Safe(Step(Step(m, e, fallback), Crash, fallback))
  {
    var left := DeleteOld(m.live, m.arm.prior, fallback, false);
    var x :| x in left;
    assert x in Step(Step(m, e, fallback), Create(id), fallback).live;
    assert id in Step(Step(m, e, fallback), Create(id), fallback).live;
  }

  /** One whole arm, in whose course the world may misbehave as the flags say. */
  function WholeArm(take: Event, id: string): seq<Event> {
    [Revoke(true), take, ClearOld(true), Create(id)]
  }

  lemma RunFour(m: Machine, a: Event, b: Event, c: Event, d: Event, fallback: bool)
    ensures Run(m, [a, b, c, d], fallback)
         == Step(Step(Step(Step(m, a, fallback), b, fallback), c, fallback), d, fallback)
  {
    assert [a, b, c, d][..3] == [a, b, c] && [a, b, c][..2] == [a, b] && [a, b][..1] == [a] && [a][..0] == [];
    assert Run(m, [a], fallback) == Step(m, a, fallback);
    assert Run(m, [a, b], fallback) == Step(Run(m, [a], fallback), b, fallback);
    assert Run(m, [a, b, c], fallback) == Step(Run(m, [a, b], fallback), c, fallback);
  }

  /**
   The exception is real, from every safe state with an id on disk: an arm that cannot unlink it and
   dies after CronCreate leaks its cron, because the next arm, itself flawless, trusts the stale id.
   */
  lemma StaleIdLeaks(m: Machine, first: string, second: string)
    requires Safe(m) && m.arm.Idle? && Stored(m.disk)
    requires first != second && Strip(m.disk.cronId.value) != first
    ensures var crashed := Step(Run(m, WholeArm(Take(true, false), first), false), Crash, false);
            && Run(crashed, WholeArm(Take(true, true), second), false).live == {first, second}
            && LeavesStaleId(Run(m, WholeArm(Take(true, false), first), false), Crash)
  {
    RunFour(m, Revoke(true), Take(true, false), ClearOld(true), Create(first), false);
    var created := Run(m, WholeArm(Take(true, false), first), false);
    assert created.live == {first} && created.disk.cronId == m.disk.cronId;
    var crashed := Step(created, Crash, false);
    RunFour(crashed, Revoke(true), Take(true, true), ClearOld(true), Create(second), false);
  }

  /**
   What it is all for: an arm that nothing disturbs ends with its own heartbeat as the only one, recorded and with
   the opt-out gone, whatever was live and on disk before, short of an unlisted heartbeat no id tells of.
   */
  lemma FlawlessArm(m: Machine, id: string, now: int, cron: string, fallback: bool)
    requires Safe(m) && m.arm.Idle? && ValidCronId(id) && cron != ""
    ensures Run(m, WholeArm(Take(true, true), id) + [Write(now, cron), Write(now, cron), Write(now, cron)], fallback)
         == Machine(Disk(false, Some(id), Some(now), Some(cron)), {id}, Idle)
  {
    var first, w := WholeArm(Take(true, true), id), Write(now, cron);
    RunFour(m, Revoke(true), Take(true, true), ClearOld(true), Create(id), fallback);
    var created := Run(m, first, fallback);
    assert created == Machine(Disk(false, None, m.disk.armedAt, m.disk.cadence), {id}, Created(id, 0));
    WritesMakeTheRecord(created, id, now, cron, fallback);
    RunOn(m, first, [w, w, w], fallback);
  }

  lemma {:induction false} RunOn(m: Machine, a: seq<Event>, b: seq<Event>, fallback: bool)
    ensures Run(m, a + b, fallback) == Run(Run(m, a, fallback), b, fallback)
  {
    if b == [] {
      assert a + b == a;
    } else {
      RunOn(m, a, b[..|b| - 1], fallback);
      assert (a + b)[..|a + b| - 1] == a + b[..|b| - 1];
    }
  }

  // ---------- the skill's protocol ----------

  /** With the fallback a stored id need only be right when it names a live cron. */
  ghost predicate SafeWithFallback(m: Machine) {
    && AtMostOne(m.live) && (m.arm.Cleared? ==> m.live == {})
  }

  lemma FallbackStep(m: Machine, e: Event)
    requires SafeWithFallback(m) && !SweepMisses(m, e, true)
    ensures SafeWithFallback(Step(m, e, true))
  {
  }

  /** Sweeping whenever the targeted delete finds nothing removes the exception altogether. */
  lemma {:induction false} FallbackHeals(m: Machine, es: seq<Event>)
    requires SafeWithFallback(m)
    requires forall n | 0 <= n < |es| :: !SweepMisses(Run(m, es[..n], true), es[n], true)
    ensures SafeWithFallback(Run(m, es, true))
  {
    if es != [] {
      var n := |es| - 1;
      var before := es[..n];
      forall k | 0 <= k < n ensures !SweepMisses(Run(m, before[..k], true), before[k], true) {
        assert es[..k] == before[..k] && es[k] == before[k];
      }
      FallbackHeals(m, before);
      FallbackStep(Run(m, before, true), es[n]);
    }
  }

  // ---------- the opt-out ----------

  /** A cron of ours and the user's opt-out never stand side by side, nor does an arm run under one. */
  ghost predicate NoStaleOptOut(m: Machine) {
    m.disk.disarmed ==> m.live == {} && m.arm.Idle?
  }

  /** The unlink of an opt-out that is there fails, and the arm goes on. */
  predicate RevokeFails(m: Machine, e: Event) {
    m.arm.Idle? && e.Revoke? && !e.unlinkOk && m.disk.disarmed
  }

  /**
   The opt-out is revoked before the first cron operation: wherever an arm dies, there is no cron
   left beside an opt-out that would hide it from the fleet guardian. Only a failed unlink breaks it.
   */
  lemma {:induction false} OptOutGoesFirst(m: Machine, es: seq<Event>, fallback: bool)
    requires NoStaleOptOut(m)
    requires forall n | 0 <= n < |es| :: !RevokeFails(Run(m, es[..n], fallback), es[n])
    ensures NoStaleOptOut(Run(m, es, fallback))
  {
    if es != [] {
      var n := |es| - 1;
      var before := es[..n];
      forall k | 0 <= k < n ensures !RevokeFails(Run(m, before[..k], fallback), before[k]) {
        assert es[..k] == before[..k] && es[k] == before[k];
      }
      OptOutGoesFirst(m, before, fallback);
      FailedRevokeIsTheOnlyException(Run(m, before, fallback), es[n], fallback);
    }
  }

  /** Between arms a disarm stops every heartbeat, and an opt-out once there stays. */
  lemma DisarmExactly(m: Machine, recorded: bool, fallback: bool)
    requires m.arm.Idle?
    ensures var t := Step(m, Disarm(recorded), fallback);
            t.live == {} && t.arm.Idle? && t.disk == m.disk.(disarmed := recorded || m.disk.disarmed)
  {
  }

  /** And it does break it: from a state in order a step loses the guarantee if and only if it is such an unlink, */
  lemma FailedRevokeIsTheOnlyException(m: Machine, e: Event, fallback: bool)
    requires NoStaleOptOut(m)
    ensures NoStaleOptOut(Step(m, e, fallback)) <==> !RevokeFails(m, e)
  {
  }

  /** and the rest of that arm, however flawless, leaves a cron beside the opt-out. */
  lemma FailedRevokeHidesCron(m: Machine, take: Event, id: string, fallback: bool)
    requires m.arm.Idle? && m.disk.disarmed && take.Take?
    ensures var w := Run(m, [Revoke(false), take, ClearOld(true), Create(id)], fallback);
            w.disk.disarmed && id in w.live
  {
    RunFour(m, Revoke(false), take, ClearOld(true), Create(id), fallback);
  }
}
