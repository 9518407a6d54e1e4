/**
 The fleet guardian's recovery ladder (`task_session_liveness` and its `_decline` closure,
 scripts/daemon.py:1927-2511; scripts/lib/fleet_recovery.py): one persisted record, driven by the beats of
 all processes that share it (RecoveryFleet says which do). The guarantees count events over whole runs.
 */
module RecoveryLadder {
  import opened Common

  const COOLDOWN_S: nat := 900
  const MAX_ATTEMPTS: nat := 4
  /** `_STALL_ESCALATE_S`: an operator's knob, any non-negative number of seconds. */
  const STALL_ESCALATE_S: nat

  datatype Diagnosis = Unarmed | ServerOwned | Healthy
                     | Dead | RetryWedged | Frozen | VersionMismatch | CronDead
  datatype Rung = Rearm | Reload | EscNudge | Relaunch

  datatype Reason = Unreachable | Wedged | RetryWedgeOnScreen | OwnCommandUnsubmittable | FieldBusy
                  | DryRun | PolicyRefused | DeferredPresence | ChannelRejected

  /** The audited signature of a decision that tried nothing; an awaiting-user beat has its own. */
  datatype Signature = DeclineSig(reason: Reason, rung: Rung) | AwaitSig(rung: Rung)

  /** How the pane actuator answered; `Landed` means a keystroke was accepted, whether or not it took. */
  datatype Actuation = Noop | Deferred | NotTouched | Landed(ok: bool)

  /** Everything the beat sees of one claude process. */
  datatype Instance = Instance(root: string, identity: string, diagnosis: Diagnosis,
                               rateLimitedFlag: bool, awaitingUser: bool, trailingEnqueues: nat,
                               relaunchPlan: bool, paneShowsWedge: bool, injectionPlan: bool,
                               fieldBusy: bool, fieldOurs: bool, submitted: bool, actuation: Actuation)

  datatype Beat = Beat(inst: Instance, now: int, fire: bool)

  /** The record persisted per project root. */
  datatype Record = Record(attempts: nat, lastTs: Option<int>, identity: string,
                           lastAudit: Option<Signature>, sigSince: int, escalated: bool, alerted: bool)

  function Blank(identity: string): Record {
    Record(0, None, identity, None, 0, false, false)
  }

  // ---------- the pure policy ----------

  predicate Actionable(d: Diagnosis) {
    d.Dead? || d.RetryWedged? || d.Frozen? || d.VersionMismatch? || d.CronDead?
  }

  function ActionFor(d: Diagnosis): Rung
    requires Actionable(d)
  {
    match d
    case CronDead => Rearm
    case VersionMismatch => Reload
    case RetryWedged => EscNudge
    case Frozen => EscNudge
    case Dead => Relaunch
  }

  predicate InjectionIsHard(d: Diagnosis) {
    d.Frozen? || d.RetryWedged?
  }

  datatype Gate = CrashLoop | Cooldown | Proceed

  function GateOf(lastTs: Option<int>, attempts: nat, now: int): Gate {
    if attempts >= MAX_ATTEMPTS then CrashLoop
    else if lastTs.Some? && now - lastTs.value < COOLDOWN_S then Cooldown
    else Proceed
  }

  // ---------- one decision ----------

  datatype Verdict = Awaits(rung: Rung) | Declines(reason: Reason, rung: Rung)
                   | SubmitsOwn(rung: Rung) | Fires(rung: Rung)

  /** The guards below the gate, in the source's order. */
  function Judge(i: Instance, fire: bool): Verdict
    requires Actionable(i.diagnosis)
  {
    var rung := ActionFor(i.diagnosis);
    if i.awaitingUser then Awaits(rung)
    else if rung.Relaunch? then (if i.relaunchPlan then Fires(rung) else Declines(Unreachable, rung))
    else if i.trailingEnqueues >= 1 && !InjectionIsHard(i.diagnosis) then Declines(Wedged, rung)
    else if i.paneShowsWedge && !InjectionIsHard(i.diagnosis) then Declines(RetryWedgeOnScreen, rung)
    else if !i.injectionPlan then Declines(Unreachable, rung)
    else if i.fieldBusy then
      if i.fieldOurs then (if i.submitted then SubmitsOwn(rung) else Declines(OwnCommandUnsubmittable, rung))
      else Declines(FieldBusy, rung)
    else if !fire then Declines(DryRun, rung)
    else match i.actuation
         case Noop => Declines(PolicyRefused, rung)
         case Deferred => Declines(DeferredPresence, rung)
         case NotTouched => Declines(ChannelRejected, rung)
         case Landed(_) => Fires(rung)
  }

  /** What a beat leaves in the record's history. A submitted own command and a cooldown leave nothing. */
  datatype Kind = Declined(sig: Signature) | Awaited(sig: Signature) | Fired(rung: Rung) | GaveUp
  datatype Entry = Entry(who: string, kind: Kind, t: int, audited: bool, escalated: bool)

  function DeclineRecord(st: Record, sig: Signature, identity: string, now: int): (Record, Entry) {
    var changed := st.lastAudit != Some(sig);
    var since := if changed then now else st.sigSince;
    var was := !changed && st.escalated;
    var escalates := !was && now - since >= STALL_ESCALATE_S;
    (st.(lastTs := Some(now), identity := identity, lastAudit := Some(sig), sigSince := since,
         escalated := was || escalates),
     Entry(identity, Declined(sig), now, changed, escalates))
  }

  /** The record a beat works on: its own, or a fresh one. */
  function Working(rec: Option<Record>, identity: string): Record {
    if rec.Some? && rec.value.identity == identity then rec.value else Blank(identity)
  }

  /** One instance in one beat: the record afterwards, and what was entered in its history. */
  function Step(rec: Option<Record>, b: Beat): (Option<Record>, seq<Entry>) {
    var i := b.inst;
    if !Actionable(i.diagnosis) then
      (if i.rateLimitedFlag then (rec, []) else (None, []))
    else
      var st := Working(rec, i.identity);
      match GateOf(st.lastTs, st.attempts, b.now)
      case CrashLoop =>
        if st.alerted then (rec, [])
        else (Some(st.(alerted := true, identity := i.identity)), [Entry(i.identity, GaveUp, b.now, true, false)])
      case Cooldown => (rec, [])
      case Proceed =>
        match Judge(i, b.fire)
        case Awaits(rung) =>
          (Some(Blank(i.identity).(attempts := st.attempts, lastTs := Some(b.now), lastAudit := Some(AwaitSig(rung)))),
           [Entry(i.identity, Awaited(AwaitSig(rung)), b.now, st.lastAudit != Some(AwaitSig(rung)), false)])
        case Declines(reason, rung) =>
          var (st', e) := DeclineRecord(st, DeclineSig(reason, rung), i.identity, b.now);
          (Some(st'), [e])
        case SubmitsOwn(_) => (rec, [])
        case Fires(rung) =>
          (Some(Blank(i.identity).(attempts := st.attempts + 1, lastTs := Some(b.now))),
           [Entry(i.identity, Fired(rung), b.now, true, false)])
  }

  function Play(rec: Option<Record>, beats: seq<Beat>): (Option<Record>, seq<Entry>) {
    if beats == [] then (rec, [])
    else
      var (before, h) := Play(rec, beats[..|beats| - 1]);
      var (after, more) := Step(before, beats[|beats| - 1]);
      (after, h + more)
  }

  lemma PlaySnoc(rec: Option<Record>, beats: seq<Beat>, b: Beat)
    ensures var (mid, h) := Play(rec, beats);
            var (after, more) := Step(mid, b);
            Play(rec, beats + [b]) == (after, h + more)
  {
    assert (beats + [b])[..|beats|] == beats;
  }

  /** What every beat keeps of the record and its history, any number of beats keeps. */
  lemma {:induction false} PlayInduction(rec: Option<Record>, beats: seq<Beat>,
                                         inv: (nat, Option<Record>, seq<Entry>) -> bool)
    requires inv(0, rec, [])
    requires forall j: nat, r, h | j < |beats| && inv(j, r, h) ::
               inv(j + 1, Step(r, beats[j]).0, h + Step(r, beats[j]).1)
    ensures inv(|beats|, Play(rec, beats).0, Play(rec, beats).1)
  {
    if beats != [] {
      var before := beats[..|beats| - 1];
      assert forall j | 0 <= j < |before| :: before[j] == beats[j];
      PlayInduction(rec, before, inv);
      PlaySnoc(rec, before, beats[|beats| - 1]);
      assert before + [beats[|beats| - 1]] == beats;
    }
  }

  // ---------- one episode ----------

  predicate Held(rec: Option<Record>, identity: string) {
    rec.Some? && rec.value.identity == identity
  }

  /** A beat that leaves the record of any other process as it finds it. */
  predicate Spares(b: Beat) {
    if Actionable(b.inst.diagnosis) then Judge(b.inst, b.fire).SubmitsOwn? else b.inst.rateLimitedFlag
  }

  /** A beat that keeps the episode of `identity` going: its own, or a stranger's that spares its record. */
  predicate Keeps(b: Beat, identity: string) {
    if Actionable(b.inst.diagnosis) && b.inst.identity == identity then true else Spares(b)
  }

  /**
   Another process leaves a record and its attempts alone if and only if its beat submits its own waiting
   text, or is no recovery case and still rate-limited. Any other beat makes the owner start afresh.
   */
  lemma StrangerSparesExactly(r: Record, b: Beat)
    requires b.inst.identity != r.identity
    ensures Step(Some(r), b).0 == Some(r) <==> Spares(b)
    ensures Working(Step(Some(r), b).0, r.identity) == if Spares(b) then r else Blank(r.identity)
    ensures Spares(b) ==> Step(Some(r), b).1 == []
  {
  }

  /** However spent, a disturbed budget is full again: the owner's next beat pokes as if it were the first. */
  lemma DisturbanceRefills(r: Record, x: Beat, b: Beat)
    requires x.inst.identity != r.identity && !Spares(x) && AlwaysFires(b) && b.inst.identity == r.identity
    ensures var (rec, more) := Step(Step(Some(r), x).0, b);
            Held(rec, r.identity) && rec.value.attempts == 1 && |more| == 1 && more[0].kind.Fired?
  {
    StrangerSparesExactly(r, x);
    StepFires(Step(Some(r), x).0, b);
  }

  /** No beat of the run takes the record away from `identity` once it is its own. */
  ghost predicate Undisturbed(rec: Option<Record>, beats: seq<Beat>, identity: string) {
    forall k | 0 <= k < |beats| :: Held(Play(rec, beats[..k]).0, identity) ==> Keeps(beats[k], identity)
  }

  /** The entries of one process. */
  function Own(h: seq<Entry>, identity: string): seq<Entry> {
    if h == [] then []
    else
      var last := h[|h| - 1];
      Own(h[..|h| - 1], identity) + (if last.who == identity then [last] else [])
  }

  function FireCount(h: seq<Entry>): nat {
    if h == [] then 0 else FireCount(h[..|h| - 1]) + (if h[|h| - 1].kind.Fired? then 1 else 0)
  }

  /** What the record knows of the episode's history. */
  ghost predicate Tracks(rec: Option<Record>, identity: string, h: seq<Entry>) {
    if !Held(rec, identity) then h == []
    else
      var r := rec.value;
      && r.attempts == FireCount(h) <= MAX_ATTEMPTS
      && (r.alerted ==> r.attempts == MAX_ATTEMPTS)
      && (forall n | 0 <= n < |h| && h[n].kind.GaveUp? :: r.alerted && n == |h| - 1)
      && (r.alerted ==> h != [] && h[|h| - 1].kind.GaveUp?)
      && LastStamp(r, h)
  }

  /** The stamp and the audited signature mirror the last entry that is not a give-up. */
  ghost predicate LastStamp(r: Record, h: seq<Entry>) {
    var n := if r.alerted then |h| - 1 else |h|;
    0 <= n <= |h|
    && (n == 0 ==> r.lastTs.None? && r.lastAudit.None? && !r.escalated)
    && (n > 0 ==>
          var e := h[n - 1];
          && r.lastTs == Some(e.t)
          && match e.kind
             case Declined(sig) => r.lastAudit == Some(sig) && sig.DeclineSig?
                                   && r.sigSince == h[RunStart(h, n - 1)].t
                                   && r.escalated == EscalatedBy(h, n - 1)
             case Awaited(sig) => r.lastAudit == Some(sig) && sig.AwaitSig?
             case Fired(_) => r.lastAudit.None?
             case GaveUp => false)
  }

  predicate SameDecline(a: Entry, b: Entry) {
    a.kind.Declined? && a.kind == b.kind
  }

  /** Where the maximal run of equal declines that contains entry `n` begins. */
  function RunStart(h: seq<Entry>, n: nat): (s: nat)
    requires n < |h|
    ensures s <= n
  {
    if n > 0 && SameDecline(h[n - 1], h[n]) then RunStart(h, n - 1) else n
  }

  /** Some decline of entry `n`'s run, up to `n`, falls at least the stall threshold after the run began. */
  ghost predicate EscalatedBy(h: seq<Entry>, n: nat)
    requires n < |h|
  {
    exists k | RunStart(h, n) <= k <= n :: h[k].t - h[RunStart(h, n)].t >= STALL_ESCALATE_S
  }

  lemma {:induction false} RunStartOfPrefix(h: seq<Entry>, g: seq<Entry>, n: nat)
    requires h <= g && n < |h|
    ensures RunStart(g, n) == RunStart(h, n)
    ensures EscalatedBy(g, n) == EscalatedBy(h, n)
  {
    if n > 0 && SameDecline(h[n - 1], h[n]) {
      RunStartOfPrefix(h, g, n - 1);
    }
  }

  /** Every entry of a run belongs to the same run. */
  lemma {:induction false} RunStartInside(h: seq<Entry>, n: nat, k: nat)
    requires n < |h| && RunStart(h, n) <= k <= n
    ensures RunStart(h, k) == RunStart(h, n)
    ensures h[n].kind.Declined? ==> h[k].kind == h[n].kind
  {
    if k < n {
      RunStartInside(h, n - 1, k);
    }
  }

  /** What one entry must say, given the ones before it. */
  ghost predicate EntryOk(h: seq<Entry>, n: nat)
    requires n < |h|
  {
    && (h[n].kind.Declined? ==>
          && (h[n].audited <==> RunStart(h, n) == n)
          && (h[n].escalated <==> EscalatedBy(h, n) && (n > RunStart(h, n) ==> !EscalatedBy(h, n - 1))))
    && (n > 0 && !h[n].kind.GaveUp? ==> h[n].t - h[n - 1].t >= COOLDOWN_S)
  }

  lemma DeclineEntryOk(st: Record, h: seq<Entry>, sig: Signature, identity: string, now: int)
    requires sig.DeclineSig? && !st.alerted && LastStamp(st, h)
    requires GateOf(st.lastTs, st.attempts, now).Proceed?
    ensures var (st', e) := DeclineRecord(st, sig, identity, now);
            LastStamp(st', h + [e]) && EntryOk(h + [e], |h|)
  {
    var (st', e) := DeclineRecord(st, sig, identity, now);
    var g := h + [e];
    if st.lastAudit == Some(sig) {
      var n := |h| - 1;
      assert h[n].kind == Declined(sig) && SameDecline(g[n], g[n + 1]);
      assert RunStart(g, n + 1) == RunStart(g, n);
      RunStartOfPrefix(h, g, n);
      var s := RunStart(h, n);
      assert st'.sigSince == g[s].t;
      assert EscalatedBy(g, n + 1) <==> EscalatedBy(h, n) || now - g[s].t >= STALL_ESCALATE_S by {
        if EscalatedBy(g, n + 1) {
          var k :| s <= k <= n + 1 && g[k].t - g[s].t >= STALL_ESCALATE_S;
          assert k <= n ==> h[k].t - h[s].t >= STALL_ESCALATE_S;
        }
        if EscalatedBy(h, n) {
          var k :| s <= k <= n && h[k].t - h[s].t >= STALL_ESCALATE_S;
          assert g[k].t - g[s].t >= STALL_ESCALATE_S;
        }
        if now - g[s].t >= STALL_ESCALATE_S {
          assert g[n + 1].t - g[s].t >= STALL_ESCALATE_S;
        }
      }
    } else {
      assert |h| > 0 ==> !SameDecline(g[|h| - 1], g[|h|]);
      assert RunStart(g, |h|) == |h|;
      assert EscalatedBy(g, |h|) <==> 0 >= STALL_ESCALATE_S by {
        if 0 >= STALL_ESCALATE_S {
          assert g[|h|].t - g[|h|].t >= STALL_ESCALATE_S;
        }
      }
    }
  }

  lemma FireCountOfSnoc(h: seq<Entry>, e: Entry)
    ensures FireCount(h + [e]) == FireCount(h) + if e.kind.Fired? then 1 else 0
  {
    assert (h + [e])[..|h|] == h;
  }

  /** An awaiting-user beat and a fired rung start the record's signature afresh. */
  lemma FreshEntryOk(st: Record, h: seq<Entry>, e: Entry, r: Record)
    requires !st.alerted && LastStamp(st, h) && GateOf(st.lastTs, st.attempts, e.t).Proceed?
    requires e.kind.Awaited? || e.kind.Fired?
    requires !r.alerted && r.lastTs == Some(e.t)
    requires e.kind.Awaited? ==> e.kind.sig.AwaitSig? && r.lastAudit == Some(e.kind.sig)
    requires e.kind.Fired? ==> r.lastAudit.None?
    ensures LastStamp(r, h + [e]) && EntryOk(h + [e], |h|)
  {
  }

  lemma WorkingTracks(rec: Option<Record>, identity: string, h: seq<Entry>)
    requires Tracks(rec, identity, h)
    ensures var st := Working(rec, identity);
            && st.attempts == FireCount(h) <= MAX_ATTEMPTS && LastStamp(st, h)
            && (!st.alerted ==> forall n | 0 <= n < |h| :: !h[n].kind.GaveUp?)
  {
  }

  lemma StepTracks(rec: Option<Record>, identity: string, h: seq<Entry>, b: Beat)
    requires Tracks(rec, identity, h) && (Held(rec, identity) ==> Keeps(b, identity))
    ensures var (rec', more) := Step(rec, b);
            && |more| <= 1
            && if more != [] && more[0].who == identity then Tracks(rec', identity, h + more) && EntryOk(h + more, |h|)
               else Tracks(rec', identity, h)
  {
    if !Actionable(b.inst.diagnosis) || b.inst.identity != identity {
      StrangerTracks(rec, identity, h, b);
    } else if Step(rec, b).1 == [] {
      SilentTracks(rec, h, b);
    } else {
      StepIsOnWorking(rec, b);
      var (rec', more) := Step(rec, b);
      WorkingTracks(rec, identity, h);
      EntryTracks(Working(rec, identity), b, h, more[0], rec'.value);
    }
  }

  lemma SilentTracks(rec: Option<Record>, h: seq<Entry>, b: Beat)
    requires Tracks(rec, b.inst.identity, h) && Actionable(b.inst.diagnosis) && Step(rec, b).1 == []
    ensures Tracks(Step(rec, b).0, b.inst.identity, h)
  {
    assert Step(rec, b).0 == rec;
  }

  /** A beat that enters something works on the record it took up, and enters one thing under its own name. */
  lemma StepIsOnWorking(rec: Option<Record>, b: Beat)
    requires Actionable(b.inst.diagnosis) && Step(rec, b).1 != []
    ensures var (rec', more) := Step(rec, b);
            && rec'.Some? && more == [more[0]] && more[0].who == b.inst.identity
            && rec'.value.identity == b.inst.identity
            && Step(Some(Working(rec, b.inst.identity)), b) == (rec', more)
  {
  }

  lemma StrangerTracks(rec: Option<Record>, identity: string, h: seq<Entry>, b: Beat)
    requires Tracks(rec, identity, h) && (Held(rec, identity) ==> Spares(b))
    requires Actionable(b.inst.diagnosis) ==> b.inst.identity != identity
    ensures Tracks(Step(rec, b).0, identity, h) && |Step(rec, b).1| <= 1
    ensures forall e | e in Step(rec, b).1 :: e.who != identity
  {
    if Held(rec, identity) && b.inst.identity != identity {
      StrangerSparesExactly(rec.value, b);
    }
  }

  /** An entry that is no give-up extends a history that holds none. */
  lemma TracksSnoc(h: seq<Entry>, e: Entry, r: Record)
    requires LastStamp(r, h + [e]) && !r.alerted && !e.kind.GaveUp?
    requires forall n | 0 <= n < |h| :: !h[n].kind.GaveUp?
    requires r.attempts == FireCount(h) + (if e.kind.Fired? then 1 else 0) <= MAX_ATTEMPTS
    ensures Tracks(Some(r), r.identity, h + [e])
  {
    FireCountOfSnoc(h, e);
  }

  /** The one entry a beat makes, against the record it worked on. */
  lemma EntryTracks(st: Record, b: Beat, h: seq<Entry>, e: Entry, r: Record)
    requires st.attempts == FireCount(h) <= MAX_ATTEMPTS && LastStamp(st, h) && st.identity == b.inst.identity
    requires !st.alerted && forall n | 0 <= n < |h| :: !h[n].kind.GaveUp?
    requires Actionable(b.inst.diagnosis) && Step(Some(st), b) == (Some(r), [e])
    ensures Tracks(Some(r), b.inst.identity, h + [e]) && EntryOk(h + [e], |h|)
  {
    if GateOf(st.lastTs, st.attempts, b.now).CrashLoop? {
      StepGivesUp(Some(st), b);
      GiveUpTracks(st, h, b);
      FireCountOfSnoc(h, e);
    } else {
      ProceedTracks(st, b, h, e, r);
    }
  }

  lemma ProceedTracks(st: Record, b: Beat, h: seq<Entry>, e: Entry, r: Record)
    requires st.attempts == FireCount(h) < MAX_ATTEMPTS && LastStamp(st, h) && st.identity == b.inst.identity
    requires !st.alerted && forall n | 0 <= n < |h| :: !h[n].kind.GaveUp?
    requires Actionable(b.inst.diagnosis) && Step(Some(st), b) == (Some(r), [e])
    ensures Tracks(Some(r), b.inst.identity, h + [e]) && EntryOk(h + [e], |h|)
  {
    var v := Judge(b.inst, b.fire);
    if v.Declines? {
      DeclineEntryOk(st, h, DeclineSig(v.reason, v.rung), b.inst.identity, b.now);
    } else {
      FreshEntryOk(st, h, e, r);
    }
    TracksSnoc(h, e, r);
  }

  lemma GiveUpTracks(st: Record, h: seq<Entry>, b: Beat)
    requires LastStamp(st, h) && !st.alerted && (h == [] || !h[|h| - 1].kind.GaveUp?)
    ensures LastStamp(st.(alerted := true), h + [Entry(b.inst.identity, GaveUp, b.now, true, false)])
  {
    var g := h + [Entry(b.inst.identity, GaveUp, b.now, true, false)];
    if h != [] {
      RunStartOfPrefix(h, g, |h| - 1);
    }
  }

  ghost predicate AllOk(h: seq<Entry>) {
    forall n | 0 <= n < |h| :: EntryOk(h, n)
  }

  lemma AllOkSnoc(h: seq<Entry>, e: Entry)
    requires AllOk(h) && EntryOk(h + [e], |h|)
    ensures AllOk(h + [e])
  {
    forall n | 0 <= n < |h| ensures EntryOk(h + [e], n) {
      EntryOkOfPrefix(h, h + [e], n);
    }
  }

  lemma OwnSnoc(h: seq<Entry>, more: seq<Entry>, identity: string)
    requires |more| <= 1
    ensures Own(h + more, identity)
         == if more != [] && more[0].who == identity then Own(h, identity) + more else Own(h, identity)
  {
    if more == [] {
      assert h + more == h;
    } else {
      assert (h + more)[..|h|] == h && more == [more[0]];
    }
  }

  lemma EpisodeGoesOn(rec: Option<Record>, identity: string, beats: seq<Beat>, k: nat, r: Option<Record>, h: seq<Entry>)
    returns (after: Option<Record>, all: seq<Entry>)
    requires k < |beats| && (r, h) == Play(rec, beats[..k])
    requires Tracks(r, identity, Own(h, identity)) && AllOk(Own(h, identity))
    requires Held(r, identity) ==> Keeps(beats[k], identity)
    ensures (after, all) == Play(rec, beats[..k + 1])
    ensures Tracks(after, identity, Own(all, identity)) && AllOk(Own(all, identity))
  {
    var more := Step(r, beats[k]).1;
    after, all := Step(r, beats[k]).0, h + more;
    assert (after, all) == Play(rec, beats[..k + 1]) by {
      PlaySnoc(rec, beats[..k], beats[k]);
      assert beats[..k] + [beats[k]] == beats[..k + 1];
    }
    StepTracks(r, identity, Own(h, identity), beats[k]);
    OwnSnoc(h, more, identity);
    OwnGoesOn(after, identity, Own(h, identity), more, Own(all, identity));
  }

  lemma EpisodeTracks(rec: Option<Record>, identity: string, beats: seq<Beat>)
    requires !Held(rec, identity) && Undisturbed(rec, beats, identity)
    ensures Tracks(Play(rec, beats).0, identity, Own(Play(rec, beats).1, identity))
    ensures AllOk(Own(Play(rec, beats).1, identity))
  {
    var r, h := rec, [];
    for k := 0 to |beats|
      invariant (r, h) == Play(rec, beats[..k]) && Tracks(r, identity, Own(h, identity)) && AllOk(Own(h, identity))
    {
      r, h := EpisodeGoesOn(rec, identity, beats, k, r, h);
    }
    assert beats[..|beats|] == beats;
  }

  lemma OwnGoesOn(after: Option<Record>, identity: string, own: seq<Entry>, more: seq<Entry>, all: seq<Entry>)
    requires AllOk(own) && |more| <= 1
    requires if more != [] && more[0].who == identity
             then all == own + more && Tracks(after, identity, own + more) && EntryOk(own + more, |own|)
             else all == own && Tracks(after, identity, own)
    ensures Tracks(after, identity, all) && AllOk(all)
  {
    if more != [] && more[0].who == identity {
      assert more == [more[0]];
      AllOkSnoc(own, more[0]);
    }
  }

  lemma EntryOkOfPrefix(h: seq<Entry>, g: seq<Entry>, n: nat)
    requires h <= g && n < |h| && EntryOk(h, n)
    ensures EntryOk(g, n)
  {
    RunStartOfPrefix(h, g, n);
    if n > 0 {
      RunStartOfPrefix(h, g, n - 1);
    }
  }

  // ---------- the guarantees ----------

  /**
   Any run of a project's beats in which no other process takes the record away: what `identity` itself
   entered never exceeds the budget, its decisions of any kind are at least a cooldown apart, and its
   give-up is recorded at most once, only with the budget spent, and is the last thing it ever enters.
   */
  lemma BudgetHolds(rec: Option<Record>, identity: string, beats: seq<Beat>)
    requires !Held(rec, identity) && Undisturbed(rec, beats, identity)
    ensures var h := Own(Play(rec, beats).1, identity);
            && FireCount(h) <= MAX_ATTEMPTS
            && (forall n | 0 <= n < |h| && h[n].kind.GaveUp? :: n == |h| - 1 && FireCount(h) == MAX_ATTEMPTS)
            && (forall n | 0 < n < |h| && !h[n].kind.GaveUp? :: h[n].t - h[n - 1].t >= COOLDOWN_S)
  {
    EpisodeTracks(rec, identity, beats);
    var h := Own(Play(rec, beats).1, identity);
    forall n | 0 < n < |h| && !h[n].kind.GaveUp? ensures h[n].t - h[n - 1].t >= COOLDOWN_S {
      assert EntryOk(h, n);
    }
  }

  /** Once the budget is spent, the very next actionable beat records the give-up. */
  lemma GiveUpIsRecorded(rec: Option<Record>, identity: string, beats: seq<Beat>, next: Beat)
    requires !Held(rec, identity) && Undisturbed(rec, beats, identity)
    requires FireCount(Own(Play(rec, beats).1, identity)) == MAX_ATTEMPTS
    requires Actionable(next.inst.diagnosis) && next.inst.identity == identity
    ensures var h := Own(Play(rec, beats + [next]).1, identity); h != [] && h[|h| - 1].kind.GaveUp?
  {
    EpisodeTracks(rec, identity, beats);
    PlaySnoc(rec, beats, next);
    var (mid, h) := Play(rec, beats);
    StepGivesUp(mid, next);
    OwnSnoc(h, Step(mid, next).1, identity);
  }

  /** The entries of the maximal run of equal declines that starts at `s`, up to `n`. */
  ghost predicate DeclineRun(h: seq<Entry>, s: nat, n: nat) {
    s <= n < |h| && h[n].kind.Declined? && RunStart(h, n) == s
  }

  /**
   Per run of equal declines: its first entry, and no other, is audited; and there is one escalation
   exactly when some entry falls at least the stall threshold after the first, never two.
   */
  lemma OneAuditOneEscalation(rec: Option<Record>, identity: string, beats: seq<Beat>, s: nat, n: nat)
    requires !Held(rec, identity) && Undisturbed(rec, beats, identity)
    requires DeclineRun(Own(Play(rec, beats).1, identity), s, n)
    ensures OneAudit(Own(Play(rec, beats).1, identity), s, n)
    ensures OneEscalation(Own(Play(rec, beats).1, identity), s, n)
  {
    EpisodeTracks(rec, identity, beats);
    RunsAreAnnouncedOnce(Own(Play(rec, beats).1, identity), s, n);
  }

  ghost predicate OneAudit(h: seq<Entry>, s: nat, n: nat)
    requires n < |h|
  {
    forall k | s <= k <= n :: h[k].audited <==> k == s
  }

  ghost predicate OneEscalation(h: seq<Entry>, s: nat, n: nat)
    requires s <= n < |h|
  {
    && (forall j, k | s <= j <= n && s <= k <= n && h[j].escalated && h[k].escalated :: j == k)
    && ((exists k | s <= k <= n :: h[k].escalated)
        <==> exists k | s <= k <= n :: h[k].t - h[s].t >= STALL_ESCALATE_S)
  }

  lemma RunsAreAnnouncedOnce(h: seq<Entry>, s: nat, n: nat)
    requires forall k | 0 <= k < |h| :: EntryOk(h, k)
    requires DeclineRun(h, s, n)
    ensures OneAudit(h, s, n) && OneEscalation(h, s, n)
  {
    forall k | s <= k <= n ensures h[k].kind.Declined? && RunStart(h, k) == s && EntryOk(h, k) {
      RunStartInside(h, n, k);
    }
    EscalatedOnce(h, s, n);
  }

  lemma EscalatedOnce(h: seq<Entry>, s: nat, n: nat)
    requires s <= n < |h|
    requires forall k | s <= k <= n :: h[k].kind.Declined? && RunStart(h, k) == s && EntryOk(h, k)
    ensures OneEscalation(h, s, n)
  {
    forall j, k | s <= j < k <= n && h[j].escalated ensures !h[k].escalated {
      EscalationLasts(h, s, j, k - 1);
    }
    if exists k | s <= k <= n :: h[k].t - h[s].t >= STALL_ESCALATE_S {
      var k :| s <= k <= n && h[k].t - h[s].t >= STALL_ESCALATE_S;
      FirstEscalation(h, s, k);
    }
    if k :| s <= k <= n && h[k].escalated {
      var m :| s <= m <= k && h[m].t - h[s].t >= STALL_ESCALATE_S;
      assert s <= m <= n;
    }
  }

  lemma EscalationLasts(h: seq<Entry>, s: nat, j: nat, k: nat)
    requires s <= j <= k < |h| && RunStart(h, j) == s && RunStart(h, k) == s && EscalatedBy(h, j)
    ensures EscalatedBy(h, k)
  {
    var m :| s <= m <= j && h[m].t - h[s].t >= STALL_ESCALATE_S;
    assert s <= m <= k;
  }

  lemma {:induction false} FirstEscalation(h: seq<Entry>, s: nat, k: nat)
    requires s <= k < |h| && EscalatedBy(h, k)
    requires forall j | s <= j <= k :: h[j].kind.Declined? && RunStart(h, j) == s && EntryOk(h, j)
    ensures exists j | s <= j <= k :: h[j].escalated
  {
    if k > s && EscalatedBy(h, k - 1) {
      FirstEscalation(h, s, k - 1);
    } else {
      assert h[k].escalated;
    }
  }

  predicate AlwaysFires(b: Beat) {
    Actionable(b.inst.diagnosis) && Judge(b.inst, b.fire).Fires?
  }

  /** A beat that finds no record of its own identity, or an uncooled one, fires. */
  lemma StepFires(rec: Option<Record>, b: Beat)
    requires AlwaysFires(b)
    requires rec.Some? && rec.value.identity == b.inst.identity ==>
               GateOf(rec.value.lastTs, rec.value.attempts, b.now).Proceed?
    ensures var (rec', more) := Step(rec, b);
            && rec'.Some? && rec'.value.identity == b.inst.identity && !rec'.value.alerted
            && rec'.value.lastTs == Some(b.now)
            && rec'.value.attempts
                 == (if rec.Some? && rec.value.identity == b.inst.identity then rec.value.attempts else 0) + 1
            && |more| == 1 && more[0].kind.Fired?
  {
  }

  /** What `k` fruitless beats, the last at `t`, leave behind. */
  predicate HopelessAfter(rec: Option<Record>, h: seq<Entry>, identity: string, k: nat, t: int) {
    && FireCount(h) == Min(k, MAX_ATTEMPTS)
    && |h| == Min(k, MAX_ATTEMPTS + 1)
    && (k > MAX_ATTEMPTS ==> h[MAX_ATTEMPTS].kind.GaveUp?)
    && (rec.None? <==> k == 0)
    && (k > 0 ==>
          && rec.value.identity == identity
          && rec.value.attempts == Min(k, MAX_ATTEMPTS)
          && rec.value.alerted == (k > MAX_ATTEMPTS)
          && (k <= MAX_ATTEMPTS ==> rec.value.lastTs == Some(t)))
  }

  lemma OneMoreFruitlessBeat(rec: Option<Record>, h: seq<Entry>, k: nat, t: int, b: Beat)
    requires AlwaysFires(b) && HopelessAfter(rec, h, b.inst.identity, k, t)
    requires k > 0 ==> b.now - t >= COOLDOWN_S
    ensures var (after, more) := Step(rec, b);
            HopelessAfter(after, h + more, b.inst.identity, k + 1, b.now)
  {
    var (after, more) := Step(rec, b);
    if k < MAX_ATTEMPTS {
      StepFires(rec, b);
      Extend(rec, after, h, more, b.inst.identity, k, t, b.now);
    } else {
      StepGivesUp(rec, b);
      if k == MAX_ATTEMPTS {
        Extend(rec, after, h, more, b.inst.identity, k, t, b.now);
      } else {
        assert h + more == h;
      }
    }
  }

  lemma Extend(rec: Option<Record>, after: Option<Record>, h: seq<Entry>, more: seq<Entry>,
               identity: string, k: nat, t: int, now: int)
    requires HopelessAfter(rec, h, identity, k, t) && k <= MAX_ATTEMPTS && |more| == 1 && after.Some?
    requires more[0].kind.Fired? <==> k < MAX_ATTEMPTS
    requires more[0].kind.GaveUp? <==> k == MAX_ATTEMPTS
    requires after.value.identity == identity && after.value.attempts == Min(k + 1, MAX_ATTEMPTS)
    requires after.value.alerted == (k == MAX_ATTEMPTS) && (k < MAX_ATTEMPTS ==> after.value.lastTs == Some(now))
    ensures HopelessAfter(after, h + more, identity, k + 1, now)
  {
    assert h + more == h + [more[0]];
    FireCountOfSnoc(h, more[0]);
  }

  lemma StepGivesUp(rec: Option<Record>, b: Beat)
    requires Actionable(b.inst.diagnosis)
    requires rec.Some? && rec.value.identity == b.inst.identity && rec.value.attempts >= MAX_ATTEMPTS
    ensures Step(rec, b) == if rec.value.alerted then (rec, [])
                            else (Some(rec.value.(alerted := true)),
                                  [Entry(b.inst.identity, GaveUp, b.now, true, false)])
  {
  }

  /**
   The bound is met exactly: a process that never recovers, looked at no faster than the cooldown,
   is poked on each of its first four beats, declared hopeless on the fifth, and left alone after.
   */
  lemma HopelessProcess(identity: string, beats: seq<Beat>)
    requires forall k | 0 <= k < |beats| :: AlwaysFires(beats[k]) && beats[k].inst.identity == identity
    requires forall j, k | 0 <= j < k < |beats| :: beats[k].now - beats[j].now >= COOLDOWN_S
    ensures var (rec, h) := Play(None, beats);
            HopelessAfter(rec, h, identity, |beats|, LastTime(beats, |beats|))
  {
    var inv := (j: nat, r: Option<Record>, h: seq<Entry>) =>
      j <= |beats| && HopelessAfter(r, h, identity, j, LastTime(beats, j));
    forall j: nat, r, h: seq<Entry> | j < |beats| && inv(j, r, h)
      ensures inv(j + 1, Step(r, beats[j]).0, h + Step(r, beats[j]).1)
    {
      assert j > 0 ==> beats[j].now - beats[j - 1].now >= COOLDOWN_S;
      OneMoreFruitlessBeat(r, h, j, LastTime(beats, j), beats[j]);
      assert LastTime(beats, j + 1) == beats[j].now;
    }
    PlayInduction(None, beats, inv);
  }

  function LastTime(beats: seq<Beat>, j: nat): int
    requires j <= |beats|
  {
    if j == 0 then 0 else beats[j - 1].now
  }

  // ---------- the budget is per identity, the record per project ----------

  function Alternate(a: Beat, b: Beat, n: nat): seq<Beat> {
    if n == 0 then [] else Alternate(a, b, n - 1) + [a] + [b]
  }

  /** Every one of `n` beats poked, and the record does not belong to `next`. */
  predicate AllPoked(rec: Option<Record>, h: seq<Entry>, n: nat, next: string) {
    |h| == FireCount(h) == n && (rec.Some? ==> rec.value.identity != next)
  }

  lemma PokedAgain(rec: Option<Record>, h: seq<Entry>, n: nat, b: Beat, next: string)
    requires AlwaysFires(b) && AllPoked(rec, h, n, b.inst.identity) && next != b.inst.identity
    ensures var (after, more) := Step(rec, b); AllPoked(after, h + more, n + 1, next)
  {
    StepFires(rec, b);
    var (after, more) := Step(rec, b);
    assert h + more == h + [more[0]];
    FireCountOfSnoc(h, more[0]);
  }

  /**
   Two processes that share one project root take turns discarding each other's record, so neither
   the cooldown nor the budget ever holds: over `n` rounds both are poked every time, and no give-up
   is ever recorded.
   */
  lemma {:induction false} SharedRootDefeatsBudget(a: Beat, b: Beat, n: nat)
    requires a.inst.identity != b.inst.identity && AlwaysFires(a) && AlwaysFires(b)
    ensures AllPoked(Play(None, Alternate(a, b, n)).0, Play(None, Alternate(a, b, n)).1, 2 * n, a.inst.identity)
  {
    if n == 0 {
      assert Play(None, Alternate(a, b, n)) == (None, []);
    } else {
      SharedRootDefeatsBudget(a, b, n - 1);
      PokedTwice(Alternate(a, b, n - 1), 2 * (n - 1), a, b, Alternate(a, b, n), 2 * n);
    }
  }

  lemma PokedOnce(before: seq<Beat>, n: nat, a: Beat, next: string)
    requires AlwaysFires(a) && next != a.inst.identity
    requires AllPoked(Play(None, before).0, Play(None, before).1, n, a.inst.identity)
    ensures AllPoked(Play(None, before + [a]).0, Play(None, before + [a]).1, n + 1, next)
  {
    PlaySnoc(None, before, a);
    PokedAgain(Play(None, before).0, Play(None, before).1, n, a, next);
  }

  lemma PokedTwice(before: seq<Beat>, n: nat, a: Beat, b: Beat, beats: seq<Beat>, m: nat)
    requires a.inst.identity != b.inst.identity && AlwaysFires(a) && AlwaysFires(b)
    requires AllPoked(Play(None, before).0, Play(None, before).1, n, a.inst.identity)
    requires beats == before + [a] + [b] && m == n + 2
    ensures AllPoked(Play(None, beats).0, Play(None, beats).1, m, a.inst.identity)
  {
    PokedOnce(before, n, a, b.inst.identity);
    PokedOnce(before + [a], n + 1, b, a.inst.identity);
  }
}
