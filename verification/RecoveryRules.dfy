/**
 What one beat of the recovery ladder does, exactly and for every input (scripts/daemon.py:1927-2511,
 1624-1669; scripts/lib/fleet_recovery.py:37-124), and so when anything is ever typed at a process, and what.
 */
module RecoveryRules {
  import opened Common
  import opened RecoveryLadder

  // ---------- what the source asks of a beat ----------

  /** The rung for a diagnosis; the other diagnoses have none. */
  predicate AsksFor(d: Diagnosis, rung: Rung) {
    || (d == CronDead && rung == Rearm) || (d == VersionMismatch && rung == Reload)
    || ((d == Frozen || d == RetryWedged) && rung == EscNudge) || (d == Dead && rung == Relaunch)
  }

  predicate NeedsHelp(d: Diagnosis) {
    d == CronDead || d == VersionMismatch || d == Frozen || d == RetryWedged || d == Dead
  }

  predicate Own(rec: Option<Record>, b: Beat) {
    rec.Some? && rec.value.identity == b.inst.identity
  }

  /** The attempts charged to this very process. */
  function Attempts(rec: Option<Record>, b: Beat): nat {
    if Own(rec, b) then rec.value.attempts else 0
  }

  predicate Cooling(rec: Option<Record>, b: Beat) {
    Own(rec, b) && rec.value.lastTs.Some? && b.now - rec.value.lastTs.value < 900
  }

  /** The process needs help, its budget is not spent and its cooldown is over. */
  predicate Considered(rec: Option<Record>, b: Beat) {
    NeedsHelp(b.inst.diagnosis) && Attempts(rec, b) < 4 && !Cooling(rec, b)
  }

  /** A command typed without ESC; it would only queue up behind a turn that is stuck. */
  predicate Soft(d: Diagnosis) {
    d == CronDead || d == VersionMismatch
  }

  /** Commands it was sent queue up unexecuted. */
  predicate Stuck(i: Instance) {
    Soft(i.diagnosis) && i.trailingEnqueues > 0
  }

  predicate ShowsRetry(i: Instance) {
    Soft(i.diagnosis) && i.paneShowsWedge
  }

  /** A living process whose pane can be typed into. */
  predicate Typable(i: Instance) {
    i.diagnosis != Dead && !Stuck(i) && !ShowsRetry(i) && i.injectionPlan
  }

  /** All that a rung needs: a plan, and for all but the relaunch a free field, permission and a landed keystroke. */
  predicate Reaches(i: Instance, fire: bool) {
    if i.diagnosis == Dead then i.relaunchPlan
    else Typable(i) && !i.fieldBusy && fire && i.actuation.Landed?
  }

  /** Why a rung is declined. */
  predicate DeclinedFor(i: Instance, fire: bool, reason: Reason) {
    match reason
    case Wedged => Stuck(i)
    case RetryWedgeOnScreen => !Stuck(i) && ShowsRetry(i)
    case Unreachable =>
      if i.diagnosis == Dead then !i.relaunchPlan else !Stuck(i) && !ShowsRetry(i) && !i.injectionPlan
    case OwnCommandUnsubmittable => Typable(i) && i.fieldBusy && i.fieldOurs && !i.submitted
    case FieldBusy => Typable(i) && i.fieldBusy && !i.fieldOurs
    case DryRun => Typable(i) && !i.fieldBusy && !fire
    case PolicyRefused => Typable(i) && !i.fieldBusy && fire && i.actuation == Noop
    case DeferredPresence => Typable(i) && !i.fieldBusy && fire && i.actuation == Deferred
    case ChannelRejected => Typable(i) && !i.fieldBusy && fire && i.actuation == NotTouched
  }

  predicate SubmitsOwnText(i: Instance) {
    Typable(i) && i.fieldBusy && i.fieldOurs && i.submitted
  }

  // ---------- one beat ----------

  /** A rung is fired if and only if it is the diagnosis's, the human is not being asked, and all it needs is there. */
  predicate Pokes(rec: Option<Record>, b: Beat, rung: Rung) {
    Considered(rec, b) && !b.inst.awaitingUser && AsksFor(b.inst.diagnosis, rung) && Reaches(b.inst, b.fire)
  }

  predicate Enters(rec: Option<Record>, b: Beat, kind: Kind) {
    Step(rec, b).1 != [] && Step(rec, b).1[0].kind == kind
  }

  lemma FiredExactly(rec: Option<Record>, b: Beat, rung: Rung)
    ensures Enters(rec, b, Fired(rung)) <==> Pokes(rec, b, rung)
    ensures Pokes(rec, b, rung) ==>
              Step(rec, b) == (Some(Record(Attempts(rec, b) + 1, Some(b.now), b.inst.identity, None, 0, false, false)),
                               [Entry(b.inst.identity, Fired(rung), b.now, true, false)])
  {
  }

  /** A process that waits for its user is left alone: no attempt is spent and nothing is typed. */
  lemma AwaitedExactly(rec: Option<Record>, b: Beat, rung: Rung)
    ensures Enters(rec, b, Awaited(AwaitSig(rung)))
       <==> Considered(rec, b) && b.inst.awaitingUser && AsksFor(b.inst.diagnosis, rung)
    ensures Considered(rec, b) && b.inst.awaitingUser && AsksFor(b.inst.diagnosis, rung) ==>
              && Step(rec, b).0 == Some(Record(Attempts(rec, b), Some(b.now), b.inst.identity,
                                               Some(AwaitSig(rung)), 0, false, false))
              && Step(rec, b).1 == [Entry(b.inst.identity, Awaited(AwaitSig(rung)), b.now,
                                          !(Own(rec, b) && rec.value.lastAudit == Some(AwaitSig(rung))), false)]
  {
  }

  /** A rung is declined for a reason if and only if that is the first thing in its way. */
  lemma DeclinedExactly(rec: Option<Record>, b: Beat, reason: Reason, rung: Rung)
    ensures Enters(rec, b, Declined(DeclineSig(reason, rung)))
       <==> && Considered(rec, b) && !b.inst.awaitingUser && AsksFor(b.inst.diagnosis, rung)
            && DeclinedFor(b.inst, b.fire, reason)
  {
    if Considered(rec, b) {
      ConsideredProceeds(rec, b);
      DeclineIsJudged(b.inst, b.fire, reason, rung);
    } else {
      OnlyConsidered(rec, b);
    }
  }

  /** It spends no attempt either; it stamps the cooldown and remembers its reason. */
  lemma DeclineSpendsNothing(rec: Option<Record>, b: Beat, reason: Reason, rung: Rung)
    requires Enters(rec, b, Declined(DeclineSig(reason, rung)))
    ensures |Step(rec, b).1| == 1 && Step(rec, b).1[0].who == b.inst.identity && Step(rec, b).1[0].t == b.now
    ensures Step(rec, b).0.Some?
            && var r := Step(rec, b).0.value;
               && r.attempts == Attempts(rec, b) && r.lastTs == Some(b.now) && r.identity == b.inst.identity
               && r.lastAudit == Some(DeclineSig(reason, rung)) && r.alerted == (Own(rec, b) && rec.value.alerted)
  {
  }

  lemma ConsideredProceeds(rec: Option<Record>, b: Beat)
    requires Considered(rec, b)
    ensures Actionable(b.inst.diagnosis)
    ensures var st := Working(rec, b.inst.identity); GateOf(st.lastTs, st.attempts, b.now).Proceed?
  {
  }

  lemma OnlyConsidered(rec: Option<Record>, b: Beat)
    requires !Considered(rec, b)
    ensures forall e | e in Step(rec, b).1 :: e.kind.GaveUp?
  {
  }

  lemma DeclineIsJudged(i: Instance, fire: bool, reason: Reason, rung: Rung)
    requires Actionable(i.diagnosis)
    ensures Judge(i, fire) == Declines(reason, rung)
       <==> !i.awaitingUser && AsksFor(i.diagnosis, rung) && DeclinedFor(i, fire, reason)
  {
  }

  lemma GaveUpExactly(rec: Option<Record>, b: Beat)
    ensures Enters(rec, b, GaveUp) <==> NeedsHelp(b.inst.diagnosis) && Attempts(rec, b) >= 4 && !rec.value.alerted
    ensures Enters(rec, b, GaveUp) ==>
              && Step(rec, b).0 == Some(rec.value.(alerted := true))
              && Step(rec, b).1 == [Entry(b.inst.identity, GaveUp, b.now, true, false)]
  {
  }

  /** Every other beat enters nothing; it clears the record of a process that is well and not rate-limited. */
  lemma SilentExactly(rec: Option<Record>, b: Beat)
    ensures Step(rec, b).1 == []
       <==> || !NeedsHelp(b.inst.diagnosis)
            || (Attempts(rec, b) >= 4 && rec.value.alerted)
            || (Attempts(rec, b) < 4 && Cooling(rec, b))
            || (Considered(rec, b) && !b.inst.awaitingUser && SubmitsOwnText(b.inst))
    ensures Step(rec, b).1 == [] ==>
              Step(rec, b).0 == if NeedsHelp(b.inst.diagnosis) || b.inst.rateLimitedFlag then rec else None
  {
  }

  /** So attempts are spent by rungs that were fired, one each, and by nothing else, as long as the record lasts. */
  lemma OnlyPokesSpend(rec: Option<Record>, b: Beat)
    requires Step(rec, b).0.Some? && NeedsHelp(b.inst.diagnosis) && Step(rec, b).1 != []
    ensures Step(rec, b).0.value.attempts
         == Attempts(rec, b) + if exists rung :: Pokes(rec, b, rung) then 1 else 0
  {
    forall rung ensures Enters(rec, b, Fired(rung)) <==> Pokes(rec, b, rung) {
      FiredExactly(rec, b, rung);
    }
  }

  // ---------- whole runs ----------

  /** Beat `k` of the run poked with `rung`. */
  ghost predicate PokedBy(rec: Option<Record>, beats: seq<Beat>, k: nat, e: Entry, rung: Rung) {
    && k < |beats| && Pokes(Play(rec, beats[..k]).0, beats[k], rung)
    && e == Entry(beats[k].inst.identity, Fired(rung), beats[k].now, true, false)
  }

  /** Whatever beats come: every rung in the history was fired by a beat that had all it takes. */
  lemma {:induction false} EveryPokeIsDue(rec: Option<Record>, beats: seq<Beat>, e: Entry)
    requires e in Play(rec, beats).1 && e.kind.Fired?
    ensures exists k: nat :: PokedBy(rec, beats, k, e, e.kind.rung)
  {
    if beats != [] {
      var n := |beats| - 1;
      var mid := Play(rec, beats[..n]).0;
      if e in Play(rec, beats[..n]).1 {
        EveryPokeIsDue(rec, beats[..n], e);
        var k: nat :| PokedBy(rec, beats[..n], k, e, e.kind.rung);
        assert beats[..n][..k] == beats[..k];
        assert PokedBy(rec, beats, k, e, e.kind.rung);
      } else {
        LastEntered(mid, beats[n], e);
        assert PokedBy(rec, beats, n, e, e.kind.rung);
      }
    }
  }

  lemma LastEntered(rec: Option<Record>, b: Beat, e: Entry)
    requires e in Step(rec, b).1 && e.kind.Fired?
    ensures Pokes(rec, b, e.kind.rung) && e == Entry(b.inst.identity, Fired(e.kind.rung), b.now, true, false)
  {
    FiredExactly(rec, b, e.kind.rung);
  }

  /** And every such beat did fire it. */
  lemma {:induction false} EveryDuePokeIsFired(rec: Option<Record>, beats: seq<Beat>, k: nat, rung: Rung)
    requires k < |beats| && Pokes(Play(rec, beats[..k]).0, beats[k], rung)
    ensures Entry(beats[k].inst.identity, Fired(rung), beats[k].now, true, false) in Play(rec, beats).1
  {
    var n := |beats| - 1;
    if k < n {
      assert beats[..n][..k] == beats[..k];
      EveryDuePokeIsFired(rec, beats[..n], k, rung);
    } else {
      FiredExactly(Play(rec, beats[..n]).0, beats[n], rung);
      var e := Entry(beats[k].inst.identity, Fired(rung), beats[k].now, true, false);
      assert Step(Play(rec, beats[..n]).0, beats[n]).1 == [e];
      assert Play(rec, beats).1 == Play(rec, beats[..n]).1 + [e];
    }
  }
}
