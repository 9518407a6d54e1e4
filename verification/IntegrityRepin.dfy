/**
 The decline counter of the integrity re-pin chore (scripts/daemon.py:3055-3102): one ticket per stuck
 episode, however long it lasts.
 */
module IntegrityRepin {
  import opened Common

  const TICKET_AFTER: nat := 3

  /** How one fire of the chore ends: certify raises, pins, finds the pin current, or refuses. */
  datatype Fire = Raised | Pinned | Current | Declined

  datatype File = Absent | Unreadable | Counter(n: int)

  predicate EndsStreak(f: Fire) {
    f.Pinned? || f.Current?
  }

  function Prior(file: File): int {
    if file.Counter? then file.n else 0
  }

  /** The counter afterwards; `ioOk` is whether the unlink or the write took. */
  function After(file: File, f: Fire, ioOk: bool): File {
    if f.Raised? || !ioOk then file
    else if EndsStreak(f) then Absent
    else Counter(Prior(file) + 1)
  }

  predicate Tickets(file: File, f: Fire) {
    f.Declined? && Prior(file) + 1 == TICKET_AFTER
  }

  class Repin {
    var declines: File
    /** Tickets raised so far. */
    var tickets: nat

    constructor ()
      ensures declines == Absent && tickets == 0
    {
      declines, tickets := Absent, 0;
    }

    method OnFire(f: Fire, ioOk: bool)
      modifies this
      ensures declines == After(old(declines), f, ioOk)
      ensures tickets == old(tickets) + if Tickets(old(declines), f) then 1 else 0
    {
      match f
      case Raised => return;
      case Pinned =>
        if ioOk { declines := Absent; }
        return;
      case Current =>
        if ioOk { declines := Absent; }
        return;
      case Declined =>
        var prior := 0;
        if declines.Counter? {
          prior := declines.n;
        }
        var count := prior + 1;
        if ioOk {
          declines := Counter(count);
        }
        if count != TICKET_AFTER {
          return;
        }
        tickets := tickets + 1;
    }
  }

  /** The counter and the number of tickets after a history whose file operations all work. */
  function Run(h: seq<Fire>): (File, nat) {
    if h == [] then (Absent, 0)
    else
      var (file, tickets) := Run(h[..|h| - 1]);
      var f := h[|h| - 1];
      (After(file, f, true), tickets + if Tickets(file, f) then 1 else 0)
  }

  /** Episodes begin at the start and after every fire that ends a streak. */
  predicate EpisodeStart(h: seq<Fire>, s: nat) {
    s <= |h| && (s == 0 || EndsStreak(h[s - 1]))
  }

  /** The declines of the episode that begins at `s`. A fire that raised neither counts nor ends it. */
  function Declines(h: seq<Fire>, s: nat): nat
    requires s <= |h|
    decreases |h| - s
  {
    if s == |h| || EndsStreak(h[s]) then 0
    else (if h[s].Declined? then 1 else 0) + Declines(h, s + 1)
  }

  predicate NoEndFrom(h: seq<Fire>, s: nat) {
    forall k | s <= k < |h| :: !EndsStreak(h[k])
  }

  lemma {:induction false} DeclinesGrow(h: seq<Fire>, f: Fire, s: nat)
    requires s <= |h|
    ensures Declines(h + [f], s) == Declines(h, s) + if f.Declined? && NoEndFrom(h, s) then 1 else 0
    decreases |h| - s
  {
    if s == |h| {
      assert Declines(h + [f], s + 1) == 0;
    } else if !EndsStreak(h[s]) {
      DeclinesGrow(h, f, s + 1);
      assert NoEndFrom(h, s) <==> NoEndFrom(h, s + 1);
    }
  }

  ghost function LongEpisodes(h: seq<Fire>): set<nat> {
    set s: nat | s <= |h| && EpisodeStart(h, s) && Declines(h, s) >= 3
  }

  /** The counter is the number of declines of the episode still open. */
  lemma {:induction false} CounterIsOpenEpisode(h: seq<Fire>) returns (s: nat)
    ensures EpisodeStart(h, s) && NoEndFrom(h, s) && Prior(Run(h).0) == Declines(h, s)
  {
    s := 0;
    if h != [] {
      var g, f := h[..|h| - 1], h[|h| - 1];
      assert h == g + [f];
      var before := CounterIsOpenEpisode(g);
      if EndsStreak(f) {
        s := |h|;
      } else {
        s := before;
        DeclinesGrow(g, f, s);
      }
    }
  }

  /** Two open episodes are the same one. */
  lemma OneOpenEpisode(h: seq<Fire>, a: nat, b: nat)
    requires EpisodeStart(h, a) && NoEndFrom(h, a) && EpisodeStart(h, b) && NoEndFrom(h, b)
    ensures a == b
  {
  }

  lemma LongEpisodesGrow(g: seq<Fire>, f: Fire, s: nat)
    requires EpisodeStart(g, s) && NoEndFrom(g, s)
    ensures LongEpisodes(g + [f])
         == LongEpisodes(g) + if f.Declined? && Declines(g, s) + 1 == TICKET_AFTER then {s} else {}
  {
    var h := g + [f];
    forall t: nat | t <= |h|
      ensures t in LongEpisodes(h) <==>
              t in LongEpisodes(g) || (f.Declined? && Declines(g, s) + 1 == TICKET_AFTER && t == s)
    {
      if t == |h| {
        assert Declines(h, t) == 0;
      } else {
        DeclinesGrow(g, f, t);
        assert EpisodeStart(h, t) <==> EpisodeStart(g, t);
        if EpisodeStart(g, t) && NoEndFrom(g, t) {
          OneOpenEpisode(g, s, t);
        }
      }
    }
  }

  /** Exactly one ticket per episode of three declines or more, over any history. */
  lemma {:induction false} OneTicketPerLongEpisode(h: seq<Fire>)
    ensures Run(h).1 == |LongEpisodes(h)|
  {
    if h == [] {
      assert Declines(h, 0) == 0;
      assert LongEpisodes(h) == {};
    } else {
      var g, f := h[..|h| - 1], h[|h| - 1];
      assert h == g + [f];
      OneTicketPerLongEpisode(g);
      var s := CounterIsOpenEpisode(g);
      LongEpisodesGrow(g, f, s);
      if f.Declined? && Declines(g, s) + 1 == TICKET_AFTER {
        assert s !in LongEpisodes(g);
      }
    }
  }

  // ---------- when the counter's file fails ----------

  /** One fire and whether its unlink or write of the counter took. */
  datatype Event = Event(fire: Fire, ioOk: bool)

  function RunAll(h: seq<Event>): (File, nat) {
    if h == [] then (Absent, 0)
    else
      var (file, tickets) := RunAll(h[..|h| - 1]);
      var e := h[|h| - 1];
      (After(file, e.fire, e.ioOk), tickets + if Tickets(file, e.fire) then 1 else 0)
  }

  /** The fires whose effect on the counter took. */
  function Effective(h: seq<Event>): seq<Fire> {
    if h == [] then []
    else Effective(h[..|h| - 1]) + if h[|h| - 1].ioOk then [h[|h| - 1].fire] else []
  }

  /** The declines since the last fire that ended a streak. */
  function OpenDeclines(h: seq<Fire>): nat {
    if h == [] then 0
    else
      match h[|h| - 1]
      case Declined => OpenDeclines(h[..|h| - 1]) + 1
      case Raised => OpenDeclines(h[..|h| - 1])
      case _ => 0
  }

  /** The declines that meet two counted ones and are not counted themselves, so that the next meets two again. */
  function Repeats(h: seq<Event>): nat {
    if h == [] then 0
    else
      var e := h[|h| - 1];
      Repeats(h[..|h| - 1])
      + if e.fire.Declined? && !e.ioOk && OpenDeclines(Effective(h[..|h| - 1])) + 1 == TICKET_AFTER then 1 else 0
  }

  lemma {:induction false} CounterIsOpenDeclines(h: seq<Fire>)
    ensures Prior(Run(h).0) == OpenDeclines(h)
  {
    if h != [] {
      CounterIsOpenDeclines(h[..|h| - 1]);
    }
  }

  lemma RunSnoc(h: seq<Fire>, f: Fire)
    ensures Run(h + [f]) == (After(Run(h).0, f, true), Run(h).1 + if Tickets(Run(h).0, f) then 1 else 0)
  {
    assert (h + [f])[..|h|] == h;
  }

  lemma {:induction false} RunAllExactly(h: seq<Event>)
    ensures RunAll(h) == (Run(Effective(h)).0, Run(Effective(h)).1 + Repeats(h))
  {
    if h != [] {
      var g, e := h[..|h| - 1], h[|h| - 1];
      RunAllExactly(g);
      CounterIsOpenDeclines(Effective(g));
      if e.ioOk {
        RunSnoc(Effective(g), e.fire);
      } else {
        assert Effective(g) + [] == Effective(g);
      }
    }
  }

  /**
   Whatever the file system does: tickets are one per long episode of the fires that took effect, and one
   more for every third decline whose write failed. So it is exactly one per long episode if and only if no
   write fails there.
   */
  lemma TicketsExactly(h: seq<Event>)
    ensures RunAll(h).1 == |LongEpisodes(Effective(h))| + Repeats(h)
  {
    RunAllExactly(h);
    OneTicketPerLongEpisode(Effective(h));
  }
}
