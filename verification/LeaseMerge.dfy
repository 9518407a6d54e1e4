/**
 Merging the shared lease file into the set of yielded chores, and the transition log that goes with
 it (`_apply_leases`, scripts/daemon.py:3590-3668).
 */
module LeaseMerge {
  import opened Common

  /** One tick's inputs: the registered chores, what the liveness claim yields, and until when leases hold. */
  datatype Tick = Tick(tasks: seq<string>, yielded: set<string>, leases: map<string, real>, now: real)

  datatype Message = TakingOver(chores: set<string>) | StandingDown(chores: set<string>)

  predicate OwnedByLease(name: string, leases: map<string, real>, now: real) {
    name in leases && leases[name] > now
  }

  function Leased(t: Tick): set<string> {
    set name | name in t.tasks && OwnedByLease(name, t.leases, t.now)
  }

  /** The messages of one tick: what lapsed, then what was gained. */
  function Transitions(before: set<string>, after: set<string>): seq<Message> {
    (if before - after != {} then [TakingOver(before - after)] else [])
    + (if after - before != {} then [StandingDown(after - before)] else [])
  }

  /** The module-level state: the chores leased on the last tick, None before the first. */
  type Memory = Option<set<string>>

  function Log(m: Memory, t: Tick): seq<Message> {
    if m.None? then [] else Transitions(m.value, Leased(t))
  }

  class Coordinator {
    var leasedLastTick: set<string>
    var initialized: bool

    function View(): Memory
      reads this
    {
      if initialized then Some(leasedLastTick) else None
    }

    constructor ()
      ensures View() == None
    {
      leasedLastTick, initialized := {}, false;
    }

    /** Everything the claim yields and everything an unexpired lease owns, and nothing else. */
    method ApplyLeases(t: Tick) returns (merged: set<string>, log: seq<Message>)
      modifies this
      ensures forall name :: name in merged <==>
                name in t.yielded || (name in t.tasks && name in t.leases && t.leases[name] > t.now)
      ensures View() == Some(Leased(t))
      ensures log == Log(old(View()), t)
    {
      var leased := {};
      for i := 0 to |t.tasks|
        invariant leased == set name | name in t.tasks[..i] && OwnedByLease(name, t.leases, t.now)
      {
        assert t.tasks[..i + 1] == t.tasks[..i] + [t.tasks[i]];
        if OwnedByLease(t.tasks[i], t.leases, t.now) {
          leased := leased + {t.tasks[i]};
        }
      }
      assert t.tasks[..|t.tasks|] == t.tasks;
      var takenOver, stoodDown := leasedLastTick - leased, leased - leasedLastTick;
      log := [];
      if initialized {
        if takenOver != {} {
          log := log + [TakingOver(takenOver)];
        }
        if stoodDown != {} {
          log := log + [StandingDown(stoodDown)];
        }
      }
      initialized := true;
      leasedLastTick := leased;
      merged := leased + t.yielded;
    }
  }

  /** The whole log after the first tick and `ticks` more. */
  function FullLog(first: Tick, ticks: seq<Tick>): seq<Message> {
    if ticks == [] then Log(None, first)
    else
      var n := |ticks| - 1;
      FullLog(first, ticks[..n]) + Log(Some(Latest(first, ticks[..n])), ticks[n])
  }

  function Latest(first: Tick, ticks: seq<Tick>): set<string> {
    Leased(if ticks == [] then first else ticks[|ticks| - 1])
  }

  // ---------- the log tells the whole story ----------

  function Replay(leased: set<string>, log: seq<Message>): set<string> {
    if log == [] then leased
    else
      var before := Replay(leased, log[..|log| - 1]);
      match log[|log| - 1]
      case TakingOver(chores) => before - chores
      case StandingDown(chores) => before + chores
  }

  lemma {:induction false} ReplayConcat(leased: set<string>, a: seq<Message>, b: seq<Message>)
    ensures Replay(leased, a + b) == Replay(Replay(leased, a), b)
  {
    if b == [] {
      assert a + b == a;
    } else {
      ReplayConcat(leased, a, b[..|b| - 1]);
      assert (a + b)[..|a + b| - 1] == a + b[..|b| - 1];
    }
  }

  lemma TransitionsReplay(before: set<string>, after: set<string>)
    ensures Replay(before, Transitions(before, after)) == after
  {
    var gone, come := before - after, after - before;
    var a := if gone != {} then [TakingOver(gone)] else [];
    var b := if come != {} then [StandingDown(come)] else [];
    ReplayConcat(before, a, b);
    ReplayOne(before, TakingOver(gone));
    ReplayOne(before - gone, StandingDown(come));
    assert Replay(before, a) == before - gone;
    assert Replay(before - gone, b) == before - gone + come;
    assert before - gone + come == after;
  }

  lemma ReplayOne(leased: set<string>, m: Message)
    ensures Replay(leased, [m]) == if m.TakingOver? then leased - m.chores else leased + m.chores
  {
    assert [m][..0] == [];
  }

  /** After any number of ticks, reading the log from the first tick's leases on gives the present ones. */
  lemma {:induction false} LogReplaysToPresent(first: Tick, ticks: seq<Tick>)
    ensures Replay(Leased(first), FullLog(first, ticks)) == Latest(first, ticks)
  {
    if ticks != [] {
      var n := |ticks| - 1;
      LogReplaysToPresent(first, ticks[..n]);
      var before := Latest(first, ticks[..n]);
      ReplayConcat(Leased(first), FullLog(first, ticks[..n]), Transitions(before, Leased(ticks[n])));
      TransitionsReplay(before, Leased(ticks[n]));
    }
  }

  // ---------- the two messages alternate ----------

  /** The messages that name `chore`, in order; true for a standing down. */
  function Flips(log: seq<Message>, chore: string): seq<bool> {
    if log == [] then []
    else
      Flips(log[..|log| - 1], chore)
      + (if chore in log[|log| - 1].chores then [log[|log| - 1].StandingDown?] else [])
  }

  lemma {:induction false} FlipsConcat(a: seq<Message>, b: seq<Message>, chore: string)
    ensures Flips(a + b, chore) == Flips(a, chore) + Flips(b, chore)
  {
    if b == [] {
      assert a + b == a;
    } else {
      FlipsConcat(a, b[..|b| - 1], chore);
      assert (a + b)[..|a + b| - 1] == a + b[..|b| - 1];
    }
  }

  lemma FlipsOfTransition(before: set<string>, after: set<string>, chore: string)
    ensures Flips(Transitions(before, after), chore)
         == if (chore in before) == (chore in after) then [] else [chore in after]
  {
    var gone, come := before - after, after - before;
    var a := if gone != {} then [TakingOver(gone)] else [];
    var b := if come != {} then [StandingDown(come)] else [];
    FlipsConcat(a, b, chore);
    assert Flips(a, chore) == if chore in gone then [false] else [] by {
      assert a != [] ==> a[..0] == [];
    }
    assert Flips(b, chore) == if chore in come then [true] else [] by {
      assert b != [] ==> b[..0] == [];
    }
  }

  /** Every flip is the opposite of what held before it. */
  ghost predicate Alternates(start: bool, flips: seq<bool>) {
    forall k | 0 <= k < |flips| :: flips[k] == (if k % 2 == 0 then !start else start)
  }

  /** The flips so far, `now` being the state they lead to. */
  ghost predicate LeadsTo(start: bool, flips: seq<bool>, now: bool) {
    Alternates(start, flips) && now == (if |flips| % 2 == 0 then start else !start)
  }

  lemma FlipOnce(start: bool, flips: seq<bool>, now: bool)
    requires LeadsTo(start, flips, now)
    ensures LeadsTo(start, flips + [!now], !now)
  {
  }

  /**
   For every chore the two messages alternate, beginning with the one that ends its first state, and
   the last of them is the state it is in.
   */
  lemma {:induction false} MessagesAlternate(first: Tick, ticks: seq<Tick>, chore: string)
    ensures LeadsTo(chore in Leased(first), Flips(FullLog(first, ticks), chore), chore in Latest(first, ticks))
  {
    if ticks != [] {
      var n := |ticks| - 1;
      MessagesAlternate(first, ticks[..n], chore);
      var log, before, after := FullLog(first, ticks[..n]), Latest(first, ticks[..n]), Leased(ticks[n]);
      FlipsConcat(log, Transitions(before, after), chore);
      FlipsOfTransition(before, after, chore);
      assert FullLog(first, ticks) == log + Transitions(before, after);
      assert Latest(first, ticks) == after;
      if (chore in before) == (chore in after) {
        assert Flips(log, chore) + [] == Flips(log, chore);
      } else {
        FlipOnce(chore in Leased(first), Flips(log, chore), chore in before);
      }
    }
  }
}
