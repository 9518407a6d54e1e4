/**
 The crash-proof budget of per-plugin updates (`_consume_plugin_update_requests`,
 scripts/daemon.py:4638-4759): an attempt is on disk before it runs, so a daemon that dies in the
 middle of one has still counted it.
 */
module PluginBudget {
  import opened Common

  const MAX_FAILS: nat := 2
  const SKIP_SEC: nat := 6 * 3600

  /** One entry of `plugin-update-failures.json`. */
  datatype Entry = Entry(fails: nat, skipUntil: int)

  /** What becomes of a request that is run: the marketplace lock is held, the daemon dies, or it ends. */
  datatype Fate = Contended | Crashed | Failed | Succeeded

  /** `fleet` marks the plugins of the janitor's own fleet, which are never updated here. */
  datatype Request = Request(plugin: string, scope: string, fleet: bool, now: int, fate: Fate)

  /** What befalls one entry: a request for its plugin, or the loss of the whole file. */
  datatype Happening = Asked(r: Request) | Forgotten(at: int) {
    function Time(): int {
      if Asked? then r.now else at
    }
  }

  /** `Gone` is an attempt that never got the lock: it is taken back, as a success is. */
  datatype Result = Unsuccessful | Success | Gone

  /** One line of the history; `Lost` is the loss of the file, which concerns every plugin. */
  datatype Attempt = Attempt(plugin: string, t: int, result: Result) | Lost(t: int) {
    predicate EndsStreak() {
      Lost? || result != Unsuccessful
    }
  }

  function Key(r: Request): string {
    r.plugin + "|" + r.scope
  }

  /** The entry of a plugin that is updated in user scope, as all that are eligible are. */
  function EntryOf(m: map<string, Entry>, plugin: string): Option<Entry> {
    Lookup(m, plugin + "|user")
  }

  predicate Eligible(r: Request) {
    '@' in r.plugin && r.scope == "user" && !r.fleet
  }

  predicate Skipped(e: Option<Entry>, now: int) {
    e.Some? && e.value.fails >= MAX_FAILS && now < e.value.skipUntil
  }

  /** The entry written before the run; an expired one starts over. */
  function Written(e: Option<Entry>, now: int): Entry {
    var fails := if e.None? || e.value.fails >= MAX_FAILS then 0 else e.value.fails;
    Entry(fails + 1, now + SKIP_SEC)
  }

  /** One request against its own entry: the entry afterwards, and the attempt made, if any. */
  function Handle(e: Option<Entry>, r: Request): (Option<Entry>, seq<Attempt>) {
    if Skipped(e, r.now) then (e, [])
    else match r.fate
         case Contended => (None, [Attempt(r.plugin, r.now, Gone)])
         case Succeeded => (None, [Attempt(r.plugin, r.now, Success)])
         case Failed => (Some(Written(e, r.now)), [Attempt(r.plugin, r.now, Unsuccessful)])
         case Crashed => (Some(Written(e, r.now)), [Attempt(r.plugin, r.now, Unsuccessful)])
  }

  function Lookup(m: map<string, Entry>, key: string): Option<Entry> {
    if key in m then Some(m[key]) else None
  }

  function Store(m: map<string, Entry>, key: string, e: Option<Entry>): map<string, Entry> {
    if e.Some? then m[key := e.value] else m - {key}
  }

  predicate Kills(m: map<string, Entry>, r: Request) {
    Eligible(r) && !Skipped(Lookup(m, Key(r)), r.now) && r.fate.Crashed?
  }

  function One(m: map<string, Entry>, r: Request): (map<string, Entry>, seq<Attempt>) {
    if !Eligible(r) then (m, [])
    else
      var (e, log) := Handle(Lookup(m, Key(r)), r);
      (Store(m, Key(r), e), log)
  }

  /**
   One request, by what it leads to: for a plugin of a marketplace in user scope that is not the janitor's own
   fleet, and not held back, an attempt; unsuccessful ones count up to two and start over, all others clear.
   */
  lemma OneExactly(m: map<string, Entry>, r: Request)
    ensures var (after, log) := One(m, r);
            var key := r.plugin + "|" + r.scope;
            var held := key in m && m[key].fails >= 2 && r.now < m[key].skipUntil;
            if '@' !in r.plugin || r.scope != "user" || r.fleet || held then after == m && log == []
            else if r.fate.Failed? || r.fate.Crashed? then
              && log == [Attempt(r.plugin, r.now, Unsuccessful)]
              && after == m[key := Entry(if key in m && m[key].fails < 2 then m[key].fails + 1 else 1, r.now + 6 * 3600)]
            else
              && log == [Attempt(r.plugin, r.now, if r.fate.Succeeded? then Success else Gone)]
              && after == m - {key}
  {
    var key := r.plugin + "|" + r.scope;
    if key in m {
      assert m[key := m[key]] == m;
    } else {
      assert m - {key} == m;
    }
  }

  /** One pass over the queued requests; a crash ends it where it strikes. */
  function ConsumeAll(m: map<string, Entry>, reqs: seq<Request>): (map<string, Entry>, seq<Attempt>)
    decreases |reqs|
  {
    if reqs == [] then (m, [])
    else
      var (m1, log) := One(m, reqs[0]);
      if Kills(m, reqs[0]) then (m1, log)
      else
        var (m2, more) := ConsumeAll(m1, reqs[1..]);
        (m2, log + more)
  }

  /** The requests of one pass, and whether it could read the failures file. */
  datatype Visit = Visit(reqs: seq<Request>, readable: bool, now: int)

  /** A pass that cannot read the file takes it for empty, and overwrites it with its first attempt. */
  predicate Loses(v: Visit) {
    !v.readable && exists k | 0 <= k < |v.reqs| :: Eligible(v.reqs[k])
  }

  function ConsumeVisit(m: map<string, Entry>, v: Visit): (map<string, Entry>, seq<Attempt>) {
    if Loses(v) then
      var (after, log) := ConsumeAll(map[], v.reqs);
      (after, [Lost(v.now)] + log)
    else ConsumeAll(m, v.reqs)
  }

  /** A readable file is used as it is; an unreadable one is lost exactly when some request gets as far as an attempt. */
  lemma VisitExactly(m: map<string, Entry>, v: Visit)
    ensures v.readable ==> ConsumeVisit(m, v) == ConsumeAll(m, v.reqs)
    ensures !v.readable && (exists r | r in v.reqs :: '@' in r.plugin && r.scope == "user" && !r.fleet) ==>
              ConsumeVisit(m, v) == (ConsumeAll(map[], v.reqs).0, [Lost(v.now)] + ConsumeAll(map[], v.reqs).1)
    ensures !v.readable && !(exists r | r in v.reqs :: '@' in r.plugin && r.scope == "user" && !r.fleet) ==>
              ConsumeVisit(m, v) == (m, [])
  {
    if !v.readable {
      if r :| r in v.reqs && '@' in r.plugin && r.scope == "user" && !r.fleet {
        var k :| 0 <= k < |v.reqs| && v.reqs[k] == r;
        assert Eligible(v.reqs[k]);
      } else {
        forall k | 0 <= k < |v.reqs| ensures !Eligible(v.reqs[k]) {
          assert v.reqs[k] in v.reqs;
        }
        NobodyAsks(m, v.reqs);
      }
    }
  }

  lemma {:induction false} NobodyAsks(m: map<string, Entry>, reqs: seq<Request>)
    requires forall k | 0 <= k < |reqs| :: !Eligible(reqs[k])
    ensures ConsumeAll(m, reqs) == (m, [])
    decreases |reqs|
  {
    if reqs != [] {
      assert !Eligible(reqs[0]) && !Kills(m, reqs[0]);
      forall k | 0 <= k < |reqs[1..]| ensures !Eligible(reqs[1..][k]) {
        assert reqs[1..][k] == reqs[k + 1];
      }
      NobodyAsks(m, reqs[1..]);
      var log: seq<Attempt> := [];
      assert One(m, reqs[0]) == (m, log) && log + log == log;
    }
  }

  class PluginUpdates {
    /** The failures file. */
    var failures: map<string, Entry>

    constructor ()
      ensures failures == map[]
    {
      failures := map[];
    }

    /** One pass, whatever its file looked like. */
    method Visited(v: Visit) returns (log: seq<Attempt>)
      modifies this
      ensures (failures, log) == ConsumeVisit(old(failures), v)
    {
      if Loses(v) {
        failures := map[];
        var more := Consume(v.reqs);
        log := [Lost(v.now)] + more;
      } else {
        log := Consume(v.reqs);
      }
    }

    method Consume(reqs: seq<Request>) returns (log: seq<Attempt>)
      modifies this
      ensures (failures, log) == ConsumeAll(old(failures), reqs)
    {
      log := [];
      assert reqs[0..] == reqs && [] + ConsumeAll(failures, reqs).1 == ConsumeAll(failures, reqs).1;
      for n := 0 to |reqs|
        invariant ConsumeAll(old(failures), reqs)
               == (ConsumeAll(failures, reqs[n..]).0, log + ConsumeAll(failures, reqs[n..]).1)
      {
        ghost var was, done := failures, log;
        assert reqs[n..][0] == reqs[n] && reqs[n..][1..] == reqs[n + 1..];
        var made, killed := RunRequest(reqs[n]);
        log := log + made;
        if killed {
          return;
        }
        ghost var rest := ConsumeAll(failures, reqs[n + 1..]);
        assert ConsumeAll(was, reqs[n..]) == (rest.0, made + rest.1);
        assert done + (made + rest.1) == log + rest.1;
      }
      assert reqs[|reqs|..] == [] && log + [] == log;
    }

    /** One request: the attempt is written down first, and taken back on contention or success. */
    method RunRequest(r: Request) returns (made: seq<Attempt>, killed: bool)
      modifies this
      ensures (failures, made) == One(old(failures), r)
      ensures killed == Kills(old(failures), r)
    {
      ghost var was := failures;
      if !Eligible(r) {
        return [], false;
      }
      if Skipped(Lookup(failures, Key(r)), r.now) {
        assert failures == failures[Key(r) := failures[Key(r)]];
        return [], false;
      }
      failures := failures[Key(r) := Written(Lookup(failures, Key(r)), r.now)];
      match r.fate
      case Contended =>
        failures := failures - {Key(r)};
        assert failures == was - {Key(r)};
        return [Attempt(r.plugin, r.now, Gone)], false;
      case Crashed =>
        return [Attempt(r.plugin, r.now, Unsuccessful)], true;
      case Failed =>
        return [Attempt(r.plugin, r.now, Unsuccessful)], false;
      case Succeeded =>
        failures := failures - {Key(r)};
        assert failures == was - {Key(r)};
        return [Attempt(r.plugin, r.now, Success)], false;
    }
  }

  // ---------- one plugin at a time ----------

  /** Different plugins have different entries, whatever their names hold. */
  lemma EntriesAreOwn(a: string, b: string)
    ensures a + "|user" == b + "|user" <==> a == b
  {
    var x, y := a + "|user", b + "|user";
    if x == y {
      assert |a| == |b| && a == x[..|a|] && b == y[..|b|];
    }
  }

  /** So two eligible requests meet in one entry exactly if they are for one plugin. */
  lemma KeysAreOwn(r: Request, q: Request)
    requires Eligible(r) && Eligible(q)
    ensures Key(r) == Key(q) <==> r.plugin == q.plugin
  {
    assert Key(r) == r.plugin + "|user" && Key(q) == q.plugin + "|user";
    EntriesAreOwn(r.plugin, q.plugin);
  }

  /** The requests of a pass that concern `plugin` and are reached: its eligible ones, none after a crash. */
  function Mine(m: map<string, Entry>, reqs: seq<Request>, plugin: string): seq<Happening>
    decreases |reqs|
  {
    if reqs == [] then []
    else
      (if Eligible(reqs[0]) && reqs[0].plugin == plugin then [Asked(reqs[0])] else [])
      + (if Kills(m, reqs[0]) then [] else Mine(One(m, reqs[0]).0, reqs[1..], plugin))
  }

  /** One happening to an entry. */
  function Meet(e: Option<Entry>, x: Happening): (Option<Entry>, seq<Attempt>) {
    match x
    case Asked(r) => Handle(e, r)
    case Forgotten(at) => (None, [Lost(at)])
  }

  function Replay(e: Option<Entry>, h: seq<Happening>): (Option<Entry>, seq<Attempt>)
    decreases |h|
  {
    if h == [] then (e, [])
    else
      var (e1, log) := Meet(e, h[0]);
      var (e2, more) := Replay(e1, h[1..]);
      (e2, log + more)
  }

  /** The history of one plugin: its attempts, and the losses of the file. */
  function Of(log: seq<Attempt>, plugin: string): seq<Attempt> {
    if log == [] then [] else (if log[0].Lost? || log[0].plugin == plugin then [log[0]] else []) + Of(log[1..], plugin)
  }

  lemma {:induction false} OfConcat(a: seq<Attempt>, b: seq<Attempt>, plugin: string)
    ensures Of(a + b, plugin) == Of(a, plugin) + Of(b, plugin)
  {
    if a == [] {
      assert a + b == b;
    } else {
      OfConcat(a[1..], b, plugin);
      assert (a + b)[0] == a[0] && (a + b)[1..] == a[1..] + b;
      var x := if a[0].Lost? || a[0].plugin == plugin then [a[0]] else [];
      assert x + (Of(a[1..], plugin) + Of(b, plugin)) == x + Of(a[1..], plugin) + Of(b, plugin);
    }
  }

  /** What one request does to the entry of `plugin`, and what it logs for it. */
  lemma OneForPlugin(m: map<string, Entry>, r: Request, plugin: string)
    ensures var (m1, log) := One(m, r);
            var mine := Eligible(r) && r.plugin == plugin;
            && EntryOf(m1, plugin) == (if mine then Handle(EntryOf(m, plugin), r).0 else EntryOf(m, plugin))
            && Of(log, plugin) == (if mine then Handle(EntryOf(m, plugin), r).1 else [])
  {
    if Eligible(r) {
      assert Key(r) == r.plugin + "|user";
      EntriesAreOwn(r.plugin, plugin);
      var log := Handle(Lookup(m, Key(r)), r).1;
      assert log == [] || (|log| == 1 && log[0].Attempt? && log[0].plugin == r.plugin && log[1..] == []);
    }
  }

  /** A request for one plugin changes neither the entry of another nor whether that one is skipped. */
  lemma OthersAreUntouched(m: map<string, Entry>, r: Request, q: Request, now: int)
    requires Eligible(r) && Eligible(q) && r.plugin != q.plugin
    ensures Lookup(One(m, r).0, Key(q)) == Lookup(m, Key(q))
    ensures Skipped(Lookup(One(m, r).0, Key(q)), now) <==> Skipped(Lookup(m, Key(q)), now)
  {
    KeysAreOwn(r, q);
  }

  /** Plugins do not disturb each other: a pass treats each one as if it were alone. */
  lemma {:induction false} ConsumeIsReplay(m: map<string, Entry>, reqs: seq<Request>, plugin: string)
    ensures EntryOf(ConsumeAll(m, reqs).0, plugin) == Replay(EntryOf(m, plugin), Mine(m, reqs, plugin)).0
    ensures Of(ConsumeAll(m, reqs).1, plugin) == Replay(EntryOf(m, plugin), Mine(m, reqs, plugin)).1
    decreases |reqs|
  {
    if reqs != [] {
      var r := reqs[0];
      var (m1, log) := One(m, r);
      OneForPlugin(m, r, plugin);
      var rest := [];
      if !Kills(m, r) {
        ConsumeIsReplay(m1, reqs[1..], plugin);
        OfConcat(log, ConsumeAll(m1, reqs[1..]).1, plugin);
        rest := Mine(m1, reqs[1..], plugin);
      }
      if Eligible(r) && r.plugin == plugin {
        assert Mine(m, reqs, plugin) == [Asked(r)] + rest;
        ReplayHead(EntryOf(m, plugin), Asked(r), rest);
      } else {
        assert Mine(m, reqs, plugin) == [] + rest == rest;
      }
    }
  }

  lemma ReplayHead(e: Option<Entry>, x: Happening, rest: seq<Happening>)
    ensures Replay(e, [x] + rest)
         == (Replay(Meet(e, x).0, rest).0, Meet(e, x).1 + Replay(Meet(e, x).0, rest).1)
  {
    assert ([x] + rest)[1..] == rest;
  }

  /** What a pass means for the entry of `plugin`. */
  function VisitOf(m: map<string, Entry>, v: Visit, plugin: string): seq<Happening> {
    if Loses(v) then [Forgotten(v.now)] + Mine(map[], v.reqs, plugin) else Mine(m, v.reqs, plugin)
  }

  lemma VisitIsReplay(m: map<string, Entry>, v: Visit, plugin: string)
    ensures EntryOf(ConsumeVisit(m, v).0, plugin) == Replay(EntryOf(m, plugin), VisitOf(m, v, plugin)).0
    ensures Of(ConsumeVisit(m, v).1, plugin) == Replay(EntryOf(m, plugin), VisitOf(m, v, plugin)).1
  {
    if Loses(v) {
      ConsumeIsReplay(map[], v.reqs, plugin);
      ReplayHead(EntryOf(m, plugin), Forgotten(v.now), Mine(map[], v.reqs, plugin));
      OfConcat([Lost(v.now)], ConsumeAll(map[], v.reqs).1, plugin);
      assert Of([Lost(v.now)], plugin) == [Lost(v.now)] + [];
    } else {
      ConsumeIsReplay(m, v.reqs, plugin);
    }
  }

  /** Pass after pass, each by a daemon that may be new; only the file is carried over. */
  function RunPasses(m: map<string, Entry>, passes: seq<Visit>): (map<string, Entry>, seq<Attempt>)
    decreases |passes|
  {
    if passes == [] then (m, [])
    else
      var (m1, log) := ConsumeVisit(m, passes[0]);
      var (m2, more) := RunPasses(m1, passes[1..]);
      (m2, log + more)
  }

  /** All that befell the entry of `plugin`: the requests any of the passes reached, and the losses of the file. */
  function History(m: map<string, Entry>, passes: seq<Visit>, plugin: string): seq<Happening>
    decreases |passes|
  {
    if passes == [] then []
    else VisitOf(m, passes[0], plugin) + History(ConsumeVisit(m, passes[0]).0, passes[1..], plugin)
  }

  lemma {:induction false} ReplayConcat(e: Option<Entry>, a: seq<Happening>, b: seq<Happening>)
    ensures Replay(e, a + b) == (Replay(Replay(e, a).0, b).0, Replay(e, a).1 + Replay(Replay(e, a).0, b).1)
    decreases |a|
  {
    if a == [] {
      assert a + b == b && [] + Replay(e, b).1 == Replay(e, b).1;
    } else {
      var x, rest := a[0], a[1..];
      var (e1, made) := Meet(e, x);
      ReplayConcat(e1, rest, b);
      ReplayHead(e, x, rest);
      ReplayHead(e, x, rest + b);
      assert a == [x] + rest && a + b == [x] + (rest + b);
      Regroup(made, Replay(e1, rest).1, Replay(Replay(e1, rest).0, b).1);
    }
  }

  lemma Regroup(x: seq<Attempt>, y: seq<Attempt>, z: seq<Attempt>)
    ensures x + (y + z) == x + y + z
  {
  }

  /** So the whole life of one plugin, across crashes, restarts and lost files, is one replay of its own history. */
  lemma {:induction false} RunsAreReplays(m: map<string, Entry>, passes: seq<Visit>, plugin: string)
    ensures Of(RunPasses(m, passes).1, plugin) == Replay(EntryOf(m, plugin), History(m, passes, plugin)).1
    decreases |passes|
  {
    if passes != [] {
      var (m1, log) := ConsumeVisit(m, passes[0]);
      VisitIsReplay(m, passes[0], plugin);
      RunsAreReplays(m1, passes[1..], plugin);
      OfConcat(log, RunPasses(m1, passes[1..]).1, plugin);
      ReplayConcat(EntryOf(m, plugin), VisitOf(m, passes[0], plugin), History(m1, passes[1..], plugin));
    }
  }

  // ---------- the guarantee ----------

  /** The unsuccessful attempts, crashes among them, since the last success, held lock or lost file. */
  function Streak(log: seq<Attempt>): (n: nat)
    ensures n <= |log|
  {
    if log == [] || log[|log| - 1].EndsStreak() then 0 else Streak(log[..|log| - 1]) + 1
  }

  predicate Even(n: nat) {
    n == 0 || !Even(n - 1)
  }

  /** What the entry on disk knows of the attempts so far. */
  ghost predicate Remembers(e: Option<Entry>, log: seq<Attempt>) {
    var n := Streak(log);
    && (n == 0 <==> e.None?)
    && (n > 0 ==> e == Some(Entry(if Even(n) then MAX_FAILS else 1, log[|log| - 1].t + SKIP_SEC)))
  }

  /** After every second failure of a streak the next attempt keeps its distance. */
  ghost predicate SpacedAt(log: seq<Attempt>, i: nat)
    requires i < |log|
  {
    var n := Streak(log[..i]);
    && (n > 0 && Even(n) && log[i].Attempt? ==> log[i].t >= log[i - 1].t + SKIP_SEC)
    && (i > 0 ==> log[i - 1].t <= log[i].t)
  }

  /** A history in the order of time. */
  ghost predicate Orderly(h: seq<Happening>, since: int) {
    && (forall x | x in h :: x.Time() >= since)
    && (forall i, j | 0 <= i < j < |h| :: h[i].Time() <= h[j].Time())
  }

  ghost predicate AllSpaced(log: seq<Attempt>) {
    forall i | 0 <= i < |log| :: SpacedAt(log, i)
  }

  lemma SpacedSnoc(log: seq<Attempt>, a: Attempt)
    requires AllSpaced(log) && SpacedAt(log + [a], |log|)
    ensures AllSpaced(log + [a])
  {
    forall i | 0 <= i < |log| ensures SpacedAt(log + [a], i) {
      assert (log + [a])[..i] == log[..i];
      assert SpacedAt(log, i);
    }
  }

  lemma StreakSnoc(log: seq<Attempt>, a: Attempt)
    ensures Streak(log + [a]) == if a.EndsStreak() then 0 else Streak(log) + 1
  {
    assert (log + [a])[..|log|] == log;
  }

  /** An attempt that was not skipped keeps its distance. */
  lemma AttemptIsSpaced(e: Option<Entry>, log: seq<Attempt>, a: Attempt)
    requires Sound(e, log, a.t) && (a.Lost? || !Skipped(e, a.t))
    ensures SpacedAt(log + [a], |log|)
  {
    assert (log + [a])[..|log|] == log;
    assert log != [] ==> (log + [a])[|log| - 1] == log[|log| - 1];
  }

  lemma MeetRemembers(e: Option<Entry>, x: Happening, log: seq<Attempt>)
    requires Sound(e, log, x.Time())
    ensures Sound(Meet(e, x).0, log + Meet(e, x).1, x.Time())
  {
    if x.Asked? && Skipped(e, x.r.now) {
      assert log + [] == log;
    } else {
      var a := Meet(e, x).1[0];
      assert Meet(e, x) == (if a.EndsStreak() then None else Some(Written(e, a.t)), [a]);
      AttemptIsRemembered(e, log, a);
    }
  }

  lemma AttemptIsRemembered(e: Option<Entry>, log: seq<Attempt>, a: Attempt)
    requires Sound(e, log, a.t) && (a.Lost? || !Skipped(e, a.t))
    ensures Sound(if a.EndsStreak() then None else Some(Written(e, a.t)), log + [a], a.t)
  {
    AttemptIsSpaced(e, log, a);
    SpacedSnoc(log, a);
    StreakSnoc(log, a);
    assert (log + [a])[|log + [a]| - 1] == a;
  }

  /** The log keeps its distances, and the entry on disk remembers it. */
  ghost predicate Sound(e: Option<Entry>, log: seq<Attempt>, now: int) {
    Remembers(e, log) && AllSpaced(log) && (log != [] ==> log[|log| - 1].t <= now)
  }

  /** When the last of the first `k` happenings was. */
  function LastTime(h: seq<Happening>, k: nat, since: int): int
    requires k <= |h|
  {
    if k == 0 then since else h[k - 1].Time()
  }

  lemma EarlierIsSound(e: Option<Entry>, log: seq<Attempt>, since: int, now: int)
    requires Sound(e, log, since) && since <= now
    ensures Sound(e, log, now)
  {
  }

  /** The `k`-th happening keeps what the ones before it kept. */
  lemma HappeningKeepsSound(h: seq<Happening>, since: int, k: nat, e: Option<Entry>, log: seq<Attempt>)
    returns (e1: Option<Entry>, log1: seq<Attempt>)
    requires Orderly(h, since) && k < |h| && Sound(e, log, LastTime(h, k, since))
    ensures e1 == Meet(e, h[k]).0 && log1 == log + Meet(e, h[k]).1
    ensures Sound(e1, log1, LastTime(h, k + 1, since))
  {
    e1, log1 := Meet(e, h[k]).0, log + Meet(e, h[k]).1;
    var now := LastTime(h, k + 1, since);
    assert now == h[k].Time() && LastTime(h, k, since) <= now by {
      assert h[k] in h;
    }
    EarlierIsSound(e, log, LastTime(h, k, since), now);
    MeetRemembers(e, h[k], log);
  }

  /** From the `j`-th happening on: `last` is the entry and `all` the log at the end. */
  lemma {:induction false} RestIsSound(h: seq<Happening>, since: int, j: nat, e: Option<Entry>, log: seq<Attempt>)
    returns (last: Option<Entry>, all: seq<Attempt>)
    requires Orderly(h, since) && j <= |h| && Sound(e, log, LastTime(h, j, since))
    ensures Replay(e, h[j..]).0 == last && log + Replay(e, h[j..]).1 == all
    ensures Sound(last, all, LastTime(h, |h|, since))
    decreases |h| - j
  {
    if j == |h| {
      last, all := e, log;
      NothingLeft(e, h, j, log);
    } else {
      var e1, log1 := HappeningKeepsSound(h, since, j, e, log);
      last, all := RestIsSound(h, since, j + 1, e1, log1);
      ReplayNext(e, h, j, log, e1, log1);
    }
  }

  lemma NothingLeft(e: Option<Entry>, h: seq<Happening>, j: nat, log: seq<Attempt>)
    requires j == |h|
    ensures Replay(e, h[j..]).0 == e && log + Replay(e, h[j..]).1 == log
  {
  }

  lemma ReplayNext(e: Option<Entry>, h: seq<Happening>, j: nat, log: seq<Attempt>, e1: Option<Entry>,
                   log1: seq<Attempt>)
    requires j < |h| && e1 == Meet(e, h[j]).0 && log1 == log + Meet(e, h[j]).1
    ensures Replay(e, h[j..]).0 == Replay(e1, h[j + 1..]).0
    ensures log + Replay(e, h[j..]).1 == log1 + Replay(e1, h[j + 1..]).1
  {
    assert h[j..][0] == h[j] && h[j..][1..] == h[j + 1..];
  }

  lemma ReplayIsSound(h: seq<Happening>, since: int) returns (e: Option<Entry>, log: seq<Attempt>)
    requires Orderly(h, since)
    ensures Replay(None, h) == (e, log) && Sound(e, log, LastTime(h, |h|, since))
  {
    e, log := RestIsSound(h, since, 0, None, []);
    assert h[0..] == h && [] + Replay(None, h).1 == Replay(None, h).1;
  }

  // ---------- the passes in the order of time ----------

  ghost predicate InTime(reqs: seq<Request>, since: int) {
    (forall k | 0 <= k < |reqs| :: reqs[k].now >= since)
    && (forall j, k | 0 <= j < k < |reqs| :: reqs[j].now <= reqs[k].now)
  }

  function EndOf(v: Visit): int {
    if v.reqs == [] then v.now else v.reqs[|v.reqs| - 1].now
  }

  /** Pass after pass, and request after request, the clock does not run backwards. */
  ghost predicate Timely(passes: seq<Visit>, since: int)
    decreases |passes|
  {
    passes == []
    || (passes[0].now >= since && InTime(passes[0].reqs, passes[0].now) && Timely(passes[1..], EndOf(passes[0])))
  }

  function LastEnd(passes: seq<Visit>, since: int): int
    decreases |passes|
  {
    if passes == [] then since else LastEnd(passes[1..], EndOf(passes[0]))
  }

  ghost predicate Between(h: seq<Happening>, since: int, until: int) {
    Orderly(h, since) && forall x | x in h :: x.Time() <= until
  }

  lemma {:induction false} MineInTime(m: map<string, Entry>, reqs: seq<Request>, plugin: string, since: int, until: int)
    requires InTime(reqs, since) && since <= until && forall k | 0 <= k < |reqs| :: reqs[k].now <= until
    ensures Between(Mine(m, reqs, plugin), since, until)
    decreases |reqs|
  {
    if reqs != [] {
      var r := reqs[0];
      var rest := if Kills(m, r) then [] else Mine(One(m, r).0, reqs[1..], plugin);
      assert forall k | 0 <= k < |reqs[1..]| :: reqs[1..][k] == reqs[k + 1];
      MineInTime(One(m, r).0, reqs[1..], plugin, r.now, until);
      BetweenConcat(if Eligible(r) && r.plugin == plugin then [Asked(r)] else [], rest, since, r.now, until);
    }
  }

  lemma BetweenConcat(a: seq<Happening>, b: seq<Happening>, since: int, mid: int, until: int)
    requires Between(a, since, mid) && Between(b, mid, until) && since <= mid <= until
    ensures Between(a + b, since, until)
  {
    forall i, j | 0 <= i < j < |a + b| ensures (a + b)[i].Time() <= (a + b)[j].Time() {
      assert i < |a| ==> (a + b)[i] in a;
      assert j >= |a| ==> (a + b)[j] in b;
    }
  }

  lemma VisitInTime(m: map<string, Entry>, v: Visit, plugin: string, since: int)
    requires v.now >= since && InTime(v.reqs, v.now)
    ensures EndOf(v) >= v.now && Between(VisitOf(m, v, plugin), since, EndOf(v))
  {
    if Loses(v) {
      MineInTime(map[], v.reqs, plugin, v.now, EndOf(v));
      BetweenConcat([Forgotten(v.now)], Mine(map[], v.reqs, plugin), since, v.now, EndOf(v));
    } else {
      MineInTime(m, v.reqs, plugin, v.now, EndOf(v));
    }
  }

  /** Then every plugin's own history is in the order of time. */
  lemma {:induction false} HistoryInTime(m: map<string, Entry>, passes: seq<Visit>, plugin: string, since: int)
    requires Timely(passes, since)
    ensures LastEnd(passes, since) >= since && Between(History(m, passes, plugin), since, LastEnd(passes, since))
    decreases |passes|
  {
    if passes != [] {
      var v := passes[0];
      VisitInTime(m, v, plugin, since);
      HistoryInTime(ConsumeVisit(m, v).0, passes[1..], plugin, EndOf(v));
      BetweenConcat(VisitOf(m, v, plugin), History(ConsumeVisit(m, v).0, passes[1..], plugin), since, EndOf(v),
                    LastEnd(passes, since));
    }
  }

  lemma {:induction false} RunsLeaveReplay(m: map<string, Entry>, passes: seq<Visit>, plugin: string)
    ensures EntryOf(RunPasses(m, passes).0, plugin) == Replay(EntryOf(m, plugin), History(m, passes, plugin)).0
    decreases |passes|
  {
    if passes != [] {
      var (m1, log) := ConsumeVisit(m, passes[0]);
      VisitIsReplay(m, passes[0], plugin);
      RunsLeaveReplay(m1, passes[1..], plugin);
      ReplayConcat(EntryOf(m, plugin), VisitOf(m, passes[0], plugin), History(m1, passes[1..], plugin));
    }
  }

  /** What the file and the log hold of `plugin` after any passes is sound. */
  lemma PassesAreSound(passes: seq<Visit>, plugin: string, since: int) returns (e: Option<Entry>, log: seq<Attempt>)
    requires Timely(passes, since)
    ensures e == EntryOf(RunPasses(map[], passes).0, plugin) && log == Of(RunPasses(map[], passes).1, plugin)
    ensures Sound(e, log, LastEnd(passes, since))
  {
    var h := History(map[], passes, plugin);
    HistoryInTime(map[], passes, plugin, since);
    RunsAreReplays(map[], passes, plugin);
    RunsLeaveReplay(map[], passes, plugin);
    e, log := ReplayIsSound(h, since);
    assert h != [] ==> h[|h| - 1] in h;
    EarlierIsSound(e, log, LastTime(h, |h|, since), LastEnd(passes, since));
  }

  /**
   Over any passes, daemons dying, locks held, other plugins failing and the file lost wherever they like: an
   attempt for a plugin that two or more unsuccessful ones for it precede since the last success, held lock or
   loss starts at least six hours after the second of them, and at least six hours after the last but one.
   */
  lemma SixHoursAfterTwoFailures(passes: seq<Visit>, plugin: string, since: int, i: nat)
    requires Timely(passes, since)
    requires i < |Of(RunPasses(map[], passes).1, plugin)| && Of(RunPasses(map[], passes).1, plugin)[i].Attempt?
    ensures var log := Of(RunPasses(map[], passes).1, plugin);
            var n := Streak(log[..i]);
            n >= 2 ==> log[i].t >= log[i - n + 1].t + 6 * 3600 && log[i].t >= log[i - 2].t + 6 * 3600
  {
    var e, log := PassesAreSound(passes, plugin, since);
    if Streak(log[..i]) >= 2 {
      SpacedMeansSixHours(log, i);
    }
  }

  /**
   And nothing else is ever held back: after any passes a request for the plugin is skipped if and only if the
   plugin's own streak has reached two and six hours have not passed since the last attempt for it that made
   the streak's length even.
   */
  lemma SkippedExactly(passes: seq<Visit>, r: Request, since: int)
    requires Timely(passes, since) && r.now >= LastEnd(passes, since) && Eligible(r)
    ensures var (m, all) := RunPasses(map[], passes);
            var log := Of(all, r.plugin);
            var n := Streak(log);
            Skipped(Lookup(m, Key(r)), r.now)
            <==> n >= 2 && r.now < log[|log| - (if Even(n) then 1 else 2)].t + 6 * 3600
  {
    var e, log := PassesAreSound(passes, r.plugin, since);
    assert Key(r) == r.plugin + "|user";
    SkippedBySound(e, log, LastEnd(passes, since), r.now);
  }

  lemma SkippedBySound(e: Option<Entry>, log: seq<Attempt>, since: int, now: int)
    requires Sound(e, log, since) && now >= since
    ensures var n := Streak(log);
            Skipped(e, now) <==> n >= 2 && now < log[|log| - (if Even(n) then 1 else 2)].t + SKIP_SEC
  {
    var n := Streak(log);
    assert Even(0) && !Even(1);
    if n >= 2 && !Even(n) {
      LastButOne(log);
      assert SpacedAt(log, |log| - 1);
      SpacedLast(log, n - 1);
    }
  }

  lemma LastButOne(log: seq<Attempt>)
    requires Streak(log) > 0
    ensures Streak(log[..|log| - 1]) == Streak(log) - 1
  {
  }

  lemma SpacedLast(log: seq<Attempt>, m: nat)
    requires |log| >= 2 && 0 < m == Streak(log[..|log| - 1]) && Even(m) && SpacedAt(log, |log| - 1)
    requires log[|log| - 1].Attempt?
    ensures log[|log| - 1].t >= log[|log| - 2].t + SKIP_SEC
  {
  }

  lemma SpacedMeansSixHours(log: seq<Attempt>, i: nat)
    requires AllSpaced(log) && i < |log| && log[i].Attempt? && Streak(log[..i]) >= 2
    ensures log[i].t >= log[i - Streak(log[..i]) + 1].t + SKIP_SEC && log[i].t >= log[i - 2].t + SKIP_SEC
  {
    var n := Streak(log[..i]);
    StreakInside(log, i, i - n + 2);
    assert SpacedAt(log, i - n + 2);
    InOrderOfTime(log, i - n + 2, i);
    StreakInside(log, i, i - 1);
    assert SpacedAt(log, i) && SpacedAt(log, i - 1);
  }

  /** Within a streak the count grows by one with each attempt. */
  lemma {:induction false} StreakInside(log: seq<Attempt>, i: nat, j: nat)
    requires j <= i <= |log| && i - Streak(log[..i]) <= j
    ensures Streak(log[..j]) == Streak(log[..i]) - (i - j) && (j < i ==> log[j].Attempt?)
  {
    if j < i {
      assert log[..i][..i - 1] == log[..i - 1];
      StreakInside(log, i - 1, j);
    }
  }

  lemma {:induction false} InOrderOfTime(log: seq<Attempt>, j: nat, i: nat)
    requires j <= i < |log| && AllSpaced(log)
    ensures log[j].t <= log[i].t
  {
    if j < i {
      assert SpacedAt(log, i);
      InOrderOfTime(log, j, i - 1);
    }
  }

  /** A held lock really ends a streak: three unsuccessful attempts then fit in three seconds. */
  lemma ContentionErasesStreak()
    ensures var at := (t, fate) => Asked(Request("p@m", "user", false, t, fate));
            var log := Replay(None, [at(0, Crashed), at(1, Contended), at(2, Crashed), at(3, Crashed)]).1;
            |log| == 4 && !log[0].EndsStreak() && !log[2].EndsStreak() && !log[3].EndsStreak()
            && log[3].t - log[0].t == 3
  {
    var at := (t, fate) => Asked(Request("p@m", "user", false, t, fate));
    var none: Option<Entry> := None;
    ReplayHead(Some(Entry(1, 2 + SKIP_SEC)), at(3, Crashed), []);
    ReplayHead(none, at(2, Crashed), [at(3, Crashed)]);
    ReplayHead(Some(Entry(1, 0 + SKIP_SEC)), at(1, Contended), [at(2, Crashed), at(3, Crashed)]);
    ReplayHead(none, at(0, Crashed), [at(1, Contended), at(2, Crashed), at(3, Crashed)]);
    assert [at(0, Crashed), at(1, Contended), at(2, Crashed), at(3, Crashed)]
        == [at(0, Crashed)] + [at(1, Contended), at(2, Crashed), at(3, Crashed)];
    assert [at(1, Contended), at(2, Crashed), at(3, Crashed)] == [at(1, Contended)] + [at(2, Crashed), at(3, Crashed)];
    assert [at(2, Crashed), at(3, Crashed)] == [at(2, Crashed)] + [at(3, Crashed)];
  }

  /**
   Losing the file is described as costing one extra attempt per request. It costs two: a plugin that is held
   back after two failures is tried twice more within two seconds before it is held back again.
   */
  lemma LossCostsTwoAttempts(e: Entry, r: Request)
    requires e.fails >= MAX_FAILS && r.now < e.skipUntil && r.fate.Failed?
    ensures var later := r.(now := r.now + 1);
            var (e', log) := Replay(Some(e), [Asked(r), Forgotten(r.now), Asked(r), Asked(later)]);
            && log == [Lost(r.now), Attempt(r.plugin, r.now, Unsuccessful), Attempt(r.plugin, r.now + 1, Unsuccessful)]
            && Skipped(e', r.now + 2)
  {
    var later := r.(now := r.now + 1);
    var once: Option<Entry> := Some(Entry(1, r.now + SKIP_SEC));
    var h3, h2, h1 := [Asked(later)], [Asked(r), Asked(later)], [Forgotten(r.now), Asked(r), Asked(later)];
    ReplayHead(once, Asked(later), []);
    assert h3 == [Asked(later)] + [] && h2 == [Asked(r)] + h3 && h1 == [Forgotten(r.now)] + h2;
    ReplayHead(None, Asked(r), h3);
    ReplayHead(Some(e), Forgotten(r.now), h2);
    ReplayHead(Some(e), Asked(r), h1);
    assert [Asked(r), Forgotten(r.now), Asked(r), Asked(later)] == [Asked(r)] + h1;
  }
}
