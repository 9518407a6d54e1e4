/**
 The recovery ladder over the whole fleet (`task_session_liveness`, scripts/daemon.py:1927-2511): the
 record files are keyed by a slug of the project root (1548-1552), and slugs can collide.
 */
module RecoveryFleet {
  import opened Common
  import opened RecoveryLadder

  // ---------- the file a project's record is kept in ----------

  predicate SlugChar(c: char) {
    'A' <= c <= 'Z' || 'a' <= c <= 'z' || '0' <= c <= '9' || c == '_' || c == '.' || c == '-'
  }

  /** The characters a slug keeps, by code: letters, digits, `_`, `.` and `-`. */
  lemma SlugCharExactly(c: char)
    ensures SlugChar(c) <==> var n := c as int; 48 <= n <= 57 || 65 <= n <= 90 || 97 <= n <= 122 || n in {45, 46, 95}
  {
  }

  function Replaced(root: string): (s: string)
    ensures |s| == |root|
  {
    seq(|root|, k requires 0 <= k < |root| => if SlugChar(root[k]) then root[k] else '_')
  }

  function StripLeft(s: string): string {
    if s != [] && s[0] == '_' then StripLeft(s[1..]) else s
  }

  function StripRight(s: string): string {
    if s != [] && s[|s| - 1] == '_' then StripRight(s[..|s| - 1]) else s
  }

  /** `re.sub(...).strip("_") or "root"` */
  function Slug(root: string): string {
    var s := StripRight(StripLeft(Replaced(root)));
    if s == "" then "root" else s
  }

  /** The slug is the root with every odd character as `_`, less the `_` at both ends; nothing left is called "root". */
  lemma SlugExactly(root: string) returns (a: nat, b: nat)
    ensures a <= b <= |root| && |Slug(root)| == (if a == b then 4 else b - a) && (a == b ==> Slug(root) == "root")
    ensures a < b ==> forall k | a <= k < b ::
                        Slug(root)[k - a] == if SlugChar(root[k]) then root[k] else '_'
    ensures forall k | 0 <= k < |root| && (k < a || b <= k) :: !SlugChar(root[k]) || root[k] == '_'
    ensures a < b ==> SlugChar(root[a]) && root[a] != '_' && SlugChar(root[b - 1]) && root[b - 1] != '_'
  {
    var s := Replaced(root);
    a := StripLeftExactly(s);
    var n := StripRightExactly(s[a..]);
    b := a + n;
    assert s[a..][..n] == s[a..b];
    forall k | 0 <= k < |root| && (k < a || b <= k) ensures !SlugChar(root[k]) || root[k] == '_' {
      assert k >= b ==> s[k] == s[a..][k - a];
      assert s[k] == '_';
    }
  }

  lemma {:induction false} StripLeftExactly(s: string) returns (k: nat)
    ensures k <= |s| && StripLeft(s) == s[k..] && (forall j | 0 <= j < k :: s[j] == '_') && (k < |s| ==> s[k] != '_')
  {
    if s != [] && s[0] == '_' {
      var m := StripLeftExactly(s[1..]);
      k := m + 1;
    } else {
      k := 0;
    }
  }

  lemma {:induction false} StripRightExactly(s: string) returns (n: nat)
    ensures n <= |s| && StripRight(s) == s[..n] && (forall j | n <= j < |s| :: s[j] == '_') && (n > 0 ==> s[n - 1] != '_')
  {
    if s != [] && s[|s| - 1] == '_' {
      n := StripRightExactly(s[..|s| - 1]);
    } else {
      n := |s|;
    }
  }

  // ---------- the beat over the whole fleet ----------

  function LogOf(logs: map<string, seq<Entry>>, slug: string): seq<Entry> {
    if slug in logs then logs[slug] else []
  }

  function Lookup(records: map<string, Record>, slug: string): Option<Record> {
    if slug in records then Some(records[slug]) else None
  }

  /** The records by slug, and what was entered in the history of the slug. */
  function FleetStep(records: map<string, Record>, b: Beat): (map<string, Record>, seq<Entry>) {
    if b.inst.root == "" then (records, [])
    else
      var slug := Slug(b.inst.root);
      var (rec, h) := Step(Lookup(records, slug), b);
      (if rec.Some? then records[slug := rec.value] else records - {slug}, h)
  }

  /** The record files, and the histories of one beat by slug. */
  datatype Fleet = Fleet(records: map<string, Record>, logs: map<string, seq<Entry>>)

  function FleetNext(f: Fleet, b: Beat): Fleet {
    var (after, h) := FleetStep(f.records, b);
    var slug := Slug(b.inst.root);
    Fleet(after, f.logs[slug := LogOf(f.logs, slug) + h])
  }

  /** One beat of the daemon: the fleet as scanned, the clock, and whether firing is enabled. */
  datatype View = View(fleet: seq<Instance>, now: int, fire: bool)

  /** The first `n` instances of a beat. */
  function FleetBeat(records: map<string, Record>, v: View, n: nat): Fleet
    requires n <= |v.fleet|
  {
    if n == 0 then Fleet(records, map[])
    else FleetNext(FleetBeat(records, v, n - 1), Beat(v.fleet[n - 1], v.now, v.fire))
  }

  lemma OneMoreInstance(records: map<string, Record>, v: View, n: nat, f: Fleet,
                        after: map<string, Record>, h: seq<Entry>, logs: map<string, seq<Entry>>)
    requires n < |v.fleet| && f == FleetBeat(records, v, n)
    requires (after, h) == FleetStep(f.records, Beat(v.fleet[n], v.now, v.fire))
    requires logs == f.logs[Slug(v.fleet[n].root) := LogOf(f.logs, Slug(v.fleet[n].root)) + h]
    ensures Fleet(after, logs) == FleetBeat(records, v, n + 1)
  {
  }

  class Guardian {
    /** The per-project record files. */
    var records: map<string, Record>

    constructor ()
      ensures records == map[]
    {
      records := map[];
    }

    /** One `session-liveness` beat. A human at the keyboard defers the whole of it. */
    method RunBeat(v: View, userTyping: bool) returns (logs: map<string, seq<Entry>>)
      modifies this
      ensures userTyping ==> records == old(records) && logs == map[]
      ensures !userTyping ==> Fleet(records, logs) == FleetBeat(old(records), v, |v.fleet|)
    {
      logs := map[];
      if userTyping {
        return;
      }
      for n := 0 to |v.fleet|
        invariant Fleet(records, logs) == FleetBeat(old(records), v, n)
      {
        ghost var before := Fleet(records, logs);
        var h := RunOne(v.fleet[n], v.now, v.fire);
        var slug := Slug(v.fleet[n].root);
        logs := logs[slug := LogOf(logs, slug) + h];
        OneMoreInstance(old(records), v, n, before, records, h, logs);
      }
    }

    method RunOne(i: Instance, now: int, fire: bool) returns (h: seq<Entry>)
      modifies this
      ensures (records, h) == FleetStep(old(records), Beat(i, now, fire))
    {
      h := [];
      if i.root == "" {
        return;
      }
      var slug := Slug(i.root);
      if !Actionable(i.diagnosis) {
        if !i.rateLimitedFlag {
          records := records - {slug};
        } else if slug in records {
          assert records == records[slug := records[slug]];
        } else {
          assert records == records - {slug};
        }
        return;
      }
      var st := Blank(i.identity);
      if slug in records && records[slug].identity == i.identity {
        st := records[slug];
      }
      assert slug in records ==> records == records[slug := records[slug]];
      assert slug !in records ==> records == records - {slug};
      match GateOf(st.lastTs, st.attempts, now)
      case CrashLoop =>
        if !st.alerted {
          records := records[slug := st.(alerted := true, identity := i.identity)];
          h := [Entry(i.identity, GaveUp, now, true, false)];
        }
      case Cooldown =>
      case Proceed =>
        match Judge(i, fire)
        case Awaits(rung) =>
          records := records[slug := Blank(i.identity).(attempts := st.attempts, lastTs := Some(now),
                                                          lastAudit := Some(AwaitSig(rung)))];
          h := [Entry(i.identity, Awaited(AwaitSig(rung)), now, st.lastAudit != Some(AwaitSig(rung)), false)];
        case Declines(reason, rung) =>
          var (st', e) := DeclineRecord(st, DeclineSig(reason, rung), i.identity, now);
          records := records[slug := st'];
          h := [e];
        case SubmitsOwn(_) =>
        case Fires(rung) =>
          records := records[slug := Blank(i.identity).(attempts := st.attempts + 1, lastTs := Some(now))];
          h := [Entry(i.identity, Fired(rung), now, true, false)];
    }
  }

  // ---------- one record file at a time ----------

  function RunBeats(records: map<string, Record>, views: seq<View>): map<string, Record> {
    if views == [] then records
    else
      var v := views[|views| - 1];
      FleetBeat(RunBeats(records, views[..|views| - 1]), v, |v.fleet|).records
  }

  /** All that was entered in the history of `slug`, beat after beat. */
  function RunLog(records: map<string, Record>, views: seq<View>, slug: string): seq<Entry> {
    if views == [] then []
    else
      var n := |views| - 1;
      var v := views[n];
      RunLog(records, views[..n], slug)
      + LogOf(FleetBeat(RunBeats(records, views[..n]), v, |v.fleet|).logs, slug)
  }

  predicate HasSlug(i: Instance, slug: string) {
    i.root != "" && Slug(i.root) == slug
  }

  /** What the first `n` instances of a beat mean for the instances `mine` picks. */
  function BeatsOf(v: View, n: nat, mine: Instance -> bool): seq<Beat>
    requires n <= |v.fleet|
  {
    if n == 0 then []
    else
      BeatsOf(v, n - 1, mine) + (if mine(v.fleet[n - 1]) then [Beat(v.fleet[n - 1], v.now, v.fire)] else [])
  }

  function AllBeatsOf(views: seq<View>, mine: Instance -> bool): seq<Beat> {
    if views == [] then []
    else
      var v := views[|views| - 1];
      AllBeatsOf(views[..|views| - 1], mine) + BeatsOf(v, |v.fleet|, mine)
  }

  function OfSlug(slug: string): Instance -> bool {
    (i: Instance) => HasSlug(i, slug)
  }

  function OfRoot(root: string): Instance -> bool {
    (i: Instance) => i.root == root
  }

  /** `a` and then `b`, played one after the other. */
  lemma PlayConcat(rec: Option<Record>, a: seq<Beat>, b: seq<Beat>)
    ensures Play(rec, a + b) == (Play(Play(rec, a).0, b).0, Play(rec, a).1 + Play(Play(rec, a).0, b).1)
  {
    PlayOnto(rec, a, b, Play(rec, a).0, Play(rec, a).1);
  }

  lemma PlayOnto(rec: Option<Record>, a: seq<Beat>, b: seq<Beat>, mid: Option<Record>, h: seq<Entry>)
    requires Play(rec, a) == (mid, h)
    ensures Play(rec, a + b) == (Play(mid, b).0, h + Play(mid, b).1)
  {
    var r, g := mid, [];
    assert a + b[..0] == a && h + [] == h;
    for j := 0 to |b|
      invariant Play(mid, b[..j]) == (r, g) && Play(rec, a + b[..j]) == (r, h + g)
    {
      r, g := OneFurther(rec, a, b, j, mid, h, r, g);
    }
    assert b[..|b|] == b;
  }

  lemma PlayStep(rec: Option<Record>, beats: seq<Beat>, b: Beat, further: seq<Beat>,
                 r: Option<Record>, h: seq<Entry>, after: Option<Record>, all: seq<Entry>)
    requires Play(rec, beats) == (r, h) && further == beats + [b]
    requires after == Step(r, b).0 && all == h + Step(r, b).1
    ensures Play(rec, further) == (after, all)
  {
    PlaySnoc(rec, beats, b);
  }

  lemma OneFurther(rec: Option<Record>, a: seq<Beat>, b: seq<Beat>, j: nat, mid: Option<Record>, h: seq<Entry>,
                   r: Option<Record>, g: seq<Entry>) returns (r': Option<Record>, g': seq<Entry>)
    requires j < |b| && Play(mid, b[..j]) == (r, g) && Play(rec, a + b[..j]) == (r, h + g)
    ensures Play(mid, b[..j + 1]) == (r', g') && Play(rec, a + b[..j + 1]) == (r', h + g')
  {
    r', g' := Step(r, b[j]).0, g + Step(r, b[j]).1;
    PlayStep(mid, b[..j], b[j], b[..j + 1], r, g, r', g');
    PlayStep(rec, a + b[..j], b[j], a + b[..j + 1], r, h + g, r', h + g');
  }

  lemma FleetStepOfSlug(records: map<string, Record>, b: Beat, slug: string)
    ensures Lookup(FleetStep(records, b).0, slug)
         == if HasSlug(b.inst, slug) then Step(Lookup(records, slug), b).0 else Lookup(records, slug)
    ensures HasSlug(b.inst, slug) ==> FleetStep(records, b).1 == Step(Lookup(records, slug), b).1
    ensures b.inst.root == "" ==> FleetStep(records, b).1 == []
  {
    if b.inst.root != "" {
      var own := Slug(b.inst.root);
      var (rec, h) := Step(Lookup(records, own), b);
      var after := if rec.Some? then records[own := rec.value] else records - {own};
      assert FleetStep(records, b) == (after, h);
      assert Lookup(after, own) == rec;
      assert own != slug ==> Lookup(after, slug) == Lookup(records, slug);
    }
  }

  /** What the slug's file and history hold after `beats`. */
  ghost predicate Plays(records: map<string, Record>, slug: string, beats: seq<Beat>, f: Fleet) {
    (Lookup(f.records, slug), LogOf(f.logs, slug)) == Play(Lookup(records, slug), beats)
  }

  lemma NextOfSlug(records: map<string, Record>, f: Fleet, b: Beat, beats: seq<Beat>, slug: string)
    requires Plays(records, slug, beats, f)
    ensures Plays(records, slug, if HasSlug(b.inst, slug) then beats + [b] else beats, FleetNext(f, b))
  {
    FleetStepOfSlug(f.records, b, slug);
    if HasSlug(b.inst, slug) {
      PlaySnoc(Lookup(records, slug), beats, b);
    } else {
      var own := Slug(b.inst.root);
      assert LogOf(f.logs, own) + [] == LogOf(f.logs, own);
    }
  }

  lemma {:induction false} FleetKeeps(records: map<string, Record>, v: View, n: nat, inv: (nat, Fleet) -> bool)
    returns (f: Fleet)
    requires n <= |v.fleet| && inv(0, Fleet(records, map[]))
    requires forall j: nat, f | j < n && inv(j, f) ::
               inv(j + 1, FleetNext(f, Beat(v.fleet[j], v.now, v.fire)))
    ensures f == FleetBeat(records, v, n) && inv(n, f)
  {
    if n == 0 {
      f := Fleet(records, map[]);
    } else {
      var j := n - 1;
      var before := FleetKeeps(records, v, j, inv);
      f := FleetNext(before, Beat(v.fleet[j], v.now, v.fire));
      assert inv(j + 1, f);
    }
  }

  /** What every instance keeps of the records and their histories, a beat keeps. */
  lemma FleetInduction(records: map<string, Record>, v: View, n: nat, inv: (nat, Fleet) -> bool)
    requires n <= |v.fleet| && inv(0, Fleet(records, map[]))
    requires forall j: nat, f | j < n && inv(j, f) ::
               inv(j + 1, FleetNext(f, Beat(v.fleet[j], v.now, v.fire)))
    ensures inv(n, FleetBeat(records, v, n))
  {
    var f := FleetKeeps(records, v, n, inv);
  }

  lemma BeatIsPlay(records: map<string, Record>, v: View, slug: string)
    ensures Plays(records, slug, BeatsOf(v, |v.fleet|, OfSlug(slug)), FleetBeat(records, v, |v.fleet|))
  {
    var inv := (j: nat, f: Fleet) => j <= |v.fleet| && Plays(records, slug, BeatsOf(v, j, OfSlug(slug)), f);
    forall j: nat, f | j < |v.fleet| && inv(j, f)
      ensures inv(j + 1, FleetNext(f, Beat(v.fleet[j], v.now, v.fire)))
    {
      var beats, b := BeatsOf(v, j, OfSlug(slug)), Beat(v.fleet[j], v.now, v.fire);
      NextOfSlug(records, f, b, beats, slug);
      assert BeatsOf(v, j + 1, OfSlug(slug)) == if HasSlug(b.inst, slug) then beats + [b] else beats;
    }
    FleetInduction(records, v, |v.fleet|, inv);
  }

  /** Over any run of the guardian a slug's record and history are those of all instances with that slug. */
  lemma {:induction false} FleetIsPlay(records: map<string, Record>, views: seq<View>, slug: string)
    ensures (Lookup(RunBeats(records, views), slug), RunLog(records, views, slug))
         == Play(Lookup(records, slug), AllBeatsOf(views, OfSlug(slug)))
  {
    if views != [] {
      var n := |views| - 1;
      var v := views[n];
      FleetIsPlay(records, views[..n], slug);
      BeatIsPlay(RunBeats(records, views[..n]), v, slug);
      PlayConcat(Lookup(records, slug), AllBeatsOf(views[..n], OfSlug(slug)), BeatsOf(v, |v.fleet|, OfSlug(slug)));
    }
  }

  // ---------- one project at a time ----------

  /** Every instance of the run belongs to one of `roots`. */
  ghost predicate Within(views: seq<View>, roots: set<string>) {
    forall v | v in views :: forall i | i in v.fleet :: i.root in roots
  }

  /** What one would expect: the project's record and history are those of its own instances alone. */
  ghost predicate KeptApart(records: map<string, Record>, views: seq<View>, root: string) {
    (Lookup(RunBeats(records, views), Slug(root)), RunLog(records, views, Slug(root)))
    == Play(Lookup(records, Slug(root)), AllBeatsOf(views, OfRoot(root)))
  }

  predicate Collides(root: string, other: string) {
    other != "" && other != root && Slug(other) == Slug(root)
  }

  lemma {:induction false} SameBeats(v: View, n: nat, root: string)
    requires root != "" && n <= |v.fleet| && forall i | i in v.fleet :: !Collides(root, i.root)
    ensures BeatsOf(v, n, OfSlug(Slug(root))) == BeatsOf(v, n, OfRoot(root))
  {
    if n > 0 {
      SameBeats(v, n - 1, root);
      assert v.fleet[n - 1] in v.fleet;
    }
  }

  lemma {:induction false} AllSameBeats(views: seq<View>, root: string, roots: set<string>)
    requires root != "" && Within(views, roots) && forall r | r in roots :: !Collides(root, r)
    ensures AllBeatsOf(views, OfSlug(Slug(root))) == AllBeatsOf(views, OfRoot(root))
  {
    if views != [] {
      var n := |views| - 1;
      assert forall v | v in views[..n] :: v in views;
      AllSameBeats(views[..n], root, roots);
      assert views[n] in views;
      SameBeats(views[n], |views[n].fleet|, root);
    }
  }

  /** An idle process of `root`, armed, its heartbeat dead, reachable and unattended. */
  function Needy(root: string): Instance {
    Instance(root, "1:", CronDead, false, false, 0, true, false, true, false, false, false, Landed(true))
  }

  function Well(root: string): Instance {
    Needy(root).(identity := "2:", diagnosis := Healthy)
  }

  /** The beat in which a colliding project is well, right after the needy one was poked. */
  function Meeting(root: string, other: string): View {
    View([Needy(root), Well(other)], 0, true)
  }

  /** One healthy instance of a colliding project wipes the record of a needy one. */
  lemma CollisionWipes(root: string, other: string)
    requires root != "" && Collides(root, other)
    ensures !KeptApart(map[], [Meeting(root, other)], root)
    ensures Play(None, AllBeatsOf([Meeting(root, other)], OfRoot(root))).0.Some?
  {
    var v := Meeting(root, other);
    var needy := Beat(Needy(root), 0, true);
    var well := Beat(Well(other), 0, true);
    BeatsOfTwo(v, OfRoot(root));
    BeatsOfTwo(v, OfSlug(Slug(root)));
    assert [v][..0] == [];
    assert AllBeatsOf([v], OfRoot(root)) == [] + BeatsOf(v, 2, OfRoot(root)) == [needy];
    assert AllBeatsOf([v], OfSlug(Slug(root))) == [] + BeatsOf(v, 2, OfSlug(Slug(root))) == [needy] + [well];
    assert Lookup(map[], Slug(root)) == None;
    FleetIsPlay(map[], [v], Slug(root));
    PlaySnoc(None, [needy], well);
    assert Play(None, [] + [needy]).0.Some? by {
      PlaySnoc(None, [], needy);
    }
    assert [] + [needy] == [needy];
  }

  lemma BeatsOfTwo(v: View, mine: Instance -> bool)
    requires |v.fleet| == 2
    ensures BeatsOf(v, 2, mine)
         == (if mine(v.fleet[0]) then [Beat(v.fleet[0], v.now, v.fire)] else [])
          + (if mine(v.fleet[1]) then [Beat(v.fleet[1], v.now, v.fire)] else [])
  {
    assert BeatsOf(v, 0, mine) == [];
    assert BeatsOf(v, 1, mine) == [] + (if mine(v.fleet[0]) then [Beat(v.fleet[0], v.now, v.fire)] else []);
  }

  /**
   Among the projects of a host, `root` has its record to itself in every run from every state if and only
   if no other of them has its slug.
   */
  lemma KeptApartExactly(root: string, roots: set<string>)
    requires root != "" && root in roots
    ensures (forall records, views | Within(views, roots) :: KeptApart(records, views, root))
       <==> forall r | r in roots :: !Collides(root, r)
  {
    if forall r | r in roots :: !Collides(root, r) {
      forall records, views | Within(views, roots) ensures KeptApart(records, views, root) {
        FleetIsPlay(records, views, Slug(root));
        AllSameBeats(views, root, roots);
      }
    } else {
      var other :| other in roots && Collides(root, other);
      CollisionWipes(root, other);
      assert Within([Meeting(root, other)], roots);
    }
  }

  /** Two ordinary roots that collide. */
  lemma SlugsCollide()
    ensures Collides("/w/a/b", "/w/a_b") && Slug("/w/a/b") == "w_a_b"
  {
    var a, b := "/w/a/b", "/w/a_b";
    assert Replaced(a) == "_w_a_b" && Replaced(b) == "_w_a_b";
    assert StripLeft("_w_a_b") == "w_a_b" by {
      assert "_w_a_b"[1..] == "w_a_b";
    }
    assert a[4] != b[4];
  }
}
