/**
 Which cached version the dispatcher stub executes (scripts/dispatcher-stub.py:56-112, 134-209,
 212-263): the newest it cannot prove bad, and failing that the newest that can run at all; and exactly
 when it raises instead.
 Hashes, the manifest parser and `int()` on a version's components are parameters.
 */
module VersionSelect {
  import opened Common

  /** JSON strings may hold any code point, lone surrogates and NUL included. */
  type CodePoint = n: nat | n < 0x110000

  type Ascii = s: seq<CodePoint> | forall k | 0 <= k < |s| :: s[k] < 128

  /** A manifest entry; None stands for a JSON value that is not a string. */
  datatype Entry = Entry(rel: seq<CodePoint>, expected: Option<string>)

  /** `Nested` is a text nested past the parser's recursion limit, which raises what nobody catches. */
  datatype Doc = NotJson | NotObject | NoFiles | Files(entries: seq<Entry>) | Nested

  /** A file of trust data as read; `Unknown` is missing, unreadable or malformed. */
  datatype Read<T> = Unknown | TooDeep | Known(value: T)

  datatype Crypto = Crypto(parse: string -> Doc, sha: string -> string, hmac: (string, string) -> Ascii)

  /**
   One cached directory: its name, `int()` of each dot-separated component, whether it holds a
   dispatch.py and whether that file can be executed, the bytes of its manifest if they can be read, and
   those of its readable files.
   */
  datatype Version = Version(name: string, parts: seq<Option<int>>, runnable: bool, starts: bool,
                             manifest: Option<string>, files: map<seq<CodePoint>, string>)

  datatype Pin = Pin(version: string, mac: seq<CodePoint>)

  /** The trust data outside the cache; a key that is missing, unreadable or of the wrong size is None. */
  datatype Trust = Trust(key: Option<string>, pin: Read<Pin>, quarantine: Read<set<string>>)

  // ---------- newest first ----------

  function Key(v: Version): seq<int> {
    if None in v.parts then [-1] else Values(v.parts)
  }

  function Values(parts: seq<Option<int>>): seq<int> {
    if parts == [] || parts[0].None? then [] else [parts[0].value] + Values(parts[1..])
  }

  predicate LexLess(a: seq<int>, b: seq<int>) {
    b != [] && (a == [] || a[0] < b[0] || (a[0] == b[0] && LexLess(a[1..], b[1..])))
  }

  lemma {:induction false} LexTotal(a: seq<int>, b: seq<int>)
    ensures LexLess(a, b) || LexLess(b, a) || a == b
    ensures !(LexLess(a, b) && LexLess(b, a)) && !LexLess(a, a)
    decreases |a|
  {
    if a != [] && b != [] {
      LexTotal(a[1..], b[1..]);
      LexTotal(a[1..], a[1..]);
      assert a == [a[0]] + a[1..] && b == [b[0]] + b[1..];
    } else if a != [] {
      LexTotal(a[1..], a[1..]);
    }
  }

  lemma {:induction false} LexTransitive(a: seq<int>, b: seq<int>, c: seq<int>)
    requires LexLess(a, b) && LexLess(b, c)
    ensures LexLess(a, c)
    decreases |a|
  {
    if a != [] && a[0] == b[0] == c[0] {
      LexTransitive(a[1..], b[1..], c[1..]);
    }
  }

  /** `i` comes before `j` in the stable sort by version; equal versions keep the directory's order. */
  predicate Older(vs: seq<Version>, i: nat, j: nat)
    requires i < |vs| && j < |vs|
  {
    LexLess(Key(vs[i]), Key(vs[j])) || (Key(vs[i]) == Key(vs[j]) && i < j)
  }

  lemma OlderIsStrictOrder(vs: seq<Version>, i: nat, j: nat, k: nat)
    requires i < |vs| && j < |vs| && k < |vs|
    ensures Older(vs, i, j) || Older(vs, j, i) || i == j
    ensures !(Older(vs, i, j) && Older(vs, j, i))
    ensures Older(vs, i, j) && Older(vs, j, k) ==> Older(vs, i, k)
  {
    LexTotal(Key(vs[i]), Key(vs[j]));
    if LexLess(Key(vs[i]), Key(vs[j])) && LexLess(Key(vs[j]), Key(vs[k])) {
      LexTransitive(Key(vs[i]), Key(vs[j]), Key(vs[k]));
    }
  }

  /** The keys agree up to component `n`, and there the first ends or is smaller as a number. */
  ghost predicate BelowAt(a: seq<int>, b: seq<int>, n: nat) {
    n <= |a| && n < |b| && a[..n] == b[..n] && (n == |a| || a[n] < b[n])
  }

  ghost predicate Below(a: seq<int>, b: seq<int>) {
    exists n: nat :: BelowAt(a, b, n)
  }

  lemma {:induction false} LexExactly(a: seq<int>, b: seq<int>)
    ensures LexLess(a, b) <==> Below(a, b)
    decreases |a|
  {
    if b != [] && a != [] && a[0] == b[0] {
      LexExactly(a[1..], b[1..]);
      if n: nat :| BelowAt(a[1..], b[1..], n) {
        assert a[..n + 1] == [a[0]] + a[1..][..n] && b[..n + 1] == [b[0]] + b[1..][..n];
        assert BelowAt(a, b, n + 1);
      }
      if n: nat :| BelowAt(a, b, n) {
        BelowTail(a, b, n);
      }
    } else {
      assert LexLess(a, b) ==> BelowAt(a, b, 0);
      if n: nat :| BelowAt(a, b, n) {
        BelowHead(a, b, n);
      }
    }
  }

  lemma BelowHead(a: seq<int>, b: seq<int>, n: nat)
    requires BelowAt(a, b, n)
    ensures b != [] && (a == [] || a[0] <= b[0]) && (n == 0 && a != [] ==> a[0] < b[0])
    ensures n > 0 ==> a != [] && a[0] == b[0]
  {
    if n > 0 {
      assert a[0] == a[..n][0] && b[0] == b[..n][0];
    }
  }

  lemma BelowTail(a: seq<int>, b: seq<int>, n: nat)
    requires BelowAt(a, b, n) && a != [] && b != [] && a[0] == b[0]
    ensures n > 0 && BelowAt(a[1..], b[1..], n - 1)
  {
    assert a[1..][..n - 1] == a[..n][1..] && b[1..][..n - 1] == b[..n][1..];
  }

  /**
   `i` is the older one: their keys, compared number by number, are in that order, or they are the same and
   the directory lists `i` first.
   */
  ghost predicate IsOlder(vs: seq<Version>, i: nat, j: nat)
    requires i < |vs| && j < |vs|
  {
    Below(Key(vs[i]), Key(vs[j])) || (Key(vs[i]) == Key(vs[j]) && i < j)
  }

  lemma OlderExactly(vs: seq<Version>, i: nat, j: nat)
    requires i < |vs| && j < |vs|
    ensures Older(vs, i, j) <==> IsOlder(vs, i, j)
  {
    LexExactly(Key(vs[i]), Key(vs[j]));
  }

  /** A name that is all numbers has those as its key, in order and in full; any other one has minus one alone. */
  lemma KeyExactly(v: Version)
    ensures None !in v.parts ==> |Key(v)| == |v.parts| && forall k | 0 <= k < |v.parts| :: Some(Key(v)[k]) == v.parts[k]
    ensures None in v.parts ==> Key(v) == [-1]
  {
    if None !in v.parts {
      ValuesExactly(v.parts);
    }
  }

  lemma {:induction false} ValuesExactly(parts: seq<Option<int>>)
    requires None !in parts
    ensures |Values(parts)| == |parts| && forall k | 0 <= k < |parts| :: Some(Values(parts)[k]) == parts[k]
  {
    if parts != [] {
      assert parts[0] in parts && forall k | 0 <= k < |parts[1..]| :: parts[1..][k] == parts[k + 1];
      ValuesExactly(parts[1..]);
    }
  }

  /** So an odd name is older than every proper version, whatever the directory's order. */
  lemma OddNamesAreOldest(vs: seq<Version>, i: nat, j: nat)
    requires i < |vs| && j < |vs| && None in vs[i].parts && None !in vs[j].parts && vs[j].parts != []
    requires vs[j].parts[0].value >= 0
    ensures IsOlder(vs, i, j)
  {
    KeyExactly(vs[i]);
    KeyExactly(vs[j]);
    assert BelowAt(Key(vs[i]), Key(vs[j]), 0);
  }

  ghost predicate Indices(vs: seq<Version>, order: seq<nat>) {
    forall a | 0 <= a < |order| :: order[a] < |vs|
  }

  ghost predicate Ascending(vs: seq<Version>, order: seq<nat>) {
    Indices(vs, order) && forall a, b | 0 <= a < b < |order| :: Older(vs, order[a], order[b])
  }

  function Insert(vs: seq<Version>, order: seq<nat>, i: nat): (r: seq<nat>)
    requires Indices(vs, order) && i < |vs|
    ensures Indices(vs, r)
    ensures forall j :: j in r <==> j == i || j in order
    decreases |order|
  {
    if order == [] then [i]
    else
      var n := |order| - 1;
      if Older(vs, order[n], i) then order + [i]
      else
        var rest := Insert(vs, order[..n], i);
        assert order == order[..n] + [order[n]];
        rest + [order[n]]
  }

  lemma AllOlderThanLast(vs: seq<Version>, order: seq<nat>, i: nat)
    requires Ascending(vs, order) && order != [] && i < |vs| && Older(vs, order[|order| - 1], i)
    ensures forall a | 0 <= a < |order| :: Older(vs, order[a], i)
  {
    forall a | 0 <= a < |order| - 1 ensures Older(vs, order[a], i) {
      OlderIsStrictOrder(vs, order[a], order[|order| - 1], i);
    }
  }

  lemma AscendingSnoc(vs: seq<Version>, order: seq<nat>, i: nat)
    requires Ascending(vs, order) && i < |vs| && forall j | j in order :: j < |vs| && Older(vs, j, i)
    ensures Ascending(vs, order + [i])
  {
  }

  lemma {:induction false} InsertAscends(vs: seq<Version>, order: seq<nat>, i: nat)
    requires Ascending(vs, order) && i < |vs| && i !in order
    ensures Ascending(vs, Insert(vs, order, i))
    decreases |order|
  {
    if order != [] {
      var n := |order| - 1;
      var last := order[n];
      if Older(vs, last, i) {
        AllOlderThanLast(vs, order, i);
        AscendingSnoc(vs, order, i);
      } else {
        var before := order[..n];
        assert last in order && Ascending(vs, before);
        OlderIsStrictOrder(vs, last, i, i);
        InsertAscends(vs, before, i);
        forall j | j in Insert(vs, before, i) ensures j < |vs| && Older(vs, j, last) {
          if j != i {
            var a: nat :| a < n && before[a] == j;
            assert order[a] == j;
          }
        }
        AscendingSnoc(vs, Insert(vs, before, i), last);
      }
    }
  }

  /** `sorted(..., key=_version_key)` over the first `n` directories. */
  function Sorted(vs: seq<Version>, n: nat): (r: seq<nat>)
    requires n <= |vs|
    ensures Indices(vs, r)
    ensures forall j: nat :: j in r <==> j < n
  {
    if n == 0 then [] else Insert(vs, Sorted(vs, n - 1), n - 1)
  }

  lemma OneMoreDirectory(vs: seq<Version>, k: nat, order: seq<nat>) returns (next: seq<nat>)
    requires k < |vs| && order == Sorted(vs, k) && Ascending(vs, order)
    ensures next == Sorted(vs, k + 1) && Ascending(vs, next)
  {
    next := Insert(vs, order, k);
    InsertAscends(vs, order, k);
  }

  lemma {:induction false} AscendingOrder(vs: seq<Version>, n: nat) returns (order: seq<nat>)
    requires n <= |vs|
    ensures order == Sorted(vs, n) && Ascending(vs, order)
  {
    if n == 0 {
      order := [];
    } else {
      order := AscendingOrder(vs, n - 1);
      order := OneMoreDirectory(vs, n - 1, order);
    }
  }

  lemma SortedAscends(vs: seq<Version>, n: nat)
    requires n <= |vs|
    ensures Ascending(vs, Sorted(vs, n))
    ensures forall a, b | 0 <= a < b < |Sorted(vs, n)| :: IsOlder(vs, Sorted(vs, n)[a], Sorted(vs, n)[b])
  {
    var order := AscendingOrder(vs, n);
    forall a, b | 0 <= a < b < |order| ensures IsOlder(vs, order[a], order[b]) {
      OlderExactly(vs, order[a], order[b]);
    }
  }

  // ---------- what counts as proof ----------

  /** How a check of one version ends; `Raises` is an exception that nothing in the stub catches. */
  datatype Check = Clean | Bad | Raises

  /** A path that cannot be handed to the file system: it holds NUL, or a surrogate that stands for no byte. */
  predicate Unopenable(rel: seq<CodePoint>) {
    exists k | 0 <= k < |rel| :: rel[k] == 0 || (0xD800 <= rel[k] < 0xE000 && !(0xDC80 <= rel[k] < 0xDD00))
  }

  predicate NonAscii(s: seq<CodePoint>) {
    exists k | 0 <= k < |s| :: s[k] >= 128
  }

  /** One entry: passed over, disproved by a completed comparison, or impossible even to open. */
  function EntryCheck(v: Version, c: Crypto, e: Entry): Check {
    if e.expected.None? || e.expected.value == "" then Clean
    else if Unopenable(e.rel) then Raises
    else if e.rel !in v.files || c.sha(v.files[e.rel]) != e.expected.value then Bad
    else Clean
  }

  function Entries(v: Version, c: Crypto): seq<Entry> {
    if v.manifest.None? then []
    else match c.parse(v.manifest.value)
         case Files(entries) => entries
         case _ => []
  }

  /** The first entry that is not passed over decides. */
  function FirstCheck(v: Version, c: Crypto, es: seq<Entry>): Check {
    if es == [] then Clean
    else if EntryCheck(v, c, es[0]).Clean? then FirstCheck(v, c, es[1..])
    else EntryCheck(v, c, es[0])
  }

  predicate DeepManifest(v: Version, c: Crypto) {
    v.manifest.Some? && c.parse(v.manifest.value).Nested?
  }

  function VerifyOf(v: Version, c: Crypto): Check {
    if DeepManifest(v, c) then Raises else FirstCheck(v, c, Entries(v, c))
  }

  function PinOf(v: Version, c: Crypto, t: Trust): Check {
    if t.pin.TooDeep? then Raises
    else if t.pin.Unknown? || t.pin.value.version != v.name || t.key.None? || v.manifest.None? then Clean
    else if NonAscii(t.pin.value.mac) then Raises
    else if c.hmac(t.key.value, v.manifest.value) != t.pin.value.mac then Bad
    else Clean
  }

  predicate Quarantined(v: Version, t: Trust) {
    t.quarantine.Known? && v.name in t.quarantine.value
  }

  predicate Acceptable(v: Version, c: Crypto, t: Trust) {
    v.runnable && !Quarantined(v, t) && VerifyOf(v, c).Clean? && PinOf(v, c, t).Clean?
  }

  /** Looking at this version ends the stub. */
  predicate Kills(v: Version, c: Crypto, t: Trust) {
    v.runnable && !Quarantined(v, t)
    && (VerifyOf(v, c).Raises? || (VerifyOf(v, c).Clean? && PinOf(v, c, t).Raises?))
  }

  /** A manifest that can be parsed is clean if all entries are; otherwise the first that is not decides. */
  method VerifyVersion(v: Version, c: Crypto) returns (r: Check)
    ensures r == VerifyOf(v, c)
    ensures DeepManifest(v, c) ==> r.Raises?
    ensures r.Clean? <==> !DeepManifest(v, c) && forall e | e in Entries(v, c) :: EntryCheck(v, c, e).Clean?
    ensures !r.Clean? && !DeepManifest(v, c) ==> exists k | 0 <= k < |Entries(v, c)| ::
                            EntryCheck(v, c, Entries(v, c)[k]) == r
                            && forall j | 0 <= j < k :: EntryCheck(v, c, Entries(v, c)[j]).Clean?
  {
    if v.manifest.None? {
      return Clean;
    }
    var doc := c.parse(v.manifest.value);
    if doc.Nested? {
      return Raises;
    }
    if !doc.Files? || doc.entries == [] {
      return Clean;
    }
    for k := 0 to |doc.entries|
      invariant forall j | 0 <= j < k :: EntryCheck(v, c, doc.entries[j]).Clean?
      invariant FirstCheck(v, c, doc.entries) == FirstCheck(v, c, doc.entries[k..])
    {
      var e := doc.entries[k];
      assert doc.entries[k..][0] == e && doc.entries[k..][1..] == doc.entries[k + 1..];
      if e.expected.None? || e.expected.value == "" {
        continue;
      }
      if Unopenable(e.rel) {
        assert e in Entries(v, c);
        return Raises;
      }
      if e.rel !in v.files || c.sha(v.files[e.rel]) != e.expected.value {
        assert e in Entries(v, c);
        return Bad;
      }
    }
    assert doc.entries[|doc.entries|..] == [];
    return Clean;
  }

  method PinRejects(v: Version, c: Crypto, t: Trust) returns (r: Check)
    ensures r == PinOf(v, c, t)
  {
    if t.pin.TooDeep? {
      return Raises;
    }
    if t.pin.Unknown? || t.pin.value.version != v.name {
      return Clean;
    }
    if t.key.None? {
      return Clean;
    }
    if v.manifest.None? {
      return Clean;
    }
    if NonAscii(t.pin.value.mac) {
      return Raises;
    }
    return if c.hmac(t.key.value, v.manifest.value) != t.pin.value.mac then Bad else Clean;
  }

  // ---------- the choice ----------

  /** `i` is the newest of those directories for which `p` holds. */
  ghost predicate NewestWith(vs: seq<Version>, p: Version -> bool, i: nat) {
    i < |vs| && p(vs[i]) && forall j: nat | j < |vs| && p(vs[j]) && j != i :: IsOlder(vs, j, i)
  }

  ghost predicate AnyWith(vs: seq<Version>, p: Version -> bool) {
    exists i | 0 <= i < |vs| :: p(vs[i])
  }

  /** No directory at place `k` of the order or after has `p`. */
  ghost predicate NoneFrom(vs: seq<Version>, order: seq<nat>, k: nat, p: Version -> bool)
    requires Indices(vs, order)
  {
    forall a | k <= a < |order| :: !p(vs[order[a]])
  }

  function IsAcceptable(c: Crypto, t: Trust): Version -> bool {
    (v: Version) => Acceptable(v, c, t)
  }

  function IsRunnable(): Version -> bool {
    (v: Version) => v.runnable
  }

  /** How the stub ends: executing a version, with a message, or by an exception. */
  datatype Outcome = Executes(i: nat) | Exits | Dies

  /** The stub reaches `i` and dies there: no acceptable version is newer. */
  ghost predicate KillsFirst(vs: seq<Version>, c: Crypto, t: Trust, i: nat) {
    i < |vs| && Kills(vs[i], c, t)
    && forall j: nat | j < |vs| && Acceptable(vs[j], c, t) :: IsOlder(vs, j, i)
  }

  ghost predicate SomeKillsFirst(vs: seq<Version>, c: Crypto, t: Trust) {
    exists i: nat :: KillsFirst(vs, c, t, i)
  }

  /** The newest acceptable version, failing that the newest runnable one. */
  ghost predicate Chosen(vs: seq<Version>, c: Crypto, t: Trust, i: nat) {
    if AnyWith(vs, IsAcceptable(c, t)) then NewestWith(vs, IsAcceptable(c, t), i) else NewestWith(vs, IsRunnable(), i)
  }

  /** An exception before the choice: the quarantine raises as soon as there is any version, or a version does. */
  ghost predicate RaisesFirst(vs: seq<Version>, c: Crypto, t: Trust) {
    (vs != [] && t.quarantine.TooDeep?) || SomeKillsFirst(vs, c, t)
  }

  /**
   Unless something raises first, it executes the chosen version, dies if that one cannot be executed, however
   many others could, and exits only if there is none.
   */
  method Select(vs: seq<Version>, c: Crypto, t: Trust) returns (o: Outcome)
    ensures o.Executes? ==> !RaisesFirst(vs, c, t) && Chosen(vs, c, t, o.i) && vs[o.i].starts
    ensures o.Exits? <==> !RaisesFirst(vs, c, t) && !AnyWith(vs, IsRunnable())
    ensures o.Dies? <==> RaisesFirst(vs, c, t) || exists i: nat :: Chosen(vs, c, t, i) && !vs[i].starts
  {
    if vs == [] {
      return Exits;
    }
    if t.quarantine.TooDeep? {
      return Dies;
    }
    var order := Sorted(vs, |vs|);
    var end := WalkDown(vs, order, c, t);
    SortedAscends(vs, |vs|);
    match end
    case Found(k) =>
      FoundIsNewest(vs, order, c, t, k);
      OneChosen(vs, c, t, order[k]);
      return Started(vs, order[k]);
    case Raised(k) =>
      RaisedKillsFirst(vs, order, c, t, k);
      return Dies;
    case Fallback(k) =>
      NoneAtAll(vs, order, IsAcceptable(c, t));
      NoneAtAll(vs, order, IsKiller(c, t));
      LastInOrderIsNewest(vs, order, k, IsRunnable());
      NoKillerNoDeath(vs, c, t);
      assert IsRunnable()(vs[order[k]]);
      OneChosen(vs, c, t, order[k]);
      return Started(vs, order[k]);
    case Nothing =>
      NoneAtAll(vs, order, IsRunnable());
      NothingRunsNothingDies(vs, c, t);
      return Exits;
  }

  /** `os.execv`, which returns only by raising. */
  function Started(vs: seq<Version>, i: nat): Outcome
    requires i < |vs|
  {
    if vs[i].starts then Executes(i) else Dies
  }

  lemma OneChosen(vs: seq<Version>, c: Crypto, t: Trust, i: nat)
    requires Chosen(vs, c, t, i)
    ensures forall j: nat :: Chosen(vs, c, t, j) ==> j == i
  {
    forall j: nat | Chosen(vs, c, t, j) ensures j == i {
      if AnyWith(vs, IsAcceptable(c, t)) {
        OneNewest(vs, IsAcceptable(c, t), i, j);
      } else {
        OneNewest(vs, IsRunnable(), i, j);
      }
    }
  }

  lemma OneNewest(vs: seq<Version>, p: Version -> bool, i: nat, j: nat)
    requires NewestWith(vs, p, i) && NewestWith(vs, p, j)
    ensures i == j
  {
    OlderExactly(vs, i, j);
    OlderExactly(vs, j, i);
    OlderIsStrictOrder(vs, i, j, i);
  }

  function IsKiller(c: Crypto, t: Trust): Version -> bool {
    (v: Version) => Kills(v, c, t)
  }

  /** What the loop over the order comes to, and at which place. */
  datatype WalkEnd = Found(k: nat) | Raised(k: nat) | Fallback(k: nat) | Nothing

  /** Newest first. The backstop is remembered before the quarantine is asked. */
  method WalkDown(vs: seq<Version>, order: seq<nat>, c: Crypto, t: Trust) returns (end: WalkEnd)
    requires Indices(vs, order)
    ensures !end.Nothing? ==> end.k < |order|
    ensures end.Found? ==> Acceptable(vs[order[end.k]], c, t) && NoneFrom(vs, order, end.k + 1, IsAcceptable(c, t))
                           && NoneFrom(vs, order, end.k + 1, IsKiller(c, t))
    ensures end.Raised? ==> Kills(vs[order[end.k]], c, t) && NoneFrom(vs, order, end.k + 1, IsAcceptable(c, t))
    ensures end.Fallback? || end.Nothing? ==>
              NoneFrom(vs, order, 0, IsAcceptable(c, t)) && NoneFrom(vs, order, 0, IsKiller(c, t))
    ensures end.Fallback? ==> vs[order[end.k]].runnable && NoneFrom(vs, order, end.k + 1, IsRunnable())
    ensures end.Nothing? ==> NoneFrom(vs, order, 0, IsRunnable())
  {
    var newestRunnable: Option<nat> := None;
    for k := |order| downto 0
      invariant newestRunnable.None? ==> NoneFrom(vs, order, k, IsRunnable())
      invariant newestRunnable.Some? ==>
          && k <= newestRunnable.value < |order| && vs[order[newestRunnable.value]].runnable
          && NoneFrom(vs, order, newestRunnable.value + 1, IsRunnable())
      invariant NoneFrom(vs, order, k, IsAcceptable(c, t)) && NoneFrom(vs, order, k, IsKiller(c, t))
    {
      var v := vs[order[k]];
      if !v.runnable {
        continue;
      }
      if newestRunnable.None? {
        newestRunnable := Some(k);
      }
      if Quarantined(v, t) {
        continue;
      }
      var verdict := VerifyVersion(v, c);
      if verdict.Raises? {
        return Raised(k);
      }
      if verdict.Clean? {
        var pinned := PinRejects(v, c, t);
        if pinned.Raises? {
          return Raised(k);
        }
        if pinned.Clean? {
          return Found(k);
        }
      }
    }
    return if newestRunnable.Some? then Fallback(newestRunnable.value) else Nothing;
  }

  /** All the directories, oldest first. */
  ghost predicate Lists(vs: seq<Version>, order: seq<nat>) {
    Ascending(vs, order) && forall j: nat | j < |vs| :: j in order
  }

  lemma FoundIsNewest(vs: seq<Version>, order: seq<nat>, c: Crypto, t: Trust, k: nat)
    requires Lists(vs, order)
    requires k < |order| && Acceptable(vs[order[k]], c, t)
    requires NoneFrom(vs, order, k + 1, IsAcceptable(c, t)) && NoneFrom(vs, order, k + 1, IsKiller(c, t))
    ensures NewestWith(vs, IsAcceptable(c, t), order[k]) && !SomeKillsFirst(vs, c, t)
    ensures AnyWith(vs, IsAcceptable(c, t)) && AnyWith(vs, IsRunnable())
  {
    LastInOrderIsNewest(vs, order, k, IsAcceptable(c, t));
    assert IsAcceptable(c, t)(vs[order[k]]) && IsRunnable()(vs[order[k]]);
    forall i: nat | i < |vs| && Kills(vs[i], c, t) ensures !IsOlder(vs, order[k], i) {
      assert i in order;
      var a: nat :| a < |order| && order[a] == i;
      assert IsKiller(c, t)(vs[order[a]]) && a < k;
      OlderIsStrictOrder(vs, order[a], order[k], order[k]);
      OlderExactly(vs, order[k], i);
    }
  }

  lemma RaisedKillsFirst(vs: seq<Version>, order: seq<nat>, c: Crypto, t: Trust, k: nat)
    requires Lists(vs, order)
    requires k < |order| && Kills(vs[order[k]], c, t) && NoneFrom(vs, order, k + 1, IsAcceptable(c, t))
    ensures KillsFirst(vs, c, t, order[k])
  {
    forall j: nat | j < |vs| && Acceptable(vs[j], c, t) ensures IsOlder(vs, j, order[k]) {
      assert j in order;
      var a: nat :| a < |order| && order[a] == j;
      assert IsAcceptable(c, t)(vs[order[a]]) && a <= k;
      assert a != k;
      OlderExactly(vs, j, order[k]);
    }
  }

  lemma NoKillerNoDeath(vs: seq<Version>, c: Crypto, t: Trust)
    requires !AnyWith(vs, IsKiller(c, t))
    ensures !SomeKillsFirst(vs, c, t)
  {
    forall i: nat | i < |vs| ensures !Kills(vs[i], c, t) {
      assert !IsKiller(c, t)(vs[i]);
    }
  }

  lemma NothingRunsNothingDies(vs: seq<Version>, c: Crypto, t: Trust)
    requires !AnyWith(vs, IsRunnable())
    ensures !SomeKillsFirst(vs, c, t) && !AnyWith(vs, IsAcceptable(c, t))
  {
    forall i: nat | i < |vs| ensures !Kills(vs[i], c, t) && !Acceptable(vs[i], c, t) {
      assert !IsRunnable()(vs[i]);
    }
  }

  lemma NoneAtAll(vs: seq<Version>, order: seq<nat>, p: Version -> bool)
    requires Indices(vs, order) && (forall j: nat :: j in order <==> j < |vs|) && NoneFrom(vs, order, 0, p)
    ensures !AnyWith(vs, p)
  {
    forall i: nat | i < |vs| ensures !p(vs[i]) {
      assert i in order;
    }
  }

  lemma LastInOrderIsNewest(vs: seq<Version>, order: seq<nat>, k: nat, p: Version -> bool)
    requires Lists(vs, order)
    requires k < |order| && p(vs[order[k]]) && NoneFrom(vs, order, k + 1, p)
    ensures NewestWith(vs, p, order[k])
  {
    forall j: nat | j < |vs| && p(vs[j]) && j != order[k] ensures IsOlder(vs, j, order[k]) {
      assert j in order;
      var a: nat :| a < |order| && order[a] == j;
      assert a < k;
      OlderExactly(vs, j, order[k]);
    }
  }

  // ---------- what a version is accepted for ----------

  /** The entry asks for nothing, or its file is there with that hash. */
  predicate Holds(v: Version, c: Crypto, e: Entry) {
    match e.expected
    case None => true
    case Some(hash) => hash == "" || (!Unopenable(e.rel) && e.rel in v.files && c.sha(v.files[e.rel]) == hash)
  }

  /** The pin says nothing against the version: it is not about it, cannot be checked, or agrees. */
  predicate Agrees(v: Version, c: Crypto, t: Trust) {
    match t.pin
    case Unknown => true
    case TooDeep => false
    case Known(pin) =>
      pin.version != v.name || t.key.None? || v.manifest.None?
      || (!NonAscii(pin.mac) && c.hmac(t.key.value, v.manifest.value) == pin.mac)
  }

  /** A version is accepted if and only if it can run, is not quarantined, and nothing disproves it. */
  lemma AcceptableExactly(v: Version, c: Crypto, t: Trust)
    ensures Acceptable(v, c, t)
       <==> && v.runnable && (t.quarantine.Known? ==> v.name !in t.quarantine.value)
            && (v.manifest.Some? ==>
                  && !c.parse(v.manifest.value).Nested?
                  && (c.parse(v.manifest.value).Files? ==>
                        forall e | e in c.parse(v.manifest.value).entries :: Holds(v, c, e)))
            && Agrees(v, c, t)
  {
    FirstCheckIs(v, c, Entries(v, c));
    forall e | e in Entries(v, c) ensures EntryCheck(v, c, e).Clean? <==> Holds(v, c, e) {
    }
  }

  /** Nothing before place `k` of the entries speaks against the version, and the one there cannot be opened. */
  ghost predicate RaisesAt(v: Version, c: Crypto, es: seq<Entry>, k: nat) {
    && k < |es| && es[k].expected.Some? && es[k].expected.value != "" && Unopenable(es[k].rel)
    && forall j | 0 <= j < k :: Holds(v, c, es[j])
  }

  /** A version ends the stub if and only if it is looked at and one of its texts raises before anything else. */
  lemma KillsExactly(v: Version, c: Crypto, t: Trust)
    ensures Kills(v, c, t)
       <==> && v.runnable && !(t.quarantine.Known? && v.name in t.quarantine.value)
            && (|| DeepManifest(v, c)
                || (exists k: nat :: RaisesAt(v, c, Entries(v, c), k))
                || ((forall e | e in Entries(v, c) :: Holds(v, c, e))
                    && (t.pin.TooDeep?
                        || (t.pin.Known? && t.pin.value.version == v.name && t.key.Some? && v.manifest.Some?
                            && NonAscii(t.pin.value.mac)))))
  {
    var es := Entries(v, c);
    FirstCheckIs(v, c, es);
    FirstRaises(v, c, es);
    forall e | e in es ensures EntryCheck(v, c, e).Clean? <==> Holds(v, c, e) {
    }
  }

  lemma {:induction false} FirstRaises(v: Version, c: Crypto, es: seq<Entry>)
    ensures FirstCheck(v, c, es).Raises? <==> exists k: nat :: RaisesAt(v, c, es, k)
  {
    if es != [] {
      FirstRaises(v, c, es[1..]);
      if k: nat :| RaisesAt(v, c, es[1..], k) && EntryCheck(v, c, es[0]).Clean? {
        assert RaisesAt(v, c, es, k + 1) by {
          assert forall j | 0 < j <= k :: es[j] == es[1..][j - 1];
        }
      }
      if k: nat :| RaisesAt(v, c, es, k) {
        if k > 0 {
          assert RaisesAt(v, c, es[1..], k - 1);
        }
      }
      if EntryCheck(v, c, es[0]).Raises? {
        assert RaisesAt(v, c, es, 0);
      }
    }
  }

  // ---------- uncertainty never blocks ----------

  /** The same directory, its manifest perhaps no longer readable. */
  predicate Dimmed(v: Version, w: Version) {
    w == v || w == v.(manifest := None)
  }

  /** The same trust data, any of the three perhaps no longer readable. */
  predicate LessTrust(t: Trust, u: Trust) {
    && (u.key == t.key || u.key.None?) && (u.pin == t.pin || u.pin.Unknown?)
    && (u.quarantine == t.quarantine || u.quarantine.Unknown?)
  }

  lemma UncertaintyNeverRejects(v: Version, w: Version, c: Crypto, t: Trust, u: Trust)
    requires Dimmed(v, w) && LessTrust(t, u) && Acceptable(v, c, t)
    ensures Acceptable(w, c, u)
  {
    if w.manifest.Some? {
      assert w == v;
    }
  }

  /** So losing any of it never makes the stub fall back to an older version than before. */
  lemma UncertaintyNeverDowngrades(vs: seq<Version>, ws: seq<Version>, c: Crypto, t: Trust, u: Trust, i: nat, j: nat)
    requires |ws| == |vs| && forall k | 0 <= k < |vs| :: Dimmed(vs[k], ws[k])
    requires LessTrust(t, u)
    requires NewestWith(vs, IsAcceptable(c, t), i) && NewestWith(ws, IsAcceptable(c, u), j)
    ensures i == j || IsOlder(ws, i, j)
  {
    UncertaintyNeverRejects(vs[i], ws[i], c, t, u);
  }

  // ---------- inputs the stub does not survive ----------

  /** An entry that names a file no system call can open, where it is looked at. */
  lemma UnopenableEntryKills(v: Version, c: Crypto, t: Trust, rest: seq<Entry>, rel: seq<CodePoint>, hash: string)
    requires v.runnable && !Quarantined(v, t) && hash != "" && Unopenable(rel)
    requires Entries(v, c) == [Entry(rel, Some(hash))] + rest
    ensures Kills(v, c, t) && KillsFirst([v], c, t, 0)
  {
    assert EntryCheck(v, c, Entries(v, c)[0]).Raises?;
  }

  /** A pin for a version that verifies, its MAC no longer ASCII. */
  lemma NonAsciiPinKills(v: Version, c: Crypto, t: Trust)
    requires v.runnable && !Quarantined(v, t) && VerifyOf(v, c).Clean? && v.manifest.Some? && t.key.Some?
    requires t.pin.Known? && t.pin.value.version == v.name && NonAscii(t.pin.value.mac)
    ensures Kills(v, c, t) && KillsFirst([v], c, t, 0)
  {
  }

  /** Which texts raise: those with a NUL or a surrogate that stands for no byte, and those beyond ASCII. */
  lemma RaisingTexts(text: seq<CodePoint>)
    ensures Unopenable(text)
       <==> exists k | 0 <= k < |text| :: text[k] == 0 || 0xD800 <= text[k] <= 0xDC7F || 0xDD00 <= text[k] <= 0xDFFF
    ensures NonAscii(text) <==> exists k | 0 <= k < |text| :: text[k] > 127
  {
  }

  lemma SomeRaisingTexts()
    ensures Unopenable([0]) && Unopenable([0xD800]) && !Unopenable([0xDC80]) && NonAscii([0xE9])
  {
    var nul: seq<CodePoint>, high: seq<CodePoint>, accent: seq<CodePoint> := [0], [0xD800], [0xE9];
    assert nul[0] == 0 && high[0] == 0xD800 && accent[0] == 0xE9;
  }

  /** A manifest nested past the parser's limit, and such a pin for whatever version verifies. */
  lemma DeepTextKills(v: Version, c: Crypto, t: Trust)
    requires v.runnable && !Quarantined(v, t)
    requires DeepManifest(v, c) || (VerifyOf(v, c).Clean? && t.pin.TooDeep?)
    ensures Kills(v, c, t) && KillsFirst([v], c, t, 0)
  {
  }

  /** The newest acceptable version need only have lost its executable bit: nothing older is tried. */
  lemma NotExecutableKills(vs: seq<Version>, c: Crypto, t: Trust, i: nat)
    requires NewestWith(vs, IsAcceptable(c, t), i) && !vs[i].starts
    ensures Chosen(vs, c, t, i) && forall j: nat | Chosen(vs, c, t, j) :: !vs[j].starts
  {
    assert IsAcceptable(c, t)(vs[i]);
    OneChosen(vs, c, t, i);
  }

  /**
   So the quarantine can be what keeps the stub alive: losing it brings back a raising version that it hid.
   */
  lemma LosingQuarantineCanKill(v: Version, c: Crypto, t: Trust)
    requires v.runnable && Quarantined(v, t) && VerifyOf(v, c).Raises?
    ensures !SomeKillsFirst([v], c, t) && SomeKillsFirst([v], c, t.(quarantine := Unknown))
  {
    assert KillsFirst([v], c, t.(quarantine := Unknown), 0);
  }

  /**
   Losing manifest, key or pin does it in one case only: the lost manifest had disproved the version, which
   therefore never came to a pin too deeply nested to read.
   */
  lemma OtherLossesKillExactly(v: Version, w: Version, c: Crypto, t: Trust, u: Trust)
    requires Dimmed(v, w) && LessTrust(t, u) && u.quarantine == t.quarantine
    ensures Kills(w, c, u) && !Kills(v, c, t)
       <==> v.runnable && !Quarantined(v, t) && VerifyOf(v, c).Bad? && w.manifest.None? && u.pin.TooDeep?
  {
    if w.manifest.None? {
      assert VerifyOf(w, c).Clean? && (PinOf(w, c, u).Raises? <==> u.pin.TooDeep?);
    } else {
      assert w == v;
    }
  }

  // ---------- the order of a manifest's entries ----------

  lemma {:induction false} FirstCheckIs(v: Version, c: Crypto, es: seq<Entry>)
    ensures FirstCheck(v, c, es).Clean? <==> forall e | e in es :: EntryCheck(v, c, e).Clean?
    ensures !FirstCheck(v, c, es).Clean? ==> exists e | e in es :: EntryCheck(v, c, e) == FirstCheck(v, c, es)
  {
    if es != [] {
      FirstCheckIs(v, c, es[1..]);
      assert es[0] in es && forall e | e in es :: e == es[0] || e in es[1..];
    }
  }

  /** A manifest whose entries both disprove the version and raise. */
  predicate Mixed(v: Version, c: Crypto, es: seq<Entry>) {
    (exists e | e in es :: EntryCheck(v, c, e).Bad?) && (exists e | e in es :: EntryCheck(v, c, e).Raises?)
  }

  /** Unless both kinds are present, the order of the entries does not matter, */
  lemma EntryOrderIsIrrelevant(v: Version, c: Crypto, a: seq<Entry>, b: seq<Entry>)
    requires multiset(a) == multiset(b) && !Mixed(v, c, a)
    ensures FirstCheck(v, c, a) == FirstCheck(v, c, b)
  {
    forall e ensures e in a <==> e in b {
      assert (e in a <==> multiset(a)[e] > 0) && (e in b <==> multiset(b)[e] > 0);
    }
    FirstCheckIs(v, c, a);
    FirstCheckIs(v, c, b);
  }

  /** and if they are, some two orders of the very same entries end differently. */
  lemma EntryOrderMatters(v: Version, c: Crypto, x: Entry, y: Entry, rest: seq<Entry>)
    requires EntryCheck(v, c, x).Bad? && EntryCheck(v, c, y).Raises?
    ensures multiset([x, y] + rest) == multiset([y, x] + rest)
    ensures FirstCheck(v, c, [x, y] + rest).Bad? && FirstCheck(v, c, [y, x] + rest).Raises?
  {
    assert [x, y] + rest == [x] + ([y] + rest) && [y, x] + rest == [y] + ([x] + rest);
  }
}
