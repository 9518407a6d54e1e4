/**
 Making a goal safe to type into a terminal, and the two lines a cleared session is restarted with
 (scripts/clear_trigger.py:77-86, 134-184). `str.isprintable` is a parameter.
 */
module GoalSanitizer {
  import opened Common
  import opened Text

  const GOAL_MAX_CHARS: nat := 4000

  // ---------- the passes ----------

  /** `text.replace("@", "(at)")` */
  function SpellAt(s: string): string {
    if s == [] then [] else (if s[0] == '@' then "(at)" else [s[0]]) + SpellAt(s[1..])
  }

  /** `" ".join(text.split())`: runs of whitespace become one space, those at the ends disappear. */
  function Squeeze(s: string): string {
    if s == [] then []
    else
      var n := |s| - 1;
      var r := Squeeze(s[..n]);
      if IsSpace(s[n]) then r
      else if n > 0 && IsSpace(s[n - 1]) && r != [] then r + " " + [s[n]]
      else r + [s[n]]
  }

  function Keep(s: string, printable: char -> bool): string {
    if s == [] then [] else (if printable(s[0]) then [s[0]] else []) + Keep(s[1..], printable)
  }

  predicate PasteAt(s: string, i: nat) {
    i + 5 <= |s| && s[i] == '[' && s[i + 1] == '2' && s[i + 2] == '0'
    && (s[i + 3] == '0' || s[i + 3] == '1') && s[i + 4] == '~'
  }

  /** One pass from the left deletes every paste marker it meets. */
  function DropPaste(s: string): string {
    if s == [] then []
    else if PasteAt(s, 0) then DropPaste(s[5..])
    else [s[0]] + DropPaste(s[1..])
  }

  const MARKER: string := "janitor-"

  /** One letter of the pattern, ignoring case as `re` does. */
  predicate Matches(c: char, p: char) {
    c == p || ('a' <= p <= 'z' && c as int == p as int - 32) || (p == 'i' && (c == '\U{130}' || c == '\U{131}'))
  }

  predicate MarkerAt(s: string, i: nat) {
    i + 9 <= |s| && s[i] == '[' && forall k | 0 <= k < 8 :: Matches(s[i + 1 + k], MARKER[k])
  }

  /** The bracket of every janitor marker is replaced by one that is not. */
  function MaskFrom(s: string, i: nat): string
    requires i <= |s|
    decreases |s| - i
  {
    if i == |s| then [] else [if MarkerAt(s, i) then '\U{27E6}' else s[i]] + MaskFrom(s, i + 1)
  }

  function LStripSlash(s: string): string {
    if s != [] && (s[0] == '/' || s[0] == ' ') then LStripSlash(s[1..]) else s
  }

  /** What the passes before the deletion leave. */
  function Kept(text: string, printable: char -> bool): string {
    Keep(Squeeze(SpellAt(text)), printable)
  }

  function Sanitize(text: string, printable: char -> bool): string {
    var masked := MaskFrom(DropPaste(Kept(text, printable)), 0);
    LStripSlash(Squeeze(if |masked| > GOAL_MAX_CHARS then masked[..GOAL_MAX_CHARS] else masked))
  }

  // ---------- the guarantees ----------

  ghost predicate NoMarker(s: string) {
    forall i: nat | i < |s| :: !MarkerAt(s, i)
  }

  ghost predicate All(s: string, p: char -> bool) {
    forall k | 0 <= k < |s| :: p(s[k])
  }

  predicate NotAt(c: char) {
    c != '@'
  }

  /** Whitespace is single plain spaces, none at the end. */
  ghost predicate Tidy(s: string) {
    && (forall k | 0 <= k < |s| && IsSpace(s[k]) :: s[k] == ' ')
    && (forall j, k | 0 <= j < k < |s| && k == j + 1 && s[j] == ' ' :: s[k] != ' ')
    && (s != [] ==> s[|s| - 1] != ' ')
  }

  /** What may be typed. */
  ghost predicate SafeToType(s: string, printable: char -> bool) {
    && |s| <= 4000
    && All(s, printable)
    && All(s, NotAt)
    && Tidy(s)
    && NoMarker(s)
    && (s != [] ==> s[0] != '/' && s[0] != ' ')
  }

  // ---------- character by character ----------

  lemma {:induction false} SpellAtHasNoAt(s: string)
    ensures All(SpellAt(s), NotAt)
  {
    if s != [] {
      SpellAtHasNoAt(s[1..]);
      AllOfConcat(if s[0] == '@' then "(at)" else [s[0]], SpellAt(s[1..]), NotAt);
    }
  }

  lemma AllOfConcat(a: string, b: string, p: char -> bool)
    requires All(a, p) && All(b, p)
    ensures All(a + b, p)
  {
  }

  lemma {:induction false} SqueezeKeeps(s: string, p: char -> bool)
    requires All(s, p) && p(' ')
    ensures All(Squeeze(s), p)
  {
    if s != [] {
      SqueezeKeeps(s[..|s| - 1], p);
    }
  }

  lemma {:induction false} SqueezeShrinks(s: string)
    ensures |Squeeze(s)| <= |s|
    ensures s != [] && IsSpace(s[|s| - 1]) ==> |Squeeze(s)| < |s|
  {
    if s != [] {
      SqueezeShrinks(s[..|s| - 1]);
    }
  }

  lemma {:induction false} KeepKeeps(s: string, printable: char -> bool, p: char -> bool)
    requires All(s, p)
    ensures All(Keep(s, printable), p) && All(Keep(s, printable), printable)
  {
    if s != [] {
      KeepKeeps(s[1..], printable, p);
    }
  }

  lemma {:induction false} DropPasteKeeps(s: string, p: char -> bool)
    requires All(s, p)
    ensures All(DropPaste(s), p)
  {
    if s != [] {
      if PasteAt(s, 0) {
        DropPasteKeeps(s[5..], p);
      } else {
        DropPasteKeeps(s[1..], p);
      }
    }
  }

  lemma {:induction false} MaskAt(s: string, i: nat, j: nat)
    requires i <= j < |s|
    ensures |MaskFrom(s, i)| == |s| - i
    ensures MaskFrom(s, i)[j - i] == if MarkerAt(s, j) then '\U{27E6}' else s[j]
    decreases |s| - i
  {
    if i < j {
      MaskAt(s, i + 1, j);
    } else if i + 1 < |s| {
      MaskAt(s, i + 1, i + 1);
    }
  }

  lemma {:induction false} MaskLength(s: string, i: nat)
    requires i <= |s|
    ensures |MaskFrom(s, i)| == |s| - i
    decreases |s| - i
  {
    if i < |s| {
      MaskLength(s, i + 1);
    }
  }

  lemma MaskKeeps(s: string, p: char -> bool)
    requires All(s, p) && p('\U{27E6}')
    ensures All(MaskFrom(s, 0), p)
  {
    MaskLength(s, 0);
    forall k | 0 <= k < |s| ensures p(MaskFrom(s, 0)[k]) {
      MaskAt(s, 0, k);
    }
  }

  // ---------- no later pass makes a marker ----------

  lemma LettersAreNotBrackets(c: char, k: nat)
    requires k < 8 && Matches(c, MARKER[k])
    ensures c != '[' && c != '\U{27E6}' && !IsSpace(c)
  {
  }

  /** Every character is kept or became the masking bracket. */
  lemma MaskedOrKept(s: string, k: nat)
    requires k < |s|
    ensures |MaskFrom(s, 0)| == |s| && (MaskFrom(s, 0)[k] == s[k] || MaskFrom(s, 0)[k] == '\U{27E6}')
  {
    MaskAt(s, 0, k);
  }

  /** A marker in the masked text was one before. */
  lemma MarkerWasThere(s: string, i: nat)
    requires MarkerAt(MaskFrom(s, 0), i)
    ensures MarkerAt(s, i)
  {
    var r := MaskFrom(s, 0);
    MaskLength(s, 0);
    MaskedOrKept(s, i);
    forall k | 0 <= k < 8 ensures Matches(s[i + 1 + k], MARKER[k]) {
      MaskedOrKept(s, i + 1 + k);
      LettersAreNotBrackets(r[i + 1 + k], k);
    }
  }

  lemma MaskLeavesNoMarker(s: string)
    ensures NoMarker(MaskFrom(s, 0))
  {
    var r := MaskFrom(s, 0);
    forall i: nat | i < |r| ensures !MarkerAt(r, i) {
      if MarkerAt(r, i) {
        MarkerWasThere(s, i);
        MaskAt(s, 0, i);
      }
    }
  }

  lemma MarkerInPart(s: string, a: nat, b: nat, i: nat)
    requires a <= b <= |s| && MarkerAt(s[a..b], i)
    ensures MarkerAt(s, a + i)
  {
    forall k | 0 <= k < 8 ensures Matches(s[a + i + 1 + k], MARKER[k]) {
      assert s[a..b][i + 1 + k] == s[a + i + 1 + k];
    }
  }

  lemma PartHasNoMarker(s: string, a: nat, b: nat)
    requires a <= b <= |s| && NoMarker(s)
    ensures NoMarker(s[a..b])
  {
    forall i: nat | i < b - a ensures !MarkerAt(s[a..b], i) {
      if MarkerAt(s[a..b], i) {
        MarkerInPart(s, a, b, i);
      }
    }
  }

  ghost predicate SolidTail(r: string, k: nat) {
    k <= |r| && forall j | |r| - k <= j < |r| :: !IsSpace(r[j])
  }

  lemma SolidTailShrinks(q: string, c: char, k: nat)
    requires k > 0 && SolidTail(q + [c], k)
    ensures SolidTail(q, k - 1)
  {
    forall j | |q| - (k - 1) <= j < |q| ensures !IsSpace(q[j]) {
      assert (q + [c])[j] == q[j];
    }
  }

  lemma TailOfSnoc(a: string, c: char, k: nat)
    requires 0 < k <= |a| + 1
    ensures (a + [c])[|a| + 1 - k..] == a[|a| - (k - 1)..] + [c]
  {
  }

  /** A stretch without spaces at the end of the squeezed text ends the text itself. */
  lemma {:induction false} SolidEnd(s: string, k: nat)
    requires s != [] && !IsSpace(s[|s| - 1]) && SolidTail(Squeeze(s), k)
    ensures k <= |s| && s[|s| - k..] == Squeeze(s)[|Squeeze(s)| - k..]
  {
    var n, r := |s| - 1, Squeeze(s);
    var before := s[..n];
    var q := Squeeze(before);
    if k == 1 {
      assert s[|s| - 1..] == [s[n]] == r[|r| - 1..];
    } else if k > 1 {
      assert n > 0 && !IsSpace(before[n - 1]) && r == q + [s[n]] by {
        LastGapIsSolid(s, k);
      }
      SolidTailShrinks(q, s[n], k);
      SolidEnd(before, k - 1);
      assert s == before + [s[n]];
      TailOfSnoc(before, s[n], k);
      TailOfSnoc(q, s[n], k);
    }
  }

  /** The squeezed text grows by the new character, or by a space before it. */
  lemma GapIsSpace(s: string)
    requires s != []
    ensures |Squeeze(s)| == |Squeeze(s[..|s| - 1])| + 2 ==> Squeeze(s)[|Squeeze(s)| - 2] == ' '
  {
  }

  lemma LastGapIsSolid(s: string, k: nat)
    requires s != [] && !IsSpace(s[|s| - 1]) && SolidTail(Squeeze(s), k) && k > 1
    ensures var n := |s| - 1; n > 0 && !IsSpace(s[n - 1]) && Squeeze(s) == Squeeze(s[..n]) + [s[n]]
  {
    var n, r := |s| - 1, Squeeze(s);
    var q := Squeeze(s[..n]);
    assert !IsSpace(r[|r| - 2]);
    if |r| == |q| + 2 {
      GapIsSpace(s);
    }
  }

  ghost predicate SolidWindow(r: string, i: nat, w: nat) {
    i + w <= |r| && forall j | i <= j < i + w :: !IsSpace(r[j])
  }

  lemma WindowOfPrefix(q: string, r: string, i: nat, w: nat)
    requires q <= r && i + w <= |q|
    ensures q[i..i + w] == r[i..i + w] && (SolidWindow(q, i, w) <==> SolidWindow(r, i, w))
  {
    assert forall j | i <= j < i + w :: q[j] == r[j];
  }

  /** Squeezing creates no stretch without spaces: each was in the text already. */
  lemma {:induction false} WindowWasThere(s: string, i: nat, w: nat) returns (m: nat)
    requires SolidWindow(Squeeze(s), i, w) && w > 0
    ensures m + w <= |s| && s[m..m + w] == Squeeze(s)[i..i + w]
  {
    var n, r := |s| - 1, Squeeze(s);
    var q := Squeeze(s[..n]);
    if i + w <= |q| {
      WindowOfPrefix(q, r, i, w);
      m := WindowWasThere(s[..n], i, w);
      WindowOfPrefix(s[..n], s, m, w);
    } else {
      if |r| == |q| + 2 {
        GapIsSpace(s);
      }
      assert !IsSpace(s[n]);
      assert i + w == |r|;
      SolidEnd(s, w);
      m := |s| - w;
      assert s[m..m + w] == s[m..] && r[i..i + w] == r[i..];
    }
  }

  lemma SqueezeGrows(s: string)
    requires s != []
    ensures Squeeze(s[..|s| - 1]) <= Squeeze(s)
  {
  }

  lemma LastWindow(s: string, w: nat)
    requires w <= |s|
    ensures s[|s| - w..|s|] == s[|s| - w..]
  {
  }

  /** And it breaks none. */
  lemma {:induction false} WindowSurvives(s: string, m: nat, w: nat) returns (i: nat)
    requires SolidWindow(s, m, w) && w > 0
    ensures i + w <= |Squeeze(s)| && s[m..m + w] == Squeeze(s)[i..i + w]
  {
    var n := |s| - 1;
    if m + w <= n {
      WindowOfPrefix(s[..n], s, m, w);
      i := WindowSurvives(s[..n], m, w);
      SqueezeGrows(s);
      WindowOfPrefix(Squeeze(s[..n]), Squeeze(s), i, w);
    } else {
      SolidEndSurvives(s, w);
      i := |Squeeze(s)| - w;
      LastWindow(s, w);
      LastWindow(Squeeze(s), w);
    }
  }

  lemma {:induction false} SolidEndSurvives(s: string, k: nat)
    requires SolidTail(s, k) && k > 0
    ensures k <= |Squeeze(s)| && Squeeze(s)[|Squeeze(s)| - k..] == s[|s| - k..]
  {
    var n, r := |s| - 1, Squeeze(s);
    var before := s[..n];
    assert s == before + [s[n]] && !IsSpace(s[n]);
    if k == 1 {
      assert r[|r| - 1..] == [s[n]] == s[n..];
    } else {
      assert !IsSpace(s[n - 1]);
      SolidTailShrinks(before, s[n], k);
      SolidEndSurvives(before, k - 1);
      TailOfSnoc(before, s[n], k);
      TailOfSnoc(Squeeze(before), s[n], k);
    }
  }

  lemma MarkerByWindow(s: string, i: nat, t: string, m: nat)
    requires MarkerAt(s, i) && m + 9 <= |t| && t[m..m + 9] == s[i..i + 9]
    ensures MarkerAt(t, m)
  {
    SameInWindow(s, i, t, m, 9, 0);
    forall k | 0 <= k < 8 ensures Matches(t[m + 1 + k], MARKER[k]) {
      SameInWindow(s, i, t, m, 9, 1 + k);
    }
  }

  lemma SameInWindow(s: string, i: nat, t: string, m: nat, w: nat, k: nat)
    requires i + w <= |s| && m + w <= |t| && t[m..m + w] == s[i..i + w] && k < w
    ensures t[m + k] == s[i + k]
  {
    assert t[m..m + w][k] == s[i..i + w][k];
  }

  lemma MarkerIsSolid(s: string, i: nat)
    requires MarkerAt(s, i)
    ensures SolidWindow(s, i, 9)
  {
    forall j | i <= j < i + 9 ensures !IsSpace(s[j]) {
      if j > i {
        assert Matches(s[i + 1 + (j - i - 1)], MARKER[j - i - 1]);
        LettersAreNotBrackets(s[j], j - i - 1);
      }
    }
  }

  lemma SqueezeMakesNoMarker(s: string)
    requires NoMarker(s)
    ensures NoMarker(Squeeze(s))
  {
    var r := Squeeze(s);
    forall i: nat | i < |r| ensures !MarkerAt(r, i) {
      if MarkerAt(r, i) {
        MarkerIsSolid(r, i);
        var m := WindowWasThere(s, i, 9);
        MarkerByWindow(r, i, s, m);
      }
    }
  }

  // ---------- tidy ----------

  lemma {:induction false} SqueezeIsTidy(s: string)
    ensures Tidy(Squeeze(s))
    ensures Squeeze(s) != [] ==> !IsSpace(Squeeze(s)[0]) && !IsSpace(Squeeze(s)[|Squeeze(s)| - 1])
  {
    if s != [] {
      SqueezeIsTidy(s[..|s| - 1]);
    }
  }

  lemma {:induction false} LStripIsPart(s: string) returns (a: nat)
    ensures a <= |s| && LStripSlash(s) == s[a..]
    ensures LStripSlash(s) != [] ==> LStripSlash(s)[0] != '/' && LStripSlash(s)[0] != ' '
  {
    a := 0;
    if s != [] && (s[0] == '/' || s[0] == ' ') {
      a := LStripIsPart(s[1..]);
      a := a + 1;
    }
  }

  /**
   For every text: at most 4000 characters, all printable (so no newline and no control), no `@`, single
   spaces only, no leading slash, and no janitor marker in whatever case. No pass brings back what an
   earlier one took out.
   */
  lemma SanitizedIsSafe(text: string, printable: char -> bool)
    requires printable(' ') && printable('\U{27E6}')
    ensures SafeToType(Sanitize(text, printable), printable)
  {
    SpellAtHasNoAt(text);
    SqueezeKeeps(SpellAt(text), NotAt);
    var squeezed := Squeeze(SpellAt(text));
    KeepKeeps(squeezed, printable, NotAt);
    var kept := Keep(squeezed, printable);
    DropPasteKeeps(kept, printable);
    DropPasteKeeps(kept, NotAt);
    var dropped := DropPaste(kept);
    MaskKeeps(dropped, printable);
    MaskKeeps(dropped, NotAt);
    MaskLeavesNoMarker(dropped);
    FinishIsSafe(MaskFrom(dropped, 0), printable);
  }

  lemma AllOfPart(s: string, a: nat, b: nat, p: char -> bool)
    requires a <= b <= |s| && All(s, p)
    ensures All(s[a..b], p)
  {
  }

  lemma FinishIsSafe(masked: string, printable: char -> bool)
    requires All(masked, printable) && All(masked, NotAt) && NoMarker(masked) && printable(' ')
    ensures SafeToType(LStripSlash(Squeeze(if |masked| > GOAL_MAX_CHARS then masked[..GOAL_MAX_CHARS] else masked)), printable)
  {
    var cut := if |masked| > GOAL_MAX_CHARS then masked[..GOAL_MAX_CHARS] else masked;
    assert masked[0..|cut|] == cut;
    PartHasNoMarker(masked, 0, |cut|);
    AllOfPart(masked, 0, |cut|, printable);
    AllOfPart(masked, 0, |cut|, NotAt);
    SqueezeMakesNoMarker(cut);
    SqueezeShrinks(cut);
    SqueezeKeeps(cut, printable);
    SqueezeKeeps(cut, NotAt);
    SqueezeIsTidy(cut);
    StripIsSafe(Squeeze(cut), printable);
  }

  lemma StripIsSafe(tidy: string, printable: char -> bool)
    requires |tidy| <= GOAL_MAX_CHARS && All(tidy, printable) && All(tidy, NotAt) && Tidy(tidy) && NoMarker(tidy)
    ensures SafeToType(LStripSlash(tidy), printable)
  {
    var a := LStripIsPart(tidy);
    assert tidy[a..|tidy|] == tidy[a..];
    PartHasNoMarker(tidy, a, |tidy|);
    AllOfPart(tidy, a, |tidy|, printable);
    AllOfPart(tidy, a, |tidy|, NotAt);
    SuffixIsTidy(tidy, a);
  }

  lemma SuffixIsTidy(s: string, a: nat)
    requires a <= |s| && Tidy(s)
    ensures Tidy(s[a..])
  {
    var r := s[a..];
    assert forall k | 0 <= k < |r| :: r[k] == s[a + k];
  }

  // ---------- the bootstrap ----------

  const ARM_CMD: string := "/janitor-arm"
  const RESUME_CMD: string := "/janitor-resume"
  const GOAL_CMD: string := "/goal"

  /** `goal` is what the transcript yields: None when there is none, or reading it failed. */
  function ClearBootstrap(goal: Option<string>, printable: char -> bool): seq<string> {
    if goal.Some? && Sanitize(goal.value, printable) != "" then
      [ARM_CMD, GOAL_CMD + " " + Sanitize(goal.value, printable)]
    else [ARM_CMD, RESUME_CMD]
  }

  /** Whatever the transcript holds, exactly an arm line and then one resume line or one safe goal line. */
  lemma BootstrapIsTwoLines(goal: Option<string>, printable: char -> bool)
    requires printable(' ') && printable('\U{27E6}')
    ensures var cmds := ClearBootstrap(goal, printable);
            && |cmds| == 2 && cmds[0] == ARM_CMD
            && (cmds[1] == RESUME_CMD
                || exists g: string :: g != "" && SafeToType(g, printable) && cmds[1] == GOAL_CMD + " " + g)
  {
    if goal.Some? {
      SanitizedIsSafe(goal.value, printable);
    }
  }

  // ---------- what is not guaranteed ----------

  lemma {:induction false} SolidIsUntouched(s: string, printable: char -> bool)
    requires Solid(s, printable)
    ensures SpellAt(s) == s && Squeeze(s) == s && Keep(s, printable) == s
  {
    if s != [] {
      SolidIsUntouched(s[1..], printable);
      assert s == [s[0]] + s[1..];
      var n := |s| - 1;
      SolidIsUntouched(s[..n], printable);
      assert s == s[..n] + [s[n]];
    }
  }

  // ---------- paste markers ----------

  ghost predicate NoPaste(s: string) {
    forall i: nat | i < |s| :: !PasteAt(s, i)
  }

  /** The `k`-th character of a paste marker. */
  predicate Fits(c: char, k: nat) {
    (k == 0 && c == '[') || (k == 1 && c == '2') || (k == 2 && c == '0')
    || (k == 3 && (c == '0' || c == '1')) || (k == 4 && c == '~')
  }

  /** `s` spells the rest of a paste marker, from its `k`-th character on, around whole paste markers. */
  predicate SpellsRest(s: string, k: nat) {
    k == 5
    || (s != [] && if PasteAt(s, 0) then SpellsRest(s[5..], k) else Fits(s[0], k) && SpellsRest(s[1..], k + 1))
  }

  /** A paste marker stands at `i`, but with at least one whole paste marker inside it. */
  predicate SplitPasteAt(s: string, i: nat) {
    i < |s| && s[i] == '[' && !PasteAt(s, i) && SpellsRest(s[i + 1..], 1)
  }

  /** `r` begins with a paste marker's characters from the `k`-th on. */
  predicate BeginsRest(r: string, k: nat)
    requires k <= 5
  {
    k == 5 || (r != [] && Fits(r[0], k) && BeginsRest(r[1..], k + 1))
  }

  lemma {:induction false} SpellsIsBegins(s: string, k: nat)
    requires k <= 5
    ensures SpellsRest(s, k) <==> BeginsRest(DropPaste(s), k)
  {
    var r := DropPaste(s);
    if k < 5 && s != [] {
      if PasteAt(s, 0) {
        SpellsIsBegins(s[5..], k);
      } else {
        SpellsIsBegins(s[1..], k + 1);
        assert r[0] == s[0] && r[1..] == DropPaste(s[1..]);
      }
    }
  }

  lemma SplitInRest(s: string, d: nat)
    requires d <= |s|
    ensures forall i: nat :: SplitPasteAt(s[d..], i) <==> SplitPasteAt(s, d + i)
  {
    forall i: nat ensures SplitPasteAt(s[d..], i) <==> SplitPasteAt(s, d + i) {
      if d + i < |s| {
        assert s[d..][i + 1..] == s[d + i + 1..];
        assert PasteAt(s[d..], i) <==> PasteAt(s, d + i);
      }
    }
  }

  ghost predicate NoSplit(s: string) {
    forall i: nat | i < |s| :: !SplitPasteAt(s, i)
  }

  lemma ConsPaste(c: char, rest: string)
    ensures NoPaste([c] + rest) <==> !PasteAt([c] + rest, 0) && NoPaste(rest)
  {
    var r := [c] + rest;
    assert forall i: nat | 0 < i < |r| :: PasteAt(r, i) <==> PasteAt(rest, i - 1);
    assert forall i: nat | i < |rest| :: PasteAt(rest, i) <==> PasteAt(r, i + 1);
  }

  /** Beyond its first `d` characters, none of which begins one, `s` has the split markers of its rest. */
  lemma SplitBeyond(s: string, d: nat)
    requires d <= |s|
    ensures NoSplit(s) <==> NoSplit(s[d..]) && forall i: nat | i < d :: !SplitPasteAt(s, i)
  {
    SplitInRest(s, d);
    assert forall i: nat | d <= i < |s| :: SplitPasteAt(s, i) <==> SplitPasteAt(s[d..], i - d);
    assert forall i: nat | i < |s[d..]| :: SplitPasteAt(s[d..], i) <==> SplitPasteAt(s, d + i);
  }

  /** The deleting pass leaves a paste marker exactly where it met a split one. */
  lemma {:induction false} DropPasteExactly(s: string)
    ensures NoPaste(DropPaste(s)) <==> NoSplit(s)
  {
    if s != [] {
      if PasteAt(s, 0) {
        DropPasteExactly(s[5..]);
        SplitBeyond(s, 5);
        MarkersHoldNoSplit(s);
      } else {
        DropPasteExactly(s[1..]);
        SplitBeyond(s, 1);
        var rest := DropPaste(s[1..]);
        SpellsIsBegins(s[1..], 1);
        HeadPaste(s[0], rest);
        ConsPaste(s[0], rest);
        assert DropPaste(s) == [s[0]] + rest;
        assert SplitPasteAt(s, 0) <==> PasteAt([s[0]] + rest, 0);
      }
    }
  }

  lemma HeadPaste(c: char, rest: string)
    ensures PasteAt([c] + rest, 0) <==> c == '[' && BeginsRest(rest, 1)
  {
    if |rest| >= 4 {
      assert rest[1..][1..] == rest[2..] && rest[2..][1..] == rest[3..];
      assert BeginsRest(rest[3..], 4) <==> Fits(rest[3], 4);
      assert BeginsRest(rest[2..], 3) <==> Fits(rest[2], 3) && Fits(rest[3], 4);
      assert BeginsRest(rest[1..], 2) <==> Fits(rest[1], 2) && Fits(rest[2], 3) && Fits(rest[3], 4);
    } else {
      TooShort(rest, 1);
    }
  }

  lemma {:induction false} TooShort(r: string, k: nat)
    requires k <= 5 && |r| < 5 - k
    ensures !BeginsRest(r, k)
  {
    if r != [] {
      TooShort(r[1..], k + 1);
    }
  }

  lemma MarkersHoldNoSplit(s: string)
    requires PasteAt(s, 0)
    ensures forall i: nat | i < 5 :: !SplitPasteAt(s, i)
  {
  }

  lemma PasteWasThere(s: string, i: nat)
    requires i + 5 <= |s| && PasteAt(MaskFrom(s, 0), i)
    ensures PasteAt(s, i)
  {
    MaskedOrKept(s, i);
    MaskedOrKept(s, i + 1);
    MaskedOrKept(s, i + 2);
    MaskedOrKept(s, i + 3);
    MaskedOrKept(s, i + 4);
  }

  /** No character of a paste marker is the bracket of a janitor marker. */
  lemma PasteIsNotMasked(s: string, i: nat, j: nat)
    requires PasteAt(s, i) && i <= j < i + 5
    ensures |MaskFrom(s, 0)| == |s| && MaskFrom(s, 0)[j] == s[j]
  {
    MaskLength(s, 0);
    MaskAt(s, 0, j);
    assert MarkerAt(s, j) ==> s[j] == '[' && Matches(s[j + 1 + 0], MARKER[0]);
  }

  lemma PasteStays(s: string, i: nat)
    requires PasteAt(s, i)
    ensures PasteAt(MaskFrom(s, 0), i)
  {
    PasteIsNotMasked(s, i, i);
    PasteIsNotMasked(s, i, i + 1);
    PasteIsNotMasked(s, i, i + 2);
    PasteIsNotMasked(s, i, i + 3);
    PasteIsNotMasked(s, i, i + 4);
  }

  lemma MaskedPaste(s: string, i: nat)
    requires i + 5 <= |s|
    ensures PasteAt(MaskFrom(s, 0), i) <==> PasteAt(s, i)
  {
    if PasteAt(s, i) {
      PasteStays(s, i);
    }
    if PasteAt(MaskFrom(s, 0), i) {
      PasteWasThere(s, i);
    }
  }

  lemma PasteByWindow(s: string, i: nat, t: string, m: nat)
    requires PasteAt(s, i) && m + 5 <= |t| && t[m..m + 5] == s[i..i + 5]
    ensures PasteAt(t, m)
  {
    SameInWindow(s, i, t, m, 5, 0);
    SameInWindow(s, i, t, m, 5, 1);
    SameInWindow(s, i, t, m, 5, 2);
    SameInWindow(s, i, t, m, 5, 3);
    SameInWindow(s, i, t, m, 5, 4);
  }

  lemma SqueezeKeepsPaste(s: string)
    ensures NoPaste(Squeeze(s)) <==> NoPaste(s)
  {
    var r := Squeeze(s);
    if i: nat :| i < |r| && PasteAt(r, i) {
      var m := WindowWasThere(s, i, 5);
      PasteByWindow(r, i, s, m);
    }
    if m: nat :| m < |s| && PasteAt(s, m) {
      var i := WindowSurvives(s, m, 5);
      PasteByWindow(s, m, r, i);
    }
  }

  lemma {:induction false} LStripKeepsPaste(s: string)
    ensures NoPaste(LStripSlash(s)) <==> NoPaste(s)
  {
    if s != [] && (s[0] == '/' || s[0] == ' ') {
      var rest := s[1..];
      LStripKeepsPaste(rest);
      assert !PasteAt(s, 0);
      assert forall i: nat | i < |rest| :: PasteAt(rest, i) <==> PasteAt(s, i + 1);
      assert forall i: nat | 0 < i < |s| :: PasteAt(s, i) <==> PasteAt(rest, i - 1);
    }
  }

  /** How much of `s` the first `n` characters of the deleting pass come from. */
  function Reach(s: string, n: nat): (k: nat)
    ensures k <= |s|
  {
    if n == 0 || s == [] then 0
    else if PasteAt(s, 0) then 5 + Reach(s[5..], n)
    else 1 + Reach(s[1..], n - 1)
  }

  /** Cutting after the deletion is deleting from the part that is reached. */
  lemma {:induction false} CutIsReach(s: string, n: nat)
    ensures DropPaste(s[..Reach(s, n)]) == if n < |DropPaste(s)| then DropPaste(s)[..n] else DropPaste(s)
    decreases |s|
  {
    if n > 0 && s != [] {
      var k := Reach(s, n);
      if PasteAt(s, 0) {
        CutIsReach(s[5..], n);
        assert s[..k][5..] == s[5..][..k - 5];
      } else {
        CutIsReach(s[1..], n - 1);
        assert s[..k][1..] == s[1..][..k - 1];
      }
    }
  }

  /** The part of the printable text that the result is made of. */
  function Reached(text: string, printable: char -> bool): string {
    var kept := Kept(text, printable);
    kept[..Reach(kept, GOAL_MAX_CHARS)]
  }

  /**
   Paste markers are promised to be gone, and are not always: the result is free of them if and only if the
   part of the printable text that fits holds no split marker, one that stands around another.
   */
  lemma PasteFreeExactly(text: string, printable: char -> bool)
    ensures NoPaste(Sanitize(text, printable)) <==> NoSplit(Reached(text, printable))
  {
    var dropped := DropPaste(Kept(text, printable));
    CutIsReach(Kept(text, printable), GOAL_MAX_CHARS);
    DropPasteExactly(Reached(text, printable));
    FinishKeepsPaste(dropped, if |dropped| > GOAL_MAX_CHARS then GOAL_MAX_CHARS else |dropped|);
    assert dropped[..|dropped|] == dropped;
  }

  lemma FinishKeepsPaste(dropped: string, n: nat)
    requires n == if |dropped| > GOAL_MAX_CHARS then GOAL_MAX_CHARS else |dropped|
    ensures var masked := MaskFrom(dropped, 0);
            NoPaste(LStripSlash(Squeeze(if |masked| > GOAL_MAX_CHARS then masked[..GOAL_MAX_CHARS] else masked)))
            <==> NoPaste(dropped[..n])
  {
    var masked := MaskFrom(dropped, 0);
    CutOfMask(dropped, n);
    var cut := if |masked| > GOAL_MAX_CHARS then masked[..GOAL_MAX_CHARS] else masked;
    assert cut == masked[..n];
    SqueezeKeepsPaste(cut);
    LStripKeepsPaste(Squeeze(cut));
  }

  /** Masking neither makes nor breaks a paste marker, before a cut or after it. */
  lemma CutOfMask(s: string, n: nat)
    requires n <= |s|
    ensures |MaskFrom(s, 0)| == |s| && (NoPaste(MaskFrom(s, 0)[..n]) <==> NoPaste(s[..n]))
  {
    MaskLength(s, 0);
    var r := MaskFrom(s, 0);
    forall i: nat | i < n ensures PasteAt(r[..n], i) <==> PasteAt(s[..n], i) {
      if i + 5 <= n {
        MaskedPaste(s, i);
        assert PasteAt(r[..n], i) <==> PasteAt(r, i);
        assert PasteAt(s[..n], i) <==> PasteAt(s, i);
      }
    }
  }

  lemma DropNothing()
    ensures DropPaste("0~") == "0~"
  {
    assert "0~"[1..] == "~" && "~"[1..] == "";
    assert DropPaste("~") == "~";
  }

  lemma DropMiddle()
    ensures DropPaste("[200~0~") == "0~"
  {
    DropNothing();
    assert "[200~0~"[5..] == "0~";
  }

  lemma DropPasteForms()
    ensures DropPaste("[20[200~0~") == "[200~"
  {
    var s := "[20[200~0~";
    DropMiddle();
    assert s[3..] == "[200~0~";
    assert s[2..] == ['0'] + s[3..] && s[2..][1..] == s[3..];
    assert DropPaste(s[2..]) == "00~";
    assert s[1..] == ['2'] + s[2..] && s[1..][1..] == s[2..];
    assert DropPaste(s[1..]) == "200~";
  }

  ghost predicate Solid(s: string, printable: char -> bool) {
    forall k | 0 <= k < |s| :: !IsSpace(s[k]) && s[k] != '@' && printable(s[k])
  }

  lemma SanitizeOfSolid(s: string, r: string, printable: char -> bool)
    requires Solid(s, printable) && r == DropPaste(s)
    requires Solid(r, printable) && NoMarker(r) && |r| <= GOAL_MAX_CHARS && (r != [] ==> r[0] != '/')
    ensures Sanitize(s, printable) == r
  {
    SolidIsUntouched(s, printable);
    assert Kept(s, printable) == s;
    UnmaskedIsUntouched(r);
    SolidIsUntouched(r, printable);
    assert LStripSlash(r) == r;
  }

  lemma UnmaskedIsUntouched(r: string)
    requires NoMarker(r)
    ensures MaskFrom(r, 0) == r
  {
    MaskLength(r, 0);
    forall k | 0 <= k < |r| ensures MaskFrom(r, 0)[k] == r[k] {
      MaskAt(r, 0, k);
    }
  }

  lemma ShortHasNoMarker(s: string)
    requires |s| < 9
    ensures NoMarker(s)
  {
  }

  lemma SolidConcat(a: string, b: string, printable: char -> bool)
    requires Solid(a, printable) && Solid(b, printable)
    ensures Solid(a + b, printable)
  {
  }

  lemma MarkerTextIsSolid(printable: char -> bool)
    requires printable('[') && printable('2') && printable('0') && printable('~')
    ensures Solid("[200~", printable) && Solid("[20[200~0~", printable)
  {
    assert Solid("[20", printable) && Solid("0~", printable) && Solid("[200~", printable);
    SolidConcat("[20", "[200~", printable);
    SolidConcat("[20" + "[200~", "0~", printable);
    assert "[20" + "[200~" + "0~" == "[20[200~0~";
  }

  /** The single deleting pass lets its own deletions form a new paste marker. */
  lemma PasteMarkersCanReform(printable: char -> bool)
    requires printable('[') && printable('2') && printable('0') && printable('~')
    ensures Sanitize("[20[200~0~", printable) == "[200~" && PasteAt("[200~", 0)
  {
    var s, r := "[20[200~0~", "[200~";
    MarkerTextIsSolid(printable);
    ShortHasNoMarker(r);
    assert DropPaste(s) == r by {
      DropPasteForms();
    }
    SanitizeOfSolid(s, r, printable);
  }
}
