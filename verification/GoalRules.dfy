/**
 What the goal sanitizer leaves alone and what it changes, exactly (scripts/clear_trigger.py:134-184): each pass
 by its law, the goals that come back as they are, and the bootstrap that follows.
 */
module GoalRules {
  import opened Common
  import opened Text
  import opened GoalSanitizer

  // ---------- the passes, by their laws ----------

  /** Every `@` is spelled out, everything else stays. */
  lemma SpellAtExactly(a: string, b: string, c: char)
    ensures SpellAt([c]) == if c == '@' then "(at)" else [c]
    ensures SpellAt(a + b) == SpellAt(a) + SpellAt(b)
  {
    assert SpellAt([]) == [] && [c][1..] == [];
    SpellAtConcat(a, b);
  }

  lemma {:induction false} SpellAtConcat(a: string, b: string)
    ensures SpellAt(a + b) == SpellAt(a) + SpellAt(b)
  {
    if a == [] {
      assert a + b == b;
    } else {
      SpellAtConcat(a[1..], b);
      assert (a + b)[1..] == a[1..] + b;
      Regroup(if a[0] == '@' then "(at)" else [a[0]], SpellAt(a[1..]), SpellAt(b));
    }
  }

  lemma Regroup(x: string, y: string, z: string)
    ensures x + (y + z) == (x + y) + z
  {
  }

  /** What is not printable goes, everything else stays. */
  lemma {:induction false} KeepExactly(a: string, b: string, c: char, printable: char -> bool)
    ensures Keep([c], printable) == if printable(c) then [c] else []
    ensures Keep(a + b, printable) == Keep(a, printable) + Keep(b, printable)
  {
    assert Keep([], printable) == [] && [c][1..] == [];
    if a == [] {
      assert a + b == b;
    } else {
      KeepExactly(a[1..], b, c, printable);
      assert (a + b)[1..] == a[1..] + b;
    }
  }

  predicate AllSolid(s: string) {
    forall k | 0 <= k < |s| :: !IsSpace(s[k])
  }

  function Joined(a: string, b: string): string {
    if a == [] then b else if b == [] then a else a + " " + b
  }

  /** A word stays; whatever whitespace stands between words becomes one space, and none is left at the ends. */
  lemma {:induction false} SqueezeWord(s: string)
    requires AllSolid(s)
    ensures Squeeze(s) == s
  {
    if s != [] {
      SqueezeWord(s[..|s| - 1]);
      assert s == s[..|s| - 1] + [s[|s| - 1]];
    }
  }

  lemma SqueezeSnoc(t: string, c: char, s: string)
    requires s == t + [c]
    ensures var r := Squeeze(t);
            Squeeze(s) == if IsSpace(c) then r
                          else if t != [] && IsSpace(t[|t| - 1]) && r != [] then r + " " + [c] else r + [c]
  {
    assert s[..|s| - 1] == t;
  }

  lemma {:induction false} SqueezeExactly(a: string, space: char, b: string)
    requires IsSpace(space)
    ensures Squeeze(a + [space] + b) == Joined(Squeeze(a), Squeeze(b))
    decreases |b|
  {
    var s := a + [space] + b;
    if b == [] {
      assert s == a + [space];
      SqueezeSnoc(a, space, s);
    } else {
      var c, d := b[|b| - 1], b[..|b| - 1];
      assert b == d + [c] && s == a + [space] + d + [c];
      SqueezeExactly(a, space, d);
      SqueezeSnoc(d, c, b);
      SqueezeSnoc(a + [space] + d, c, s);
      if !IsSpace(c) {
        assert (a + [space] + d)[|a + [space] + d| - 1] == if d == [] then space else d[|d| - 1];
        if d != [] && !IsSpace(d[|d| - 1]) {
          SpaceOrWord(d);
        }
        OneMoreLetter(Squeeze(a), Squeeze(d), d == [] || IsSpace(d[|d| - 1]), c);
      }
    }
  }

  /** A letter after the joined text belongs to its last word. */
  lemma OneMoreLetter(p: string, q: string, gap: bool, c: char)
    requires q == [] ==> gap
    ensures var r := Joined(p, q);
            (if gap && r != [] then r + " " + [c] else r + [c])
            == Joined(p, if gap && q != [] then q + " " + [c] else q + [c])
  {
    assert p + " " + q + [c] == p + " " + (q + [c]);
    assert p + " " + q + " " + [c] == p + " " + (q + " " + [c]);
    assert q == [] ==> q + [c] == [c];
  }

  /** Only a text of nothing but whitespace is squeezed to nothing. */
  lemma SpaceOrWord(s: string)
    requires s != [] && !IsSpace(s[|s| - 1])
    ensures Squeeze(s) != []
  {
  }

  /** A janitor marker, letter by letter and in whatever case, the Turkish i's included. */
  lemma MarkerExactly(s: string, i: nat)
    ensures MarkerAt(s, i)
       <==> && i + 9 <= |s| && s[i] == '[' && s[i + 1] in "jJ" && s[i + 2] in "aA" && s[i + 3] in "nN"
            && s[i + 4] in "iI\U{130}\U{131}" && s[i + 5] in "tT" && s[i + 6] in "oO" && s[i + 7] in "rR" && s[i + 8] == '-'
  {
    if i + 9 <= |s| {
      var m := MARKER;
      assert m[0] == 'j' && m[1] == 'a' && m[2] == 'n' && m[3] == 'i' && m[4] == 't' && m[5] == 'o' && m[6] == 'r' && m[7] == '-';
    }
  }

  /** Up to the first paste marker all stays, the marker goes, and the rest is treated likewise. */
  lemma {:induction false} DropPasteAt(s: string, i: nat)
    requires PasteAt(s, i) && forall k: nat | k < i :: !PasteAt(s, k)
    ensures DropPaste(s) == s[..i] + DropPaste(s[i + 5..])
    decreases i
  {
    if i > 0 {
      forall k: nat | k < i - 1 ensures !PasteAt(s[1..], k) {
        assert !PasteAt(s, k + 1);
      }
      DropPasteAt(s[1..], i - 1);
      assert s[1..][i - 1 + 5..] == s[i + 5..] && [s[0]] + s[1..][..i - 1] == s[..i];
      assert !PasteAt(s, 0);
    }
  }

  lemma {:induction false} NothingToDrop(s: string)
    requires NoPaste(s)
    ensures DropPaste(s) == s
  {
    if s != [] {
      forall k: nat | k < |s| - 1 ensures !PasteAt(s[1..], k) {
        assert !PasteAt(s, k + 1);
      }
      NothingToDrop(s[1..]);
      assert !PasteAt(s, 0);
    }
  }

  lemma {:induction false} DropShortens(s: string)
    ensures |DropPaste(s)| <= |s|
  {
    if s != [] {
      if PasteAt(s, 0) {
        DropShortens(s[5..]);
      } else {
        DropShortens(s[1..]);
      }
    }
  }

  lemma {:induction false} DropChanges(s: string)
    requires !NoPaste(s)
    ensures |DropPaste(s)| < |s|
  {
    DropShortens(s);
    var i: nat :| i < |s| && PasteAt(s, i);
    if PasteAt(s, 0) {
      DropShortens(s[5..]);
    } else {
      assert PasteAt(s[1..], i - 1);
      DropChanges(s[1..]);
    }
  }

  /** Slashes and spaces go from the front, up to the first other character. */
  lemma {:induction false} LStripExactly(s: string) returns (k: nat)
    ensures k <= |s| && LStripSlash(s) == s[k..] && (forall j | 0 <= j < k :: s[j] == '/' || s[j] == ' ')
    ensures k < |s| ==> s[k] != '/' && s[k] != ' '
  {
    if s != [] && (s[0] == '/' || s[0] == ' ') {
      var m := LStripExactly(s[1..]);
      k := m + 1;
    } else {
      k := 0;
    }
  }

  // ---------- the goals that come back as they are ----------

  lemma {:induction false} TidyPrefix(s: string, n: nat)
    requires n <= |s| && Tidy(s) && (s != [] ==> s[0] != ' ')
    ensures Squeeze(s[..n]) == if n > 0 && s[n - 1] == ' ' then s[..n - 1] else s[..n]
  {
    if n > 0 {
      TidyPrefix(s, n - 1);
      assert s[..n][..n - 1] == s[..n - 1] && s[..n - 1] + [s[n - 1]] == s[..n];
      if n > 1 && s[n - 2] == ' ' {
        assert s[n - 1] != ' ' && !IsSpace(s[n - 1]);
        assert s[..n - 2] + " " == s[..n - 1];
        assert n > 2;
      }
    }
  }

  lemma TidyIsUntouched(s: string)
    requires Tidy(s) && (s != [] ==> s[0] != ' ')
    ensures Squeeze(s) == s
  {
    TidyPrefix(s, |s|);
    assert s[..|s|] == s;
  }

  lemma {:induction false} NothingToSpell(s: string)
    requires All(s, NotAt)
    ensures SpellAt(s) == s
  {
    if s != [] {
      NothingToSpell(s[1..]);
    }
  }

  lemma {:induction false} NothingUnprintable(s: string, printable: char -> bool)
    requires All(s, printable)
    ensures Keep(s, printable) == s
  {
    if s != [] {
      NothingUnprintable(s[1..], printable);
    }
  }

  lemma SafeIsKept(s: string, printable: char -> bool)
    requires SafeToType(s, printable)
    ensures Kept(s, printable) == s
  {
    NothingToSpell(s);
    TidyIsUntouched(s);
    NothingUnprintable(s, printable);
  }

  lemma FinishShortens(r: string)
    ensures |LStripSlash(Squeeze(r))| <= |r|
  {
    SqueezeShrinks(r);
    var k := LStripExactly(Squeeze(r));
  }

  /**
   A goal is typed word for word as it stands if and only if it may be typed as it stands: at most 4000 printable
   characters, no `@`, single spaces, no slash in front, no janitor marker, no paste marker.
   */
  lemma UnchangedExactly(s: string, printable: char -> bool)
    requires printable(' ') && printable('\U{27E6}')
    ensures Sanitize(s, printable) == s <==> SafeToType(s, printable) && NoPaste(s)
  {
    if Sanitize(s, printable) == s {
      SanitizedIsSafe(s, printable);
      SafeIsKept(s, printable);
      if !NoPaste(s) {
        ShorterThan(s, printable);
        assert false;
      }
    }
    if SafeToType(s, printable) && NoPaste(s) {
      SafeIsKept(s, printable);
      NothingToDrop(s);
      UnmaskedIsUntouched(s);
      TidyIsUntouched(s);
    }
  }

  lemma ShorterThan(s: string, printable: char -> bool)
    requires Kept(s, printable) == s && !NoPaste(s)
    ensures |Sanitize(s, printable)| < |s|
  {
    DropChanges(s);
    var dropped := DropPaste(s);
    MaskLength(dropped, 0);
    var masked := MaskFrom(dropped, 0);
    FinishShortens(if |masked| > GOAL_MAX_CHARS then masked[..GOAL_MAX_CHARS] else masked);
  }

  // ---------- the bootstrap ----------

  /** The second line is the goal if anything of one is left, and the resume line only otherwise. */
  lemma BootstrapExactly(goal: Option<string>, printable: char -> bool)
    ensures var cmds := ClearBootstrap(goal, printable);
            if goal.Some? && Sanitize(goal.value, printable) != ""
            then cmds == ["/janitor-arm", "/goal " + Sanitize(goal.value, printable)]
            else cmds == ["/janitor-arm", "/janitor-resume"]
  {
    if goal.Some? {
      assert GOAL_CMD + " " == "/goal ";
    }
  }
}
