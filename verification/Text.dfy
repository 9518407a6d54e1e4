/** The few string operations of Python that the models below share. */
module Text {
  /** `str.isspace` for one character. */
  predicate IsSpace(c: char) {
    '\t' <= c <= '\r' || '\U{1C}' <= c <= ' ' || c == '\U{85}' || c == '\U{A0}' || c == '\U{1680}'
    || '\U{2000}' <= c <= '\U{200A}' || c == '\U{2028}' || c == '\U{2029}' || c == '\U{202F}'
    || c == '\U{205F}' || c == '\U{3000}'
  }

  /** The table, by code point. */
  lemma SpaceExactly(c: char)
    ensures IsSpace(c) <==> (c as int in {9, 10, 11, 12, 13, 28, 29, 30, 31, 32, 133, 160, 5760, 8232, 8233, 8239, 8287, 12288}
                             || 8192 <= c as int <= 8202)
  {
  }

  function LStrip(s: string): string {
    if s != [] && IsSpace(s[0]) then LStrip(s[1..]) else s
  }

  function RStrip(s: string): string {
    if s != [] && IsSpace(s[|s| - 1]) then RStrip(s[..|s| - 1]) else s
  }

  /** `str.strip()` */
  function Strip(s: string): string {
    RStrip(LStrip(s))
  }

  lemma StripKeepsSolid(s: string)
    requires s != [] && !IsSpace(s[0]) && !IsSpace(s[|s| - 1])
    ensures Strip(s) == s
  {
  }

  /** What is left is the part between the whitespace at the two ends. */
  lemma StripExactly(s: string) returns (a: nat, b: nat)
    ensures a <= b <= |s| && Strip(s) == s[a..b]
    ensures forall k | 0 <= k < |s| && (k < a || b <= k) :: IsSpace(s[k])
    ensures a < b ==> !IsSpace(s[a]) && !IsSpace(s[b - 1])
  {
    a := LStripExactly(s);
    var n := RStripExactly(s[a..]);
    b := a + n;
    assert s[a..][..n] == s[a..b];
    forall k | b <= k < |s| ensures IsSpace(s[k]) {
      assert s[k] == s[a..][k - a];
    }
    if a < b {
      assert s[a..][n - 1] == s[b - 1];
    }
  }

  lemma {:induction false} LStripExactly(s: string) returns (k: nat)
    ensures k <= |s| && LStrip(s) == s[k..] && (forall j | 0 <= j < k :: IsSpace(s[j])) && (k < |s| ==> !IsSpace(s[k]))
  {
    if s != [] && IsSpace(s[0]) {
      var m := LStripExactly(s[1..]);
      k := m + 1;
    } else {
      k := 0;
    }
  }

  lemma {:induction false} RStripExactly(s: string) returns (n: nat)
    ensures n <= |s| && RStrip(s) == s[..n] && (forall j | n <= j < |s| :: IsSpace(s[j])) && (n > 0 ==> !IsSpace(s[n - 1]))
  {
    if s != [] && IsSpace(s[|s| - 1]) {
      n := RStripExactly(s[..|s| - 1]);
    } else {
      n := |s|;
    }
  }
}
