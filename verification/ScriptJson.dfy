/**
 JSON safe to stand inside a script element (`_json_for_script`, scripts/fleet_status.py:1174-1186):
 the escapes hide what would end the element, and decode (section 7 of RFC 8259) to the same values.
 */
module ScriptJson {
  import opened Common

  // ---------- the encoder ----------

  predicate Forbidden(c: char) {
    c == '<' || c == '>' || c == '\U{2028}' || c == '\U{2029}'
  }

  /** `text.replace(c, sub)` for a single character. */
  function Replace(text: string, c: char, sub: string): string {
    if text == [] then [] else (if text[0] == c then sub else [text[0]]) + Replace(text[1..], c, sub)
  }

  function Escape(text: string): string {
    Replace(Replace(Replace(Replace(text, '<', "\\u003c"), '>', "\\u003e"), '\U{2028}', "\\u2028"), '\U{2029}', "\\u2029")
  }

  // ---------- the decoder ----------

  /** What a reader sees: characters between strings, and the contents of strings. */
  datatype Token = Punct(c: char) | Text(s: string)

  function HexDigit(c: char): Option<nat> {
    if '0' <= c <= '9' then Some((c - '0') as nat)
    else if 'a' <= c <= 'f' then Some((c - 'a') as nat + 10)
    else if 'A' <= c <= 'F' then Some((c - 'A') as nat + 10)
    else None
  }

  /** The character of a `\u` escape; the halves of a surrogate pair are none. */
  function Hex4(t: string): Option<char>
    requires |t| >= 4
  {
    var a, b, c, d := HexDigit(t[0]), HexDigit(t[1]), HexDigit(t[2]), HexDigit(t[3]);
    if a.None? || b.None? || c.None? || d.None? then None
    else
      var v := 4096 * a.value + 256 * b.value + 16 * c.value + d.value;
      if 0xD800 <= v < 0xE000 || v >= 0x10000 then None else Some(v as char)
  }

  function ShortEscape(c: char): Option<char> {
    match c
    case '"' => Some('"')
    case '\\' => Some('\\')
    case '/' => Some('/')
    case 'b' => Some('\U{8}')
    case 'f' => Some('\U{C}')
    case 'n' => Some('\n')
    case 'r' => Some('\r')
    case 't' => Some('\t')
    case _ => None
  }

  function Prepend(tok: Token, rest: Option<seq<Token>>): Option<seq<Token>> {
    if rest.None? then None else Some([tok] + rest.value)
  }

  /** The first character of a string's rest, decoded, and how many characters it took. */
  function DecodeOne(t: string): (r: Option<(char, nat)>)
    requires t != []
    ensures r.Some? ==> 0 < r.value.1 <= |t|
  {
    if t[0] < ' ' then None
    else if t[0] != '\\' then Some((t[0], 1))
    else if |t| >= 2 && ShortEscape(t[1]).Some? then Some((ShortEscape(t[1]).value, 2))
    else if |t| >= 6 && t[1] == 'u' && Hex4(t[2..6]).Some? then Some((Hex4(t[2..6]).value, 6))
    else None
  }

  /** Reads on between strings. None: not the text of any JSON value. */
  function LexOut(t: string): Option<seq<Token>>
    decreases |t|
  {
    if t == [] then Some([])
    else if t[0] == '"' then LexIn(t[1..], "")
    else Prepend(Punct(t[0]), LexOut(t[1..]))
  }

  /** Reads on inside a string of which `soFar` has been read. */
  function LexIn(t: string, soFar: string): Option<seq<Token>>
    decreases |t|
  {
    if t == [] then None
    else if t[0] == '"' then Prepend(Text(soFar), LexOut(t[1..]))
    else
      var one := DecodeOne(t);
      if one.None? then None else LexIn(t[one.value.1..], soFar + [one.value.0])
  }

  // ---------- the encoder, character by character ----------

  function EscapeChar(c: char): string {
    if c == '<' then "\\u003c"
    else if c == '>' then "\\u003e"
    else if c == '\U{2028}' then "\\u2028"
    else if c == '\U{2029}' then "\\u2029"
    else [c]
  }

  function EscapeAll(t: string): string {
    if t == [] then [] else EscapeChar(t[0]) + EscapeAll(t[1..])
  }

  lemma {:induction false} ReplaceConcat(a: string, b: string, c: char, sub: string)
    ensures Replace(a + b, c, sub) == Replace(a, c, sub) + Replace(b, c, sub)
  {
    if a == [] {
      assert a + b == b;
    } else {
      assert (a + b)[1..] == a[1..] + b;
      ReplaceConcat(a[1..], b, c, sub);
    }
  }

  lemma {:induction false} ReplaceAbsent(a: string, c: char, sub: string)
    requires c !in a
    ensures Replace(a, c, sub) == a
  {
    if a != [] {
      ReplaceAbsent(a[1..], c, sub);
    }
  }

  lemma EscapeConcat(a: string, b: string)
    ensures Escape(a + b) == Escape(a) + Escape(b)
  {
    var a1, b1 := Replace(a, '<', "\\u003c"), Replace(b, '<', "\\u003c");
    ReplaceConcat(a, b, '<', "\\u003c");
    var a2, b2 := Replace(a1, '>', "\\u003e"), Replace(b1, '>', "\\u003e");
    ReplaceConcat(a1, b1, '>', "\\u003e");
    ReplaceConcat(a2, b2, '\U{2028}', "\\u2028");
    ReplaceConcat(Replace(a2, '\U{2028}', "\\u2028"), Replace(b2, '\U{2028}', "\\u2028"), '\U{2029}', "\\u2029");
  }

  lemma ReplaceOne(x: char, c: char, sub: string)
    ensures Replace([x], c, sub) == if x == c then sub else [x]
  {
    assert [x][1..] == [];
    assert Replace([], c, sub) == [] && sub + [] == sub;
  }

  /** On one character only its own replacement acts, given that no escape holds a later target. */
  lemma ChainOne(c: char, lt: string, gt: string, ls: string, ps: string)
    requires '>' !in lt && '\U{2028}' !in lt && '\U{2029}' !in lt
    requires '\U{2028}' !in gt && '\U{2029}' !in gt && '\U{2029}' !in ls
    ensures Replace(Replace(Replace(Replace([c], '<', lt), '>', gt), '\U{2028}', ls), '\U{2029}', ps)
         == if c == '<' then lt else if c == '>' then gt else if c == '\U{2028}' then ls
            else if c == '\U{2029}' then ps else [c]
  {
    var a := if c == '<' then lt else [c];
    var b := if c == '>' then gt else a;
    var d := if c == '\U{2028}' then ls else b;
    ReplaceOne(c, '<', lt);
    NextReplacement(a, c, '>', gt);
    NextReplacement(b, c, '\U{2028}', ls);
    NextReplacement(d, c, '\U{2029}', ps);
  }

  lemma EscapeOne(c: char)
    ensures Escape([c]) == EscapeChar(c)
  {
    ChainOne(c, "\\u003c", "\\u003e", "\\u2028", "\\u2029");
  }

  /** A character still as it was is replaced if it is the one meant; an escape is left alone. */
  lemma NextReplacement(a: string, c: char, x: char, sub: string)
    requires a == [c] || (x !in a && c != x)
    ensures Replace(a, x, sub) == if c == x then sub else a
  {
    if a == [c] {
      ReplaceOne(c, x, sub);
    } else {
      ReplaceAbsent(a, x, sub);
    }
  }

  /** The four replacements in a row do not get into each other's way. */
  lemma {:induction false} EscapeIsPointwise(t: string)
    ensures Escape(t) == EscapeAll(t)
  {
    if t != [] {
      assert t == [t[0]] + t[1..];
      EscapeConcat([t[0]], t[1..]);
      EscapeOne(t[0]);
      EscapeIsPointwise(t[1..]);
    }
  }

  // ---------- the same tokens ----------

  /** No forbidden character stands between strings. */
  ghost predicate Inside(toks: seq<Token>) {
    forall k | 0 <= k < |toks| && toks[k].Punct? :: !Forbidden(toks[k].c)
  }

  lemma {:induction false} EscapeHarmless(a: string)
    requires forall k | 0 <= k < |a| :: !Forbidden(a[k])
    ensures EscapeAll(a) == a
  {
    if a != [] {
      EscapeHarmless(a[1..]);
    }
  }

  lemma EscapeTakes(t: string, n: nat)
    requires n <= |t| && forall k | 0 <= k < n :: !Forbidden(t[k])
    ensures EscapeAll(t) == t[..n] + EscapeAll(t[n..])
  {
    assert t == t[..n] + t[n..];
    EscapeAllConcat(t[..n], t[n..]);
    EscapeHarmless(t[..n]);
  }

  lemma EscapeAllConcat(a: string, b: string)
    ensures EscapeAll(a + b) == EscapeAll(a) + EscapeAll(b)
  {
    EscapeConcat(a, b);
    EscapeIsPointwise(a + b);
    EscapeIsPointwise(a);
    EscapeIsPointwise(b);
  }

  /** Escaped or not, the next character of a string decodes the same, and the rest stays the rest. */
  lemma DecodeEscaped(t: string)
    requires t != [] && t[0] != '"' && DecodeOne(t).Some?
    ensures var (c, n) := DecodeOne(t).value;
            var u := EscapeAll(t);
            u != [] && u[0] != '"' && DecodeOne(u).Some? && DecodeOne(u).value.0 == c
            && u[DecodeOne(u).value.1..] == EscapeAll(t[n..])
  {
    var (c, n) := DecodeOne(t).value;
    var u := EscapeAll(t);
    if Forbidden(t[0]) {
      var e := EscapeChar(t[0]);
      assert u == e + EscapeAll(t[1..]) && |e| == 6;
      assert u[2..6] == e[2..6] && u[6..] == EscapeAll(t[1..]);
    } else {
      HexIsHarmless(t);
      EscapeTakes(t, n);
      assert u[..n] == t[..n] && u[n..] == EscapeAll(t[n..]);
      assert n == 6 ==> u[2..6] == t[2..6];
      assert n >= 2 ==> u[1] == t[1];
    }
  }

  lemma HexIsHarmless(t: string)
    requires t != [] && DecodeOne(t).Some? && !Forbidden(t[0])
    ensures forall k | 0 <= k < DecodeOne(t).value.1 :: !Forbidden(t[k])
  {
    var n := DecodeOne(t).value.1;
    if n == 6 {
      assert t[2..6][0] == t[2] && t[2..6][1] == t[3] && t[2..6][2] == t[4] && t[2..6][3] == t[5];
    }
  }

  lemma {:induction false} EscapedInside(t: string, soFar: string)
    requires LexIn(t, soFar).Some? && Inside(LexIn(t, soFar).value)
    ensures LexIn(EscapeAll(t), soFar) == LexIn(t, soFar)
    decreases |t|
  {
    if t[0] == '"' {
      InsideTail(Text(soFar), LexOut(t[1..]));
      EscapedOutside(t[1..]);
      assert EscapeAll(t)[1..] == EscapeAll(t[1..]);
    } else {
      DecodeEscaped(t);
      var (c, n) := DecodeOne(t).value;
      EscapedInside(t[n..], soFar + [c]);
    }
  }

  lemma InsideTail(tok: Token, rest: Option<seq<Token>>)
    requires Prepend(tok, rest).Some? && Inside(Prepend(tok, rest).value)
    ensures rest.Some? && Inside(rest.value) && (tok.Punct? ==> !Forbidden(tok.c))
  {
    var all := Prepend(tok, rest).value;
    assert all[0] == tok && forall k | 0 <= k < |rest.value| :: all[k + 1] == rest.value[k];
  }

  lemma {:induction false} EscapedOutside(t: string)
    requires LexOut(t).Some? && Inside(LexOut(t).value)
    ensures LexOut(EscapeAll(t)) == LexOut(t)
    decreases |t|
  {
    if t != [] {
      if t[0] == '"' {
        EscapedInside(t[1..], "");
      } else {
        InsideTail(Punct(t[0]), LexOut(t[1..]));
        EscapedOutside(t[1..]);
      }
      assert EscapeAll(t)[1..] == EscapeAll(t[1..]);
    }
  }

  lemma {:induction false} NothingForbidden(t: string)
    ensures forall k | 0 <= k < |EscapeAll(t)| :: !Forbidden(EscapeAll(t)[k])
  {
    if t != [] {
      NothingForbidden(t[1..]);
    }
  }

  // ---------- what json.dumps writes ----------

  predicate Atomic(c: char) {
    'a' <= c <= 'z' || 'A' <= c <= 'Z' || '0' <= c <= '9' || c == '+' || c == '-' || c == '.'
  }

  /** Numbers and names such as `null`. */
  type AtomText = s: string | s != [] && forall k | 0 <= k < |s| :: Atomic(s[k]) witness "null"

  datatype Json = Atom(text: AtomText) | Str(s: string) | Arr(items: seq<Json>) | Obj(fields: seq<(string, Json)>)

  function HexChar(v: nat): char
    requires v < 16
  {
    if v < 10 then '0' + v as char else 'a' + (v - 10) as char
  }

  /** `json.dumps(..., ensure_ascii=False)` on one character. */
  function DumpChar(c: char): string {
    if c == '"' then "\\\""
    else if c == '\\' then "\\\\"
    else if c == '\n' then "\\n"
    else if c == '\r' then "\\r"
    else if c == '\t' then "\\t"
    else if c == '\U{C}' then "\\f"
    else if c == '\U{8}' then "\\b"
    else if c < ' ' then "\\u00" + [HexChar(c as int / 16), HexChar(c as int % 16)]
    else [c]
  }

  function DumpChars(s: string): string {
    if s == [] then [] else DumpChar(s[0]) + DumpChars(s[1..])
  }

  function DumpString(s: string): string {
    "\"" + DumpChars(s) + "\""
  }

  function Dump(v: Json): string
    decreases v, 1, 0
  {
    match v
    case Atom(text) => text
    case Str(s) => DumpString(s)
    case Arr(items) => "[" + DumpItems(v, 0) + "]"
    case Obj(fields) => "{" + DumpFields(v, 0) + "}"
  }

  function Separator(k: nat): string {
    if k == 0 then "" else ", "
  }

  // The items from place k on.
  function DumpItems(v: Json, k: nat): string
    requires v.Arr? && k <= |v.items|
    decreases v, 0, |v.items| - k
  {
    if k == |v.items| then "" else Separator(k) + (Dump(v.items[k]) + DumpItems(v, k + 1))
  }

  function DumpFields(v: Json, k: nat): string
    requires v.Obj? && k <= |v.fields|
    decreases v, 0, |v.fields| - k
  {
    if k == |v.fields| then ""
    else Separator(k) + (DumpString(v.fields[k].0) + (": " + (Dump(v.fields[k].1) + DumpFields(v, k + 1))))
  }

  /** The tokens a value stands for, each string as itself. */
  function Puncts(s: string): seq<Token> {
    seq(|s|, k requires 0 <= k < |s| => Punct(s[k]))
  }

  function Tokens(v: Json): seq<Token>
    decreases v, 1, 0
  {
    match v
    case Atom(text) => Puncts(text)
    case Str(s) => [Text(s)]
    case Arr(items) => Puncts("[") + ItemTokens(v, 0) + Puncts("]")
    case Obj(fields) => Puncts("{") + FieldTokens(v, 0) + Puncts("}")
  }

  function ItemTokens(v: Json, k: nat): seq<Token>
    requires v.Arr? && k <= |v.items|
    decreases v, 0, |v.items| - k
  {
    if k == |v.items| then [] else Puncts(Separator(k)) + (Tokens(v.items[k]) + ItemTokens(v, k + 1))
  }

  function FieldTokens(v: Json, k: nat): seq<Token>
    requires v.Obj? && k <= |v.fields|
    decreases v, 0, |v.fields| - k
  {
    if k == |v.fields| then []
    else Puncts(Separator(k)) + ([Text(v.fields[k].0)] + (Puncts(": ") + (Tokens(v.fields[k].1) + FieldTokens(v, k + 1))))
  }

  // ---------- the dump reads back ----------

  /** `text` reads as `toks`, whatever follows it. */
  ghost predicate ReadsAs(text: string, toks: seq<Token>) {
    Inside(toks) && forall rest: string :: LexOut(text + rest) == After(toks, LexOut(rest))
  }

  function After(toks: seq<Token>, rest: Option<seq<Token>>): Option<seq<Token>> {
    if rest.None? then None else Some(toks + rest.value)
  }

  lemma ReadsConcat(a: string, x: seq<Token>, b: string, y: seq<Token>)
    requires ReadsAs(a, x) && ReadsAs(b, y)
    ensures ReadsAs(a + b, x + y)
  {
    forall rest: string ensures LexOut(a + b + rest) == After(x + y, LexOut(rest)) {
      assert a + b + rest == a + (b + rest);
      assert LexOut(a + (b + rest)) == After(x, LexOut(b + rest));
      if LexOut(rest).Some? {
        assert x + (y + LexOut(rest).value) == x + y + LexOut(rest).value;
      }
    }
  }

  lemma {:induction false} PunctsRead(s: string)
    requires forall k | 0 <= k < |s| :: s[k] != '"' && !Forbidden(s[k])
    ensures ReadsAs(s, Puncts(s))
  {
    if s == [] {
      forall rest: string ensures LexOut(s + rest) == After([], LexOut(rest)) {
        assert s + rest == rest;
        assert LexOut(rest).Some? ==> [] + LexOut(rest).value == LexOut(rest).value;
      }
    } else {
      var tail := s[1..];
      PunctsRead(tail);
      assert Puncts(s) == [Punct(s[0])] + Puncts(tail);
      forall rest: string ensures LexOut(s + rest) == After(Puncts(s), LexOut(rest)) {
        assert (s + rest)[0] == s[0] && (s + rest)[1..] == tail + rest;
        assert LexOut(tail + rest) == After(Puncts(tail), LexOut(rest));
        if LexOut(rest).Some? {
          assert [Punct(s[0])] + (Puncts(tail) + LexOut(rest).value) == Puncts(s) + LexOut(rest).value;
        }
      }
    }
  }

  lemma HexRoundTrip(c: char)
    requires c < ' '
    ensures Hex4(['0', '0', HexChar(c as int / 16), HexChar(c as int % 16)]) == Some(c)
  {
    var a, b := c as int / 16, c as int % 16;
    assert HexDigit(HexChar(a)) == Some(a) && HexDigit(HexChar(b)) == Some(b);
  }

  lemma DumpCharDecodes(c: char, rest: string)
    ensures var t := DumpChar(c) + rest;
            t != [] && t[0] != '"' && DecodeOne(t) == Some((c, |DumpChar(c)|)) && t[|DumpChar(c)|..] == rest
  {
    var d := DumpChar(c);
    var t := d + rest;
    assert t[|d|..] == rest;
    if |d| == 6 {
      HexRoundTrip(c);
      assert t[2..6] == d[2..6] == ['0', '0', HexChar(c as int / 16), HexChar(c as int % 16)];
    }
  }

  lemma OneCharRead(c: char, rest: string, soFar: string)
    ensures LexIn(DumpChar(c) + rest, soFar) == LexIn(rest, soFar + [c])
  {
    DumpCharDecodes(c, rest);
  }

  lemma NextCharRead(s: string, rest: string, soFar: string)
    requires s != []
    ensures LexIn(DumpChars(s) + rest, soFar) == LexIn(DumpChars(s[1..]) + rest, soFar + [s[0]])
  {
    OneCharRead(s[0], DumpChars(s[1..]) + rest, soFar);
    assert DumpChars(s) + rest == DumpChar(s[0]) + (DumpChars(s[1..]) + rest);
  }

  lemma EndOfString(rest: string, soFar: string)
    ensures LexIn("\"" + rest, soFar) == Prepend(Text(soFar), LexOut(rest))
  {
    assert ("\"" + rest)[1..] == rest;
  }

  lemma {:induction false} DumpCharsRead(s: string, soFar: string, whole: string, rest: string)
    requires whole == soFar + s
    ensures LexIn(DumpChars(s) + ("\"" + rest), soFar) == Prepend(Text(whole), LexOut(rest))
  {
    if s == [] {
      EndOfString(rest, soFar);
      assert DumpChars(s) + ("\"" + rest) == "\"" + rest && soFar == whole;
    } else {
      assert soFar + [s[0]] + s[1..] == whole;
      DumpCharsRead(s[1..], soFar + [s[0]], whole, rest);
      NextCharRead(s, "\"" + rest, soFar);
    }
  }

  lemma StringReads(s: string)
    ensures ReadsAs(DumpString(s), [Text(s)])
  {
    forall rest: string ensures LexOut(DumpString(s) + rest) == After([Text(s)], LexOut(rest)) {
      StringReadsBefore(s, rest);
    }
  }

  lemma StringReadsBefore(s: string, rest: string)
    ensures LexOut(DumpString(s) + rest) == After([Text(s)], LexOut(rest))
  {
    var t := DumpString(s) + rest;
    assert t[0] == '"' && t[1..] == DumpChars(s) + ("\"" + rest);
    assert LexOut(t) == LexIn(t[1..], "");
    DumpCharsRead(s, "", s, rest);
  }

  /** Every dump reads as its value's tokens, no forbidden character between the strings. */
  lemma {:induction false} DumpReads(v: Json)
    ensures ReadsAs(Dump(v), Tokens(v))
    decreases v, 1, 0
  {
    match v
    case Atom(text) => PunctsRead(text);
    case Str(s) => StringReads(s);
    case Arr(items) =>
      ItemsRead(v, 0);
      Bracketed("[", DumpItems(v, 0), ItemTokens(v, 0), "]");
    case Obj(fields) =>
      FieldsRead(v, 0);
      Bracketed("{", DumpFields(v, 0), FieldTokens(v, 0), "}");
  }

  lemma Bracketed(open: string, body: string, toks: seq<Token>, close: string)
    requires (open == "[" || open == "{") && (close == "]" || close == "}") && ReadsAs(body, toks)
    ensures ReadsAs(open + body + close, Puncts(open) + toks + Puncts(close))
  {
    PunctsRead(open);
    PunctsRead(close);
    ReadsConcat(open, Puncts(open), body, toks);
    ReadsConcat(open + body, Puncts(open) + toks, close, Puncts(close));
  }

  lemma {:induction false} ItemsRead(v: Json, k: nat)
    requires v.Arr? && k <= |v.items|
    ensures ReadsAs(DumpItems(v, k), ItemTokens(v, k))
    decreases v, 0, |v.items| - k
  {
    if k == |v.items| {
      PunctsRead("");
    } else {
      var item := v.items[k];
      DumpReads(item);
      ItemsRead(v, k + 1);
      ItemReads(k, Dump(item), Tokens(item), DumpItems(v, k + 1), ItemTokens(v, k + 1),
                DumpItems(v, k), ItemTokens(v, k));
    }
  }

  lemma Separated(k: nat, text: string, toks: seq<Token>)
    requires ReadsAs(text, toks)
    ensures ReadsAs(Separator(k) + text, Puncts(Separator(k)) + toks)
  {
    PunctsRead(Separator(k));
    ReadsConcat(Separator(k), Puncts(Separator(k)), text, toks);
  }

  /** One field, the text of its value and of all that follows being read. */
  /** One field, the text of its value and of all that follows being read. */
  lemma FieldReads(k: nat, name: string, value: string, x: seq<Token>, more: string, y: seq<Token>,
                   text: string, toks: seq<Token>)
    requires ReadsAs(value, x) && ReadsAs(more, y)
    requires text == Separator(k) + (DumpString(name) + (": " + (value + more)))
    requires toks == Puncts(Separator(k)) + ([Text(name)] + (Puncts(": ") + (x + y)))
    ensures ReadsAs(text, toks)
  {
    StringReads(name);
    PunctsRead(": ");
    ReadsConcat(value, x, more, y);
    ReadsConcat(": ", Puncts(": "), value + more, x + y);
    ReadsConcat(DumpString(name), [Text(name)], ": " + (value + more), Puncts(": ") + (x + y));
    Separated(k, DumpString(name) + (": " + (value + more)), [Text(name)] + (Puncts(": ") + (x + y)));
  }

  lemma ItemReads(k: nat, value: string, x: seq<Token>, more: string, y: seq<Token>, text: string, toks: seq<Token>)
    requires ReadsAs(value, x) && ReadsAs(more, y)
    requires text == Separator(k) + (value + more) && toks == Puncts(Separator(k)) + (x + y)
    ensures ReadsAs(text, toks)
  {
    ReadsConcat(value, x, more, y);
    Separated(k, value + more, x + y);
  }

  lemma {:induction false} FieldsRead(v: Json, k: nat)
    requires v.Obj? && k <= |v.fields|
    ensures ReadsAs(DumpFields(v, k), FieldTokens(v, k))
    decreases v, 0, |v.fields| - k
  {
    if k == |v.fields| {
      PunctsRead("");
    } else {
      var (name, value) := v.fields[k];
      DumpReads(value);
      FieldsRead(v, k + 1);
      FieldReads(k, name, Dump(value), Tokens(value), DumpFields(v, k + 1), FieldTokens(v, k + 1),
                 DumpFields(v, k), FieldTokens(v, k));
    }
  }

  // ---------- no two values have the same tokens ----------

  /** What can stand after a value. */
  predicate Ends(rest: seq<Token>) {
    rest == [] || (rest[0].Punct? && !Atomic(rest[0].c))
  }

  // The kind of a value shows in its first token.
  predicate Opens(v: Json, tok: Token) {
    match v
    case Atom(_) => tok.Punct? && Atomic(tok.c)
    case Str(_) => tok.Text?
    case Arr(_) => tok == Punct('[')
    case Obj(_) => tok == Punct('{')
  }

  lemma FirstToken(v: Json)
    ensures Tokens(v) != [] && Opens(v, Tokens(v)[0])
  {
  }

  lemma SameKind(v: Json, w: Json, r: seq<Token>, s: seq<Token>)
    requires Tokens(v) + r == Tokens(w) + s
    ensures v.Atom? == w.Atom? && v.Str? == w.Str? && v.Arr? == w.Arr?
  {
    FirstToken(v);
    FirstToken(w);
    assert (Tokens(v) + r)[0] == Tokens(v)[0] && (Tokens(w) + s)[0] == Tokens(w)[0];
  }

  lemma Strip(x: seq<Token>, r: seq<Token>, s: seq<Token>)
    requires x + r == x + s
    ensures r == s
  {
    assert r == (x + r)[|x|..] && s == (x + s)[|x|..];
  }

  lemma NextToken(a: string, r: seq<Token>, b: string, s: seq<Token>)
    requires |a| < |b| && Puncts(a) + r == Puncts(b) + s
    ensures r != [] && r[0] == Punct(b[|a|])
  {
    assert (Puncts(b) + s)[|a|] == Punct(b[|a|]);
  }

  lemma PrefixOf(a: string, r: seq<Token>, b: string, s: seq<Token>)
    requires |a| <= |b| && Puncts(a) + r == Puncts(b) + s
    requires Ends(r) && forall k | 0 <= k < |b| :: Atomic(b[k])
    ensures a == b && r == s
  {
    var x, y := Puncts(a) + r, Puncts(b) + s;
    forall k | 0 <= k < |a| ensures a[k] == b[k] {
      assert x[k] == Punct(a[k]) && y[k] == Punct(b[k]);
    }
    if |a| < |b| {
      NextToken(a, r, b, s);
      assert false;
    }
    assert a == b;
    Strip(Puncts(a), r, s);
  }

  lemma {:induction false} ReadOneWay(v: Json, w: Json, r: seq<Token>, s: seq<Token>)
    requires Tokens(v) + r == Tokens(w) + s && Ends(r) && Ends(s)
    ensures v == w && r == s
    decreases v, 1, 0
  {
    SameKind(v, w, r, s);
    match v
    case Atom(text) =>
      if |text| <= |w.text| {
        PrefixOf(text, r, w.text, s);
      } else {
        PrefixOf(w.text, s, text, r);
      }
    case Str(t) =>
      assert ([Text(t)] + r)[0] == Text(t) && ([Text(w.s)] + s)[0] == Text(w.s);
      Strip([Text(t)], r, s);
    case Arr(items) =>
      Inner("[", ItemTokens(v, 0), ItemTokens(w, 0), "]", r, s);
      ItemsReadOneWay(v, w, 0, r, s);
    case Obj(fields) =>
      Inner("{", FieldTokens(v, 0), FieldTokens(w, 0), "}", r, s);
      FieldsReadOneWay(v, w, 0, r, s);
  }

  lemma Inner(open: string, a: seq<Token>, b: seq<Token>, close: string, r: seq<Token>, s: seq<Token>)
    requires Puncts(open) + a + Puncts(close) + r == Puncts(open) + b + Puncts(close) + s
    ensures a + (Puncts(close) + r) == b + (Puncts(close) + s)
  {
    var x, y := a + (Puncts(close) + r), b + (Puncts(close) + s);
    assert Puncts(open) + a + Puncts(close) + r == Puncts(open) + x;
    assert Puncts(open) + b + Puncts(close) + s == Puncts(open) + y;
    Strip(Puncts(open), x, y);
  }

  // What follows place k begins with the closing bracket exactly when nothing is left.
  lemma ListGoesOn(done: bool, k: nat, toks: seq<Token>, close: string, r: seq<Token>)
    requires close == "]" || close == "}"
    requires done ==> toks == []
    requires !done ==> exists more: seq<Token> ::
      toks == Puncts(Separator(k)) + more && more != [] && more[0] != Punct(close[0])
    ensures (toks + (Puncts(close) + r))[0] == Punct(close[0]) <==> done
    ensures Ends(toks + (Puncts(close) + r)) || k == 0
  {
    var all := toks + (Puncts(close) + r);
    if done {
      assert all == Puncts(close) + r;
    } else {
      var more: seq<Token> :| toks == Puncts(Separator(k)) + more && more != [] && more[0] != Punct(close[0]);
      assert Puncts("") == [];
      assert k > 0 ==> toks[0] == Punct(',');
      assert all[0] == toks[0];
    }
  }

  lemma ItemsGoOn(v: Json, k: nat, r: seq<Token>)
    requires v.Arr? && k <= |v.items|
    ensures (ItemTokens(v, k) + (Puncts("]") + r))[0] == Punct(']') <==> k == |v.items|
    ensures Ends(ItemTokens(v, k) + (Puncts("]") + r)) || k == 0
  {
    if k < |v.items| {
      FirstToken(v.items[k]);
      var more := Tokens(v.items[k]) + ItemTokens(v, k + 1);
      assert more[0] == Tokens(v.items[k])[0];
    }
    ListGoesOn(k == |v.items|, k, ItemTokens(v, k), "]", r);
  }

  lemma FieldsGoOn(v: Json, k: nat, r: seq<Token>)
    requires v.Obj? && k <= |v.fields|
    ensures (FieldTokens(v, k) + (Puncts("}") + r))[0] == Punct('}') <==> k == |v.fields|
    ensures Ends(FieldTokens(v, k) + (Puncts("}") + r)) || k == 0
  {
    if k < |v.fields| {
      var more := [Text(v.fields[k].0)] + (Puncts(": ") + (Tokens(v.fields[k].1) + FieldTokens(v, k + 1)));
      assert more[0] == Text(v.fields[k].0);
    }
    ListGoesOn(k == |v.fields|, k, FieldTokens(v, k), "}", r);
  }

  lemma NothingLeft(a: seq<Token>, b: seq<Token>, close: string, r: seq<Token>, s: seq<Token>)
    requires a == [] && b == [] && a + (Puncts(close) + r) == b + (Puncts(close) + s)
    ensures r == s
  {
    assert a + (Puncts(close) + r) == Puncts(close) + r && b + (Puncts(close) + s) == Puncts(close) + s;
    Strip(Puncts(close), r, s);
  }

  lemma SplitItem(all: seq<Token>, sep: seq<Token>, value: seq<Token>, more: seq<Token>, rest: seq<Token>)
    requires all == sep + (value + more)
    ensures all + rest == sep + (value + (more + rest))
  {
  }

  lemma {:induction false} ItemsReadOneWay(v: Json, w: Json, k: nat, r: seq<Token>, s: seq<Token>)
    requires v.Arr? && w.Arr? && k <= |v.items| && k <= |w.items| && v.items[..k] == w.items[..k]
    requires ItemTokens(v, k) + (Puncts("]") + r) == ItemTokens(w, k) + (Puncts("]") + s)
    requires Ends(r) && Ends(s)
    ensures v == w && r == s
    decreases v, 0, |v.items| - k
  {
    ItemsGoOn(v, k, r);
    ItemsGoOn(w, k, s);
    if k == |v.items| {
      assert v.items == v.items[..k] && w.items == w.items[..k];
      NothingLeft(ItemTokens(v, k), ItemTokens(w, k), "]", r, s);
    } else {
      var sep, a, b := Puncts(Separator(k)), v.items[k], w.items[k];
      var restV, restW := ItemTokens(v, k + 1) + (Puncts("]") + r), ItemTokens(w, k + 1) + (Puncts("]") + s);
      SplitItem(ItemTokens(v, k), sep, Tokens(a), ItemTokens(v, k + 1), Puncts("]") + r);
      SplitItem(ItemTokens(w, k), sep, Tokens(b), ItemTokens(w, k + 1), Puncts("]") + s);
      Strip(sep, Tokens(a) + restV, Tokens(b) + restW);
      ItemsGoOn(v, k + 1, r);
      ItemsGoOn(w, k + 1, s);
      ReadOneWay(a, b, restV, restW);
      assert v.items[..k + 1] == v.items[..k] + [a] && w.items[..k + 1] == w.items[..k] + [b];
      ItemsReadOneWay(v, w, k + 1, r, s);
    }
  }

  lemma {:induction false} FieldsReadOneWay(v: Json, w: Json, k: nat, r: seq<Token>, s: seq<Token>)
    requires v.Obj? && w.Obj? && k <= |v.fields| && k <= |w.fields| && v.fields[..k] == w.fields[..k]
    requires FieldTokens(v, k) + (Puncts("}") + r) == FieldTokens(w, k) + (Puncts("}") + s)
    requires Ends(r) && Ends(s)
    ensures v == w && r == s
    decreases v, 0, |v.fields| - k
  {
    FieldsGoOn(v, k, r);
    FieldsGoOn(w, k, s);
    if k == |v.fields| {
      assert v.fields == v.fields[..k] && w.fields == w.fields[..k];
      NothingLeft(FieldTokens(v, k), FieldTokens(w, k), "}", r, s);
    } else {
      var sep := Puncts(Separator(k));
      var (name, a) := v.fields[k];
      var (other, b) := w.fields[k];
      var restV, restW := FieldTokens(v, k + 1) + (Puncts("}") + r), FieldTokens(w, k + 1) + (Puncts("}") + s);
      SplitField(FieldTokens(v, k), sep, name, Tokens(a), FieldTokens(v, k + 1), Puncts("}") + r);
      SplitField(FieldTokens(w, k), sep, other, Tokens(b), FieldTokens(w, k + 1), Puncts("}") + s);
      SameField(sep, name, Tokens(a) + restV, other, Tokens(b) + restW);
      FieldsGoOn(v, k + 1, r);
      FieldsGoOn(w, k + 1, s);
      ReadOneWay(a, b, restV, restW);
      assert v.fields[..k + 1] == v.fields[..k] + [v.fields[k]] && w.fields[..k + 1] == w.fields[..k] + [w.fields[k]];
      FieldsReadOneWay(v, w, k + 1, r, s);
    }
  }

  lemma SplitField(all: seq<Token>, sep: seq<Token>, name: string, value: seq<Token>, more: seq<Token>, rest: seq<Token>)
    requires all == sep + ([Text(name)] + (Puncts(": ") + (value + more)))
    ensures all + rest == sep + ([Text(name)] + (Puncts(": ") + (value + (more + rest))))
  {
  }

  lemma SameField(sep: seq<Token>, name: string, x: seq<Token>, other: string, y: seq<Token>)
    requires sep + ([Text(name)] + (Puncts(": ") + x)) == sep + ([Text(other)] + (Puncts(": ") + y))
    ensures name == other && x == y
  {
    var a, b := [Text(name)] + (Puncts(": ") + x), [Text(other)] + (Puncts(": ") + y);
    Strip(sep, a, b);
    assert a[0] == Text(name) && b[0] == Text(other);
    Strip([Text(name)], Puncts(": ") + x, Puncts(": ") + y);
    Strip(Puncts(": "), x, y);
  }

  // ---------- the result ----------

  /** For any text that lexes with nothing forbidden between its strings, escaping changes no token. */
  lemma EscapeKeepsTokens(t: string)
    requires LexOut(t).Some? && Inside(LexOut(t).value)
    ensures LexOut(Escape(t)) == LexOut(t)
  {
    EscapeIsPointwise(t);
    EscapedOutside(t);
  }

  /**
   For every JSON value: what goes into the page holds neither angle bracket nor line or paragraph
   separator, reads back string by string as the value's own tokens, and so as no other value.
   */
  lemma SafeAndFaithful(v: Json)
    ensures forall k | 0 <= k < |Escape(Dump(v))| :: !Forbidden(Escape(Dump(v))[k])
    ensures LexOut(Escape(Dump(v))) == LexOut(Dump(v)) == Some(Tokens(v))
    ensures forall w: Json :: LexOut(Escape(Dump(w))) == LexOut(Escape(Dump(v))) ==> w == v
  {
    PageReads(v);
    EscapeIsPointwise(Dump(v));
    NothingForbidden(Dump(v));
    forall w: Json | LexOut(Escape(Dump(w))) == LexOut(Escape(Dump(v))) ensures w == v {
      PageReads(w);
      ReadOneWay(w, v, [], []);
    }
  }

  lemma PageReads(v: Json)
    ensures LexOut(Escape(Dump(v))) == LexOut(Dump(v)) == Some(Tokens(v))
  {
    DumpReads(v);
    assert Dump(v) + "" == Dump(v) && Tokens(v) + [] == Tokens(v);
    assert LexOut(Dump(v) + "") == After(Tokens(v), LexOut(""));
    EscapeKeepsTokens(Dump(v));
  }
}
