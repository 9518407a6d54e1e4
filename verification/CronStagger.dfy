/**
 Spreading a plain every-N-minutes heartbeat over the projects of a host (scripts/arm_prepare.py:76-123): the
 rewriting of the cron line, and what the rewritten line fires. The project's hash is a parameter, and so is which
 characters count as decimal digits.
 */
module CronStagger {
  import opened Common

  // ---------- decimal numbers ----------

  function AsciiDecimal(c: char): Option<nat> {
    if '0' <= c <= '9' then Some((c - '0') as nat) else None
  }

  /** What the interpreter takes for a decimal digit: at least the ten of ASCII. */
  type Decimals = d: char -> Option<nat> | forall c | '0' <= c <= '9' :: d(c) == AsciiDecimal(c)
    witness AsciiDecimal

  function Digits(n: nat): (s: string)
    ensures Plain(s)
  {
    var last := ['0' + (n % 10) as char];
    if n < 10 then last else Digits(n / 10) + last
  }

  predicate Plain(s: string) {
    s != [] && forall k | 0 <= k < |s| :: '0' <= s[k] <= '9'
  }

  predicate AllDigits(dec: Decimals, s: string) {
    s != [] && forall k | 0 <= k < |s| :: dec(s[k]).Some?
  }

  function Number(dec: Decimals, s: string): nat
    requires forall k | 0 <= k < |s| :: dec(s[k]).Some?
  {
    if s == [] then 0 else 10 * Number(dec, s[..|s| - 1]) + dec(s[|s| - 1]).value
  }

  lemma {:induction false} NumberOfDigits(dec: Decimals, n: nat)
    ensures AllDigits(dec, Digits(n)) && Number(dec, Digits(n)) == n
  {
    var s := Digits(n);
    forall k | 0 <= k < |s| ensures dec(s[k]) == AsciiDecimal(s[k]) {
    }
    if n < 10 {
      assert s[..0] == [] && Number(dec, s[..0]) == 0;
    } else {
      NumberOfDigits(dec, n / 10);
      assert s[..|s| - 1] == Digits(n / 10);
    }
  }

  // ---------- the rewriting ----------

  const REST: string := " * * * *"

  /** A `$` in the pattern also matches before one final newline. */
  function Line(cron: string): string {
    if cron != [] && cron[|cron| - 1] == '\n' then cron[..|cron| - 1] else cron
  }

  function Middle(s: string): string
    requires |s| >= 2 + |REST|
  {
    s[2..|s| - |REST|]
  }

  // The N of a plain `*/N * * * *`.
  function StepOf(dec: Decimals, cron: string): Option<nat> {
    var s := Line(cron);
    if |s| > 2 + |REST| && s[..2] == "*/" && s[|s| - |REST|..] == REST && AllDigits(dec, Middle(s))
    then Some(Number(dec, Middle(s)))
    else None
  }

  /** A plain line is two characters, a number and the rest, perhaps with a newline at its end; nothing else is. */
  lemma StepOfExactly(dec: Decimals, cron: string, n: nat)
    ensures StepOf(dec, cron) == Some(n)
       <==> exists digits: string :: AllDigits(dec, digits) && Number(dec, digits) == n
              && (cron == "*/" + digits + " * * * *" || cron == "*/" + digits + " * * * *" + "\n")
  {
    if StepOf(dec, cron) == Some(n) {
      var s := Line(cron);
      var digits := Middle(s);
      assert s == s[..2] + digits + s[|s| - |REST|..];
      assert s != cron ==> cron == s + "\n";
    }
    if digits: string :| (AllDigits(dec, digits) && Number(dec, digits) == n
                          && (cron == "*/" + digits + " * * * *" || cron == "*/" + digits + " * * * *" + "\n")) {
      var s := "*/" + digits + " * * * *";
      LineOf(s, cron);
      assert s[..2] == "*/" && s[|s| - |REST|..] == REST && Middle(s) == digits;
    }
  }

  lemma LineOf(s: string, cron: string)
    requires s != [] && s[|s| - 1] != '\n' && (cron == s || cron == s + "\n")
    ensures Line(cron) == s
  {
  }

  function Tail(step: nat): string {
    "-59/" + Digits(step) + REST
  }

  function Staggered(offset: nat, step: nat): string {
    Digits(offset) + Tail(step)
  }

  function Stagger(dec: Decimals, cron: string, hash: nat): string {
    match StepOf(dec, cron)
    case None => cron
    case Some(step) => if 1 <= step <= 60 then Staggered(hash % step, step) else cron
  }

  // ---------- what a line fires ----------

  /** The minute field `lo-59/step`; `*` is `0-59`. */
  datatype Minutes = Minutes(lo: nat, step: nat) {
    predicate Fires(m: nat) {
      step > 0 && lo <= m <= 59 && (m - lo) % step == 0
    }
  }

  function IndexOf(s: string, c: char): (k: nat)
    ensures k <= |s| && (k < |s| ==> s[k] == c)
    ensures forall j | 0 <= j < k :: s[j] != c
  {
    if s == [] || s[0] == c then 0 else 1 + IndexOf(s[1..], c)
  }

  /** Reads the two shapes above back. */
  function Read(dec: Decimals, cron: string): Option<Minutes> {
    var k := IndexOf(cron, '-');
    if StepOf(dec, cron).Some? then Some(Minutes(0, StepOf(dec, cron).value))
    else if k < |cron| && AllDigits(dec, cron[..k]) then ReadTail(dec, Number(dec, cron[..k]), cron[k..])
    else None
  }

  function ReadTail(dec: Decimals, lo: nat, tail: string): Option<Minutes> {
    if |tail| > 4 + |REST| && tail[..4] == "-59/" && tail[|tail| - |REST|..] == REST
       && AllDigits(dec, tail[4..|tail| - |REST|])
    then Some(Minutes(lo, Number(dec, tail[4..|tail| - |REST|])))
    else None
  }

  lemma TailReadsBack(dec: Decimals, lo: nat, step: nat)
    ensures ReadTail(dec, lo, Tail(step)) == Some(Minutes(lo, step))
  {
    var n := Digits(step);
    var tail := Tail(step);
    NumberOfDigits(dec, step);
    assert tail[4..|tail| - |REST|] == n;
  }

  lemma StaggeredIsNotPlain(dec: Decimals, offset: nat, step: nat)
    ensures StepOf(dec, Staggered(offset, step)).None?
  {
    var s := Staggered(offset, step);
    assert s[0] == Digits(offset)[0];
    assert Line(s)[0] == s[0] != '*';
  }

  /** The rewritten line says what it was meant to say. */
  lemma ReadsBack(dec: Decimals, offset: nat, step: nat)
    ensures Read(dec, Staggered(offset, step)) == Some(Minutes(offset, step))
  {
    var o, tail := Digits(offset), Tail(step);
    var s := Staggered(offset, step);
    StaggeredIsNotPlain(dec, offset, step);
    NumberOfDigits(dec, offset);
    TailReadsBack(dec, offset, step);
    FirstDash(o, tail);
    assert s[|o|..] == tail && s[..|o|] == o;
  }

  lemma {:induction false} FirstDash(o: string, tail: string)
    requires (forall k | 0 <= k < |o| :: o[k] != '-') && tail != [] && tail[0] == '-'
    ensures IndexOf(o + tail, '-') == |o|
  {
    if o == [] {
      assert o + tail == tail;
    } else {
      assert (o + tail)[1..] == o[1..] + tail;
      FirstDash(o[1..], tail);
    }
  }

  /** Staggering again, with whatever hash, changes nothing; so does staggering any other line. */
  lemma StaggerIsIdempotent(dec: Decimals, cron: string, hash: nat, other: nat)
    ensures Stagger(dec, Stagger(dec, cron, hash), other) == Stagger(dec, cron, hash)
    ensures Stagger(dec, cron, hash) != cron <==> StepOf(dec, cron).Some? && 1 <= StepOf(dec, cron).value <= 60
  {
    if StepOf(dec, cron).Some? && 1 <= StepOf(dec, cron).value <= 60 {
      StaggeredIsNotPlain(dec, hash % StepOf(dec, cron).value, StepOf(dec, cron).value);
    }
  }

  // ---------- how often and how evenly ----------

  /** How many minutes of the hour `lo-59/step` fires. */
  function Count(lo: nat, step: nat): nat
    requires lo < step <= 60
  {
    (59 - lo) / step + 1
  }

  /** The minutes fired are exactly the first `Count` multiples of the step from the offset on. */
  lemma FiredMinutes(lo: nat, step: nat, m: nat)
    requires lo < step <= 60
    ensures Minutes(lo, step).Fires(m) <==> exists j | 0 <= j < Count(lo, step) :: m == lo + j * step
  {
    if Minutes(lo, step).Fires(m) {
      var j := FiredIsMultiple(lo, step, m);
    }
    if j :| 0 <= j < Count(lo, step) && m == lo + j * step {
      MultipleIsFired(lo, step, j);
    }
  }

  lemma FiredIsMultiple(lo: nat, step: nat, m: nat) returns (j: nat)
    requires lo < step <= 60 && Minutes(lo, step).Fires(m)
    ensures j < Count(lo, step) && m == lo + j * step
  {
    MultipleUpTo(m - lo, 59 - lo, step);
    j := (m - lo) / step;
  }

  lemma MultipleUpTo(a: nat, b: nat, step: nat)
    requires step > 0 && a <= b && a % step == 0
    ensures a == (a / step) * step && a / step <= b / step
  {
    ExactDivision(a, step);
    DivisionBounds(b, step);
    NoMoreSteps(a / step, b / step, step, b);
  }

  lemma NoMoreSteps(j: nat, q: nat, step: nat, b: nat)
    requires j * step <= b < q * step + step
    ensures j <= q
  {
    OneMoreStep(q, step);
    CancelLess(j, q + 1, step);
  }

  lemma ExactDivision(a: nat, step: nat)
    requires step > 0 && a % step == 0
    ensures a == (a / step) * step
  {
  }

  lemma OneMoreStep(k: nat, step: nat)
    ensures (k + 1) * step == k * step + step
  {
  }

  lemma MultipleIsFired(lo: nat, step: nat, j: nat)
    requires lo < step <= 60 && j < Count(lo, step)
    ensures Minutes(lo, step).Fires(lo + j * step)
  {
    DivisionBounds(59 - lo, step);
    ProductMonotone(j, Count(lo, step) - 1, step);
    RemainderOfMultiple(j, step);
  }

  lemma DivisionBounds(a: nat, step: nat)
    requires step > 0
    ensures (a / step) * step <= a < (a / step) * step + step
  {
  }

  lemma ProductMonotone(a: nat, b: nat, step: nat)
    requires a <= b
    ensures a * step <= b * step
  {
  }

  lemma CancelLess(a: nat, b: nat, step: nat)
    requires a * step < b * step
    ensures a < b
  {
  }

  lemma RemainderOfMultiple(j: nat, step: nat)
    requires step > 0
    ensures (j * step) % step == 0
  {
    ShiftByMultiple(j, 0, step);
  }

  /**
   For every offset the line fires between floor and ceiling of 60 / N times an hour, N minutes apart
   within it, and fewer than 2 N minutes across its end.
   */
  lemma EvenlySpread(lo: nat, step: nat)
    requires lo < step <= 60
    ensures 60 / step <= Count(lo, step) <= (60 + step - 1) / step
    ensures var last := lo + (Count(lo, step) - 1) * step;
            last <= 59 && 1 <= 60 + lo - last < 2 * step
  {
    var k, f, g := Count(lo, step) - 1, 60 / step, (60 + step - 1) / step;
    DivisionBounds(59 - lo, step);
    DivisionBounds(60, step);
    DivisionBounds(60 + step - 1, step);
    OneMoreStep(k, step);
    OneMoreStep(k + 1, step);
    OneMoreStep(g, step);
    CancelLess(f, k + 2, step);
    CancelLess(k + 1, g + 1, step);
  }

  /**
   When N divides 60 staggering costs nothing: the line still fires 60 / N times an hour, and it fires
   at an absolute minute exactly when that minute leaves the offset modulo N, hour after hour.
   */
  lemma ExactlyPeriodic(lo: nat, step: nat, t: nat)
    requires lo < step <= 60 && 60 % step == 0
    ensures Count(lo, step) == Count(0, step) == 60 / step
    ensures Minutes(lo, step).Fires(t % 60) <==> t % step == lo
  {
    var f := 60 / step;
    DivisionBounds(60, step);
    assert f * step == 60;
    EvenlySpread(lo, step);
    EvenlySpread(0, step);
    assert (60 + step - 1) / step == f by {
      QuotientIs(60 + step - 1, step, f);
    }
    var h, m := t / 60, t % 60;
    assert h * 60 == (h * f) * step by {
      Regroup(h, f, step);
    }
    ShiftByMultiple(h * f, m, step);
    if m >= lo {
      ResidueIs(m, lo, step);
    } else {
      SmallRemainder(m, step);
    }
  }

  lemma Regroup(h: nat, f: nat, step: nat)
    ensures h * (f * step) == (h * f) * step
  {
  }

  lemma ResidueIs(m: nat, lo: nat, step: nat)
    requires lo <= m && lo < step
    ensures (m - lo) % step == 0 <==> m % step == lo
  {
    DivisionBounds(m - lo, step);
    Remainder(m - lo, step);
    ResidueBy(m, lo, step, (m - lo) / step, (m - lo) % step);
  }

  lemma Remainder(a: nat, step: nat)
    requires step > 0
    ensures a == (a / step) * step + a % step
  {
  }

  lemma ResidueBy(m: nat, lo: nat, step: nat, q: nat, r: nat)
    requires lo < step && r < step && m == q * step + (lo + r)
    ensures r == 0 <==> m % step == lo
  {
    if lo + r < step {
      ShiftByMultiple(q, lo + r, step);
      SmallRemainder(lo + r, step);
    } else {
      OneMoreStep(q, step);
      ShiftByMultiple(q + 1, lo + r - step, step);
      SmallRemainder(lo + r - step, step);
    }
  }

  lemma QuotientIs(a: nat, step: nat, q: nat)
    requires step > 0 && q * step <= a < q * step + step
    ensures a / step == q
  {
    var p := a / step;
    DivisionBounds(a, step);
    assert (p + 1) * step == p * step + step && (q + 1) * step == q * step + step;
    CancelLess(p, q + 1, step);
    CancelLess(q, p + 1, step);
  }

  lemma SmallRemainder(m: nat, step: nat)
    requires m < step
    ensures m % step == m
  {
  }

  lemma ShiftByMultiple(j: nat, m: nat, step: nat)
    requires step > 0
    ensures (j * step + m) % step == m % step
  {
    var q, r := m / step, m % step;
    assert j * step + m == (j + q) * step + r;
    QuotientIs(j * step + m, step, j + q);
  }

  /**
   The whole of it: staggering a plain line keeps its step, moves its start by an offset below the step,
   and, when the step divides the hour, keeps its rate.
   */
  lemma StaggerOnlyShifts(dec: Decimals, cron: string, hash: nat, step: nat)
    requires StepOf(dec, cron) == Some(step) && 1 <= step <= 60
    ensures Read(dec, cron) == Some(Minutes(0, step))
    ensures hash % step < step && Read(dec, Stagger(dec, cron, hash)) == Some(Minutes(hash % step, step))
    ensures 60 / step <= Count(hash % step, step) <= (60 + step - 1) / step
    ensures 60 % step == 0 ==> Count(hash % step, step) == Count(0, step)
  {
    Spreads(hash % step, step);
    ReadsBack(dec, hash % step, step);
  }

  lemma Spreads(lo: nat, step: nat)
    requires lo < step <= 60
    ensures 60 / step <= Count(lo, step) <= (60 + step - 1) / step
    ensures 60 % step == 0 ==> Count(lo, step) == Count(0, step)
  {
    EvenlySpread(lo, step);
    if 60 % step == 0 {
      ExactlyPeriodic(lo, step, 0);
    }
  }
}
