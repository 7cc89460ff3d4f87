/** Decimal amounts in the pool clients (`pool_stats.rs`, `pool_payout.rs`): shifting a display-unit
    number to atomic units, and printing one without trailing zeros. The work starts from the
    digits the float formatter writes: how it rounds is a parameter. */
module Amounts {
  import opened Wrappers
  import opened Digits
  import Seqs

  type Magnitude = x: real | x >= 0.0

  datatype Float = NotANumber | Infinite(minus: bool) | Finite(minus: bool, magnitude: Magnitude)

  function Whole(n: nat): Magnitude {
    n as real
  }

  /** All that is asked of the formatter's rounding: a whole number stays what it is. */
  ghost predicate Rounds(round: Magnitude -> nat) {
    forall n: nat :: round(Whole(n)) == n
  }

  /** The amount in units of the `d`-th place. */
  function Units(m: Magnitude, d: nat): Magnitude {
    m * Pow10(d) as real
  }

  function Sign(minus: bool): string {
    if minus then "-" else ""
  }

  function Signed(minus: bool, s: string): string {
    Sign(minus) + s
  }

  /** `format!("{:.d$}")` of a number that rounds to `n` units of the last place. */
  function Render(minus: bool, n: nat, d: nat): string {
    var head := Signed(minus, Dec(DropDigits(n, d)));
    if d == 0 then head else head + "." + LastDigits(n, d)
  }

  /** The text work of `float_to_atomic_string`. */
  function AtomicOf(s: string): string {
    var parts := Split('.', s);
    var fraction := if |parts| > 1 then parts[1] else "";
    var combined := Seqs.Filter(IsDigit, parts[0] + fraction);
    var trimmed := TrimZeros(combined);
    if trimmed == "" then "0" else trimmed
  }

  function FloatToAtomicString(v: Float, decimals: nat, round: Magnitude -> nat): Option<string> {
    match v
    case NotANumber => None
    case Infinite(_) => None
    case Finite(minus, m) =>
      if minus && m > 0.0 then None
      else Some(AtomicOf(Render(minus, round(Units(m, decimals)), decimals)))
  }

  function TrimEnd(c: char, s: string): string {
    if s != "" && s[|s| - 1] == c then TrimEnd(c, s[..|s| - 1]) else s
  }

  /** The trimming of `format_amount`. */
  function Shown(s: string): string {
    var t := if '.' in s then TrimEnd('.', TrimEnd('0', s)) else s;
    if t == "" then "0" else t
  }

  const PLACES := 6
  const MILLION := 1_000_000

  function FormatAmount(v: Float, ticker: string, round: Magnitude -> nat): string {
    match v
    case Finite(minus, m) => Shown(Render(minus, round(Units(m, PLACES)), PLACES)) + " " + ticker
    case _ => "? " + ticker
  }

  // Atomic units.

  lemma RenderedDigits(minus: bool, whole: string, fraction: string)
    requires AllDigits(whole) && AllDigits(fraction)
    ensures Seqs.Filter(IsDigit, Signed(minus, whole) + fraction) == whole + fraction
  {
    var digits := whole + fraction;
    assert Signed(minus, whole) + fraction == Sign(minus) + digits;
    Seqs.FilterConcat(IsDigit, Sign(minus), digits);
    Seqs.FilterNone(IsDigit, Sign(minus));
    Seqs.FilterAll(IsDigit, digits);
  }

  lemma SplitAmount(head: string, fraction: string)
    requires '.' !in head && '.' !in fraction
    ensures Split('.', head) == [head] && Split('.', head + "." + fraction) == [head, fraction]
  {
    SplitNone('.', head);
    SplitAt('.', head, fraction);
    SplitNone('.', fraction);
    assert head + "." + fraction == head + ['.'] + fraction;
  }

  lemma AtomicOfParts(minus: bool, whole: string, fraction: string, s: string)
    requires AllDigits(whole) && AllDigits(fraction)
    requires Split('.', s) == [Signed(minus, whole), fraction]
        || (fraction == "" && Split('.', s) == [Signed(minus, whole)])
    ensures AtomicOf(s) == Dec(Value(whole + fraction))
  {
    hide Split, Dec, Value, TrimZeros, Signed, Seqs.Filter;
    RenderedDigits(minus, whole, fraction);
    TrimmedIsDec(whole + fraction);
  }

  lemma DigitsTogether(n: nat, d: nat)
    ensures AllDigits(Dec(DropDigits(n, d)) + LastDigits(n, d))
    ensures Value(Dec(DropDigits(n, d)) + LastDigits(n, d)) == n
  {
    hide LastDigits, DropDigits, Value, Pow10, Dec;
    LastDigitsAreDigits(n, d);
    DecIsCanonical(DropDigits(n, d));
    ValueConcat(Dec(DropDigits(n, d)), LastDigits(n, d));
    DigitsDivide(n, d);
  }

  /** The digits on both sides of the point are the digits of the shifted number. */
  lemma AtomicOfRendered(minus: bool, n: nat, d: nat)
    ensures AtomicOf(Render(minus, n, d)) == Dec(n)
  {
    hide LastDigits, DropDigits, Value, Split, Pow10, Dec, AtomicOf;
    var whole, fraction := Dec(DropDigits(n, d)), LastDigits(n, d);
    DecIsCanonical(DropDigits(n, d));
    LastDigitsAreDigits(n, d);
    DigitsTogether(n, d);
    SplitAmount(Signed(minus, whole), fraction);
    AtomicOfParts(minus, whole, fraction, Render(minus, n, d));
  }

  /** An amount becomes the canonical numeral of the amount times ten to the power of the
      decimals, whatever the rounding; negative and non-finite amounts are refused, and a negative
      zero is zero. */
  lemma AtomicIsExact(v: Float, decimals: nat, round: Magnitude -> nat)
    ensures FloatToAtomicString(v, decimals, round)
         == if v.Finite? && !(v.minus && v.magnitude > 0.0)
            then Some(Dec(round(Units(v.magnitude, decimals))))
            else None
  {
    hide Units, AtomicOf, Dec, Render;
    if v.Finite? && !(v.minus && v.magnitude > 0.0) {
      AtomicOfRendered(v.minus, round(Units(v.magnitude, decimals)), decimals);
    }
  }

  // Display.

  /** The fraction digits that stay on display. */
  function ShownFraction(n: nat): string {
    TrimEnd('0', LastDigits(n, PLACES))
  }

  lemma {:induction false} TrimEndBehind(c: char, a: string, b: string)
    requires a == "" || a[|a| - 1] != c
    ensures TrimEnd(c, a + b) == a + TrimEnd(c, b)
  {
    if b == "" {
      assert a + b == a;
    } else {
      var front := b[..|b| - 1];
      assert (a + b)[..|a + b| - 1] == a + front;
      TrimEndBehind(c, a, front);
    }
  }

  /** Trimming the zeros a fraction ends with only changes how many places it is written in. */
  lemma {:induction false} TrimKeepsValue(f: string)
    requires AllDigits(f)
    ensures var t := TrimEnd('0', f);
      && AllDigits(t) && |t| <= |f| && Value(t) * Pow10(|f| - |t|) == Value(f)
      && (t != "" ==> t[|t| - 1] != '0')
  {
    if f != "" && f[|f| - 1] == '0' {
      var front := f[..|f| - 1];
      TrimKeepsValue(front);
      var t := TrimEnd('0', front);
      ShiftStep(Value(t), Pow10(|front| - |t|), 0, 0);
    }
  }

  lemma SixPlaces(n: nat)
    ensures Pow10(PLACES) == MILLION
    ensures DropDigits(n, PLACES) == n / MILLION
    ensures AllDigits(LastDigits(n, PLACES)) && Value(LastDigits(n, PLACES)) == n % MILLION
  {
    assert Pow10(3) == 1000;
    Pow10Adds(3, 3);
    DigitsDivide(n, PLACES);
  }

  lemma ShownFractionValue(n: nat)
    ensures var f := ShownFraction(n);
      && AllDigits(f) && |f| <= PLACES
      && Value(f) * Pow10(PLACES - |f|) == n % MILLION
      && (f == "" <==> n % MILLION == 0)
      && (f != "" ==> f[|f| - 1] != '0')
  {
    var f := ShownFraction(n);
    SixPlaces(n);
    LastDigitsAreDigits(n, PLACES);
    TrimKeepsValue(LastDigits(n, PLACES));
    if f != "" {
      NoTrailingZero(f, Pow10(PLACES - |f|));
    }
  }

  /** What is displayed: the whole part untouched, then the fraction without its trailing zeros,
      and no point when there is no fraction left. */
  lemma ShownIsTrimmed(minus: bool, n: nat)
    ensures Shown(Render(minus, n, PLACES))
         == Signed(minus, Dec(n / MILLION)) + (if n % MILLION == 0 then "" else "." + ShownFraction(n))
  {
    var head := Signed(minus, Dec(n / MILLION));
    var fraction, f := LastDigits(n, PLACES), ShownFraction(n);
    SixPlaces(n);
    LastDigitsAreDigits(n, PLACES);
    DecIsCanonical(n / MILLION);
    ShownFractionValue(n);
    assert head != "" && head[|head| - 1] != '.';
    var s := Render(minus, n, PLACES);
    assert s == (head + ".") + fraction && s[|head|] == '.';
    TrimEndBehind('0', head + ".", fraction);
    TrimPoint(head, f);
  }

  lemma NoTrailingZero(f: string, p: nat)
    requires AllDigits(f) && f != "" && f[|f| - 1] != '0' && p > 0
    ensures Value(f) * p != 0
  {
    assert Value(f) > 0;
  }

  lemma TrimPoint(head: string, f: string)
    requires head != "" && head[|head| - 1] != '.'
    requires AllDigits(f)
    ensures TrimEnd('.', head + "." + f) == head + (if f == "" then "" else "." + f)
  {
    if f == "" {
      assert head + "." + f == head + ".";
      assert (head + ".")[..|head|] == head;
    } else {
      assert head + "." + f == head + ("." + f);
    }
  }

  /** The whole text of a finite amount: sign, whole part, trimmed fraction, ticker. The branch for
      an empty number is never taken. */
  lemma AmountIsTrimmed(v: Float, ticker: string, round: Magnitude -> nat)
    ensures FormatAmount(v, ticker, round)
         == if !v.Finite? then "? " + ticker
            else var n := round(Units(v.magnitude, PLACES));
                 Signed(v.minus, Dec(n / MILLION)) + (if n % MILLION == 0 then "" else "." + ShownFraction(n))
                 + " " + ticker
  {
    if v.Finite? {
      var n := round(Units(v.magnitude, PLACES));
      ShownIsTrimmed(v.minus, n);
      hide Shown, Render, Signed, Dec, ShownFraction;
      assert FormatAmount(v, ticker, round) == Shown(Render(v.minus, n, PLACES)) + " " + ticker;
    }
  }

  function Unsigned(s: string): string {
    if s != "" && s[0] == '-' then s[1..] else s
  }

  /** A displayed amount read back as a whole number of units of the `d`-th place. */
  function Scaled(s: string, d: nat): Option<nat> {
    var parts := Split('.', Unsigned(s));
    var whole, fraction := parts[0], if |parts| > 1 then parts[1] else "";
    if |parts| > 2 || whole == "" || !AllDigits(whole) || !AllDigits(fraction) || |fraction| > d then None
    else Some(Value(whole) * Pow10(d) + Value(fraction) * Pow10(d - |fraction|))
  }

  lemma UnsignedBody(minus: bool, whole: string, rest: string)
    requires AllDigits(whole) && whole != ""
    ensures Unsigned(Signed(minus, whole) + rest) == whole + rest
  {
    assert whole[0] != '-';
    assert Signed(minus, whole) + rest == Sign(minus) + (whole + rest);
  }

  lemma ScaledParts(minus: bool, whole: string, f: string, d: nat)
    requires AllDigits(whole) && whole != "" && AllDigits(f) && |f| <= d
    ensures Scaled(Signed(minus, whole) + (if f == "" then "" else "." + f), d)
         == Some(Value(whole) * Pow10(d) + Value(f) * Pow10(d - |f|))
  {
    hide Value, Split, Pow10, Signed, Unsigned;
    var rest := if f == "" then "" else "." + f;
    UnsignedBody(minus, whole, rest);
    SplitAmount(whole, f);
    if f == "" {
      assert whole + rest == whole;
    } else {
      assert whole + rest == whole + "." + f;
    }
  }

  lemma ScaleArithmetic(n: nat, v: nat, places: nat, d: nat)
    requires places <= PLACES <= d
    requires v * Pow10(PLACES - places) == n % MILLION
    ensures n / MILLION * Pow10(d) + v * Pow10(d - places) == n * Pow10(d - PLACES)
  {
    var w, q, r := n / MILLION, Pow10(PLACES), Pow10(d - PLACES);
    var u := Pow10(PLACES - places);
    SixPlaces(n);
    Pow10Adds(PLACES, d - PLACES);
    Pow10Adds(PLACES - places, d - PLACES);
    hide Pow10;
    assert Pow10(d) == q * r && Pow10(d - places) == u * r;
    assert n == w * q + v * u;
    Regroup(w, q, v, u, r);
  }

  lemma Regroup(w: nat, q: nat, v: nat, u: nat, r: nat)
    ensures w * (q * r) + v * (u * r) == (w * q + v * u) * r
  {
    calc {
      (w * q + v * u) * r;
      (w * q) * r + (v * u) * r;
      w * (q * r) + (v * u) * r;
      w * (q * r) + v * (u * r);
    }
  }

  /** Nothing is lost on the display: reading it back at any scale of six places or more gives the
      amount that was rounded for display. */
  lemma ShownReadsBack(minus: bool, n: nat, d: nat)
    requires d >= PLACES
    ensures Scaled(Shown(Render(minus, n, PLACES)), d) == Some(n * Pow10(d - PLACES))
  {
    hide Pow10, Dec, Scaled, Shown, Render, Value, ShownFraction, Signed;
    var whole, f := Dec(n / MILLION), ShownFraction(n);
    ShownIsTrimmed(minus, n);
    ShownFractionValue(n);
    DecIsCanonical(n / MILLION);
    ScaledParts(minus, whole, f, d);
    ScaleArithmetic(n, Value(f), |f|, d);
  }

  /** The amount of `n` millionths. */
  function Millionths(n: nat): Magnitude {
    n as real / 1_000_000.0
  }

  lemma ShiftedAmount(n: nat, d: nat)
    requires d >= PLACES
    ensures Units(Millionths(n), d) == Whole(n * Pow10(d - PLACES))
  {
    hide Pow10;
    var q := Pow10(d - PLACES);
    SixPlaces(n);
    Pow10Adds(PLACES, d - PLACES);
    assert Pow10(d) as real == 1_000_000.0 * q as real;
    CancelMillion(n, q);
  }

  lemma CancelMillion(n: nat, q: nat)
    ensures Millionths(n) * (1_000_000.0 * q as real) == (n * q) as real
  {
    var m, r := Millionths(n), q as real;
    assert m * 1_000_000.0 == n as real;
    assert m * (1_000_000.0 * r) == (m * 1_000_000.0) * r;
  }

  /** The two modules agree: an amount read off the display and shifted to atomic units is the
      numeral the display reads back as. */
  lemma DisplayAndAtomicAgree(minus: bool, n: nat, d: nat, round: Magnitude -> nat)
    requires d >= PLACES && Rounds(round)
    ensures var units := Scaled(Shown(Render(minus, n, PLACES)), d);
      units.Some? && FloatToAtomicString(Finite(false, Millionths(n)), d, round) == Some(Dec(units.value))
  {
    hide Pow10, Dec, Scaled, Shown, Render, Millionths, Units, Whole, FloatToAtomicString, AtomicOf;
    ShownReadsBack(minus, n, d);
    ShiftedAmount(n, d);
    AtomicIsExact(Finite(false, Millionths(n)), d, round);
    assert round(Whole(n * Pow10(d - PLACES))) == n * Pow10(d - PLACES);
  }

  /** Two amounts look alike only when they round to the same six places and the same sign. */
  lemma ShownIsInjective(minus0: bool, n0: nat, minus1: bool, n1: nat)
    requires Shown(Render(minus0, n0, PLACES)) == Shown(Render(minus1, n1, PLACES))
    ensures minus0 == minus1 && n0 == n1
  {
    hide Shown, Render, Scaled;
    ShownReadsBack(minus0, n0, PLACES);
    ShownReadsBack(minus1, n1, PLACES);
    ShownSign(minus0, n0);
    ShownSign(minus1, n1);
  }

  lemma ShownSign(minus: bool, n: nat)
    ensures var s := Shown(Render(minus, n, PLACES));
      s != "" && (s[0] == '-' <==> minus)
  {
    ShownIsTrimmed(minus, n);
    DecIsCanonical(n / MILLION);
  }
}
