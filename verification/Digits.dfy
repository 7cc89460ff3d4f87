/** Decimal numerals as Rust prints and parses them, and `str::split`. */
module Digits {
  import opened Wrappers

  function Pow10(k: nat): (p: nat)
    ensures p > 0
  {
    if k == 0 then 1 else 10 * Pow10(k - 1)
  }

  lemma TenTimes(x: nat, y: nat)
    ensures 10 * (x * y) == (10 * x) * y
  {
  }

  lemma {:induction false} Pow10Adds(a: nat, b: nat)
    ensures Pow10(a + b) == Pow10(a) * Pow10(b)
  {
    if a > 0 {
      Pow10Adds(a - 1, b);
      TenTimes(Pow10(a - 1), Pow10(b));
    }
  }

  predicate IsDigit(c: char) {
    '0' <= c <= '9'
  }

  function DigitValue(c: char): (d: nat)
    requires IsDigit(c)
    ensures d < 10
  {
    c as int - '0' as int
  }

  function Digit(d: nat): (c: char)
    requires d < 10
    ensures IsDigit(c) && DigitValue(c) == d
  {
    ('0' as int + d) as char
  }

  predicate AllDigits(s: string) {
    forall i :: 0 <= i < |s| ==> IsDigit(s[i])
  }

  /** The number a string of digits stands for; the empty string stands for zero. */
  function Value(s: string): nat
    requires AllDigits(s)
  {
    if s == "" then 0 else 10 * Value(s[..|s| - 1]) + DigitValue(s[|s| - 1])
  }

  /** `format!("{}", n)` for an unsigned `n`. */
  function Dec(n: nat): string {
    if n < 10 then [Digit(n)] else Dec(n / 10) + [Digit(n % 10)]
  }

  /** `n` without its last `k` digits. */
  function DropDigits(n: nat, k: nat): nat {
    if k == 0 then n else DropDigits(n / 10, k - 1)
  }

  /** The last `k` digits of `n`, zeros in front when there are fewer. */
  function LastDigits(n: nat, k: nat): string {
    if k == 0 then "" else LastDigits(n / 10, k - 1) + [Digit(n % 10)]
  }

  /** The only way to write a number: no leading zero unless the number is zero. */
  predicate Canonical(s: string) {
    AllDigits(s) && s != "" && (s[0] == '0' ==> s == "0")
  }

  lemma ValueSnoc(s: string, c: char)
    requires AllDigits(s) && IsDigit(c)
    ensures AllDigits(s + [c]) && Value(s + [c]) == 10 * Value(s) + DigitValue(c)
  {
    assert (s + [c])[..|s|] == s;
  }

  lemma ValueOfOne(c: char)
    requires IsDigit(c)
    ensures Value([c]) == DigitValue(c)
  {
    ValueSnoc("", c);
    assert "" + [c] == [c];
  }

  lemma ShiftStep(v: nat, p: nat, f: nat, d: nat)
    ensures 10 * (v * p + f) + d == v * (10 * p) + (10 * f + d)
  {
  }

  lemma {:induction false} ValueConcat(a: string, b: string)
    requires AllDigits(a) && AllDigits(b)
    ensures AllDigits(a + b) && Value(a + b) == Value(a) * Pow10(|b|) + Value(b)
  {
    if b == "" {
      assert a + b == a;
    } else {
      var front, c := b[..|b| - 1], b[|b| - 1];
      var whole := a + front;
      assert b == front + [c] && a + b == whole + [c];
      ValueConcat(a, front);
      ValueSnoc(whole, c);
      ShiftStep(Value(a), Pow10(|front|), Value(front), DigitValue(c));
    }
  }

  lemma {:induction false} ValueBounded(s: string)
    requires AllDigits(s)
    ensures Value(s) < Pow10(|s|)
  {
    if s != "" {
      ValueBounded(s[..|s| - 1]);
    }
  }

  /** Printing gives the canonical numeral of the number. */
  lemma {:induction false} DecIsCanonical(n: nat)
    ensures Canonical(Dec(n)) && Value(Dec(n)) == n
  {
    if n < 10 {
      ValueOfOne(Digit(n));
    } else {
      DecIsCanonical(n / 10);
      var front := Dec(n / 10);
      ValueSnoc(front, Digit(n % 10));
      ValueOfOne('0');
    }
  }

  lemma {:induction false} LeadingDigitCounts(s: string)
    requires AllDigits(s) && s != "" && s[0] != '0'
    ensures Value(s) > 0
  {
    if |s| > 1 {
      LeadingDigitCounts(s[..|s| - 1]);
    }
  }

  /** And the canonical numeral of a number is the one that is printed. */
  lemma {:induction false} CanonicalIsDec(s: string)
    requires Canonical(s)
    ensures s == Dec(Value(s))
  {
    var front, c := s[..|s| - 1], s[|s| - 1];
    if front == "" {
      assert s == [c];
      assert Value(s) == DigitValue(c);
    } else {
      assert s[0] != '0' && front[0] == s[0];
      LeadingDigitCounts(front);
      CanonicalIsDec(front);
      assert Value(s) == 10 * Value(front) + DigitValue(c);
      assert Value(s) / 10 == Value(front) && Value(s) % 10 == DigitValue(c);
      assert s == front + [c];
    }
  }

  lemma {:induction false} LastDigitsAreDigits(n: nat, k: nat)
    ensures |LastDigits(n, k)| == k && AllDigits(LastDigits(n, k))
  {
    if k > 0 {
      LastDigitsAreDigits(n / 10, k - 1);
    }
  }

  /** The two parts are the quotient and the remainder of dividing by a power of ten. */
  lemma {:induction false} DigitsDivide(n: nat, k: nat)
    ensures AllDigits(LastDigits(n, k)) && Value(LastDigits(n, k)) < Pow10(k)
    ensures n == DropDigits(n, k) * Pow10(k) + Value(LastDigits(n, k))
  {
    LastDigitsAreDigits(n, k);
    ValueBounded(LastDigits(n, k));
    if k > 0 {
      var front := LastDigits(n / 10, k - 1);
      DigitsDivide(n / 10, k - 1);
      ValueSnoc(front, Digit(n % 10));
      ShiftStep(DropDigits(n, k), Pow10(k - 1), Value(front), n % 10);
    }
  }

  /** `trim_start_matches('0')`. */
  function TrimZeros(s: string): string {
    if s != "" && s[0] == '0' then TrimZeros(s[1..]) else s
  }

  lemma LeadingZero(s: string)
    requires AllDigits(s)
    ensures AllDigits("0" + s) && Value("0" + s) == Value(s)
  {
    ValueOfOne('0');
    assert "0" == ['0'];
    ValueConcat("0", s);
  }

  /** Trimming leading zeros, or writing "0" when nothing is left, gives the canonical numeral. */
  lemma {:induction false} TrimmedIsDec(s: string)
    requires AllDigits(s)
    ensures (if TrimZeros(s) == "" then "0" else TrimZeros(s)) == Dec(Value(s))
  {
    if s == "" {
    } else if s[0] == '0' {
      var rest := s[1..];
      assert "0" + rest == s;
      LeadingZero(rest);
      TrimmedIsDec(rest);
    } else {
      CanonicalIsDec(s);
    }
  }

  /** `str::split` at one character. */
  function Split(c: char, s: string): (r: seq<string>)
    ensures |r| > 0
  {
    if s == "" then [""]
    else if s[0] == c then [""] + Split(c, s[1..])
    else var r := Split(c, s[1..]); [[s[0]] + r[0]] + r[1..]
  }

  lemma {:induction false} SplitNone(c: char, s: string)
    requires c !in s
    ensures Split(c, s) == [s]
  {
    if s != "" {
      SplitNone(c, s[1..]);
      assert [s[0]] + s[1..] == s;
    }
  }

  lemma {:induction false} SplitAt(c: char, a: string, b: string)
    requires c !in a
    ensures Split(c, a + [c] + b) == [a] + Split(c, b)
  {
    var s := a + [c] + b;
    if a == "" {
      assert s[1..] == b;
    } else {
      SplitAt(c, a[1..], b);
      assert s[1..] == a[1..] + [c] + b;
      assert [a[0]] + a[1..] == a;
    }
  }

  /** `str::parse` for an unsigned type whose largest value is `max`: an optional `+`, then at
      least one digit and nothing else. */
  function ParseUnsigned(s: string, max: nat): Option<nat> {
    var body := if s != "" && s[0] == '+' then s[1..] else s;
    if body == "" || !AllDigits(body) || Value(body) > max then None else Some(Value(body))
  }

  /** Reading a printed number gives it back exactly when it fits the type. */
  lemma ParsePrinted(n: nat, max: nat)
    ensures ParseUnsigned(Dec(n), max) == if n <= max then Some(n) else None
  {
    DecIsCanonical(n);
  }

  /** What is read: digits and nothing else, with or without one plus in front, of a number that fits. */
  lemma ParsesExactly(s: string, max: nat, n: nat)
    ensures ParseUnsigned(s, max) == Some(n)
       <==> exists digits :: digits != "" && AllDigits(digits) && Value(digits) == n <= max
                             && (s == digits || s == "+" + digits)
  {
    var body := if s != "" && s[0] == '+' then s[1..] else s;
    if ParseUnsigned(s, max) == Some(n) {
      assert s == body || s == "+" + body;
    }
    if digits :| digits != "" && AllDigits(digits) && Value(digits) == n <= max
                 && (s == digits || s == "+" + digits) {
      assert IsDigit(digits[0]);
      assert body == digits;
    }
  }

  /** Joining what was split gives the text back, and no part holds the separator. */
  lemma {:induction false} SplitOff(c: char, s: string)
    ensures c !in Split(c, s)[0]
    ensures |Split(c, s)| == 1 ==> s == Split(c, s)[0]
    ensures |Split(c, s)| > 1 ==> exists b :: s == Split(c, s)[0] + [c] + b && Split(c, s)[1..] == Split(c, b)
  {
    if s != "" {
      var r := Split(c, s[1..]);
      if s[0] == c {
        assert s == "" + [c] + s[1..];
      } else {
        SplitOff(c, s[1..]);
        if |r| > 1 {
          var b :| s[1..] == r[0] + [c] + b && r[1..] == Split(c, b);
          assert s == ([s[0]] + r[0]) + [c] + b;
        }
      }
    }
  }
}
