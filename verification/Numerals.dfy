/** Decimal output (`%u`) and decimal input (`strtol` with base 10). */
module Numerals {

  predicate IsDigit(c: char) { '0' <= c <= '9' }

  function DigitValue(c: char): nat
    requires IsDigit(c)
  {
    c as int - '0' as int
  }

  function Digit(d: nat): char
    requires d < 10
  {
    (d + '0' as int) as char
  }

  /** The digits `%u` prints. */
  function Decimal(n: nat): string {
    if n < 10 then [Digit(n)] else Decimal(n / 10) + [Digit(n % 10)]
  }

  /** The value of the longest run of leading digits, `acc` being the value so far. */
  function DigitsValue(s: string, acc: nat): nat {
    if s == "" || !IsDigit(s[0]) then acc else DigitsValue(s[1..], acc * 10 + DigitValue(s[0]))
  }

  const LONG_MAX: nat := 0x7fff_ffff_ffff_ffff
  const TWO_64: nat := 0x1_0000_0000_0000_0000

  /** `isspace` in the C locale. */
  predicate IsSpace(c: char) { c in " \t\n\U{0B}\U{0C}\r" }

  function SkipSpace(s: string): (r: string)
    ensures |r| <= |s|
  {
    if s == "" || !IsSpace(s[0]) then s else SkipSpace(s[1..])
  }

  /** `strtol(s, NULL, 10)` converted to the 64-bit `unsigned long` it is passed as. */
  function ParseUnsignedLong(s: string): (value: nat)
    ensures value < TWO_64
  {
    var body := SkipSpace(s);
    if body != "" && body[0] == '-' then
      var magnitude := DigitsValue(body[1..], 0);
      var clamped := if magnitude > LONG_MAX + 1 then LONG_MAX + 1 else magnitude;
      (TWO_64 - clamped) % TWO_64
    else
      var digits := if body != "" && body[0] == '+' then body[1..] else body;
      var magnitude := DigitsValue(digits, 0);
      if magnitude > LONG_MAX then LONG_MAX else magnitude
  }

  lemma {:induction false} DecimalDigits(n: nat)
    ensures Decimal(n) != "" && forall i :: 0 <= i < |Decimal(n)| ==> IsDigit(Decimal(n)[i])
  {
    if n >= 10 {
      DecimalDigits(n / 10);
    }
  }

  lemma {:induction false} DecimalThenMore(n: nat, rest: string)
    ensures DigitsValue(Decimal(n) + rest, 0) == DigitsValue(rest, n)
    decreases n
  {
    if n >= 10 {
      var last := [Digit(n % 10)];
      DecimalThenMore(n / 10, last + rest);
      assert Decimal(n) + rest == Decimal(n / 10) + (last + rest);
    }
  }

  /** No leading zeros: with its value, that determines the text. */
  lemma {:induction false} DecimalIsCanonical(n: nat)
    ensures n < 10 ==> Decimal(n) == ["0123456789"[n]]
    ensures n >= 10 ==> |Decimal(n)| > 1 && Decimal(n)[0] != '0'
  {
    if n >= 10 {
      DecimalIsCanonical(n / 10);
    }
  }

  lemma {:induction false} SpacesSkipped(spaces: string, s: string)
    requires forall c :: c in spaces ==> c in " \t\n\U{0B}\U{0C}\r"
    ensures SkipSpace(spaces + s) == SkipSpace(s)
  {
    if spaces == "" {
      assert spaces + s == s;
    } else {
      assert (spaces + s)[0] == spaces[0] && spaces[0] in spaces && (spaces + s)[1..] == spaces[1..] + s;
      SpacesSkipped(spaces[1..], s);
    }
  }

  /** What may follow a number. */
  predicate EndsNumber(more: string) { more == "" || more[0] < '0' || more[0] > '9' }

  lemma SpacesIgnored(spaces: string, s: string)
    requires forall c :: c in spaces ==> c in " \t\n\U{0B}\U{0C}\r"
    ensures ParseUnsignedLong(spaces + s) == ParseUnsignedLong(s)
  {
    SpacesSkipped(spaces, s);
  }

  lemma SignParses(number: string, n: nat)
    requires number != "" && IsDigit(number[0]) && DigitsValue(number, 0) == n
    ensures var saturated := if n <= 0x7fff_ffff_ffff_ffff then n else 0x7fff_ffff_ffff_ffff;
            ParseUnsignedLong(number) == saturated && ParseUnsignedLong("+" + number) == saturated
    ensures ParseUnsignedLong("-" + number)
            == if n == 0 then 0
               else 0x1_0000_0000_0000_0000 - if n <= 0x8000_0000_0000_0000 then n else 0x8000_0000_0000_0000
  {
    assert ("+" + number)[1..] == number && ("-" + number)[1..] == number;
  }

  /** `strtol` on a number with a sign or without, after any white space and before anything
      but a digit: saturated to a signed long, and a negative one wrapped to `unsigned long`. */
  lemma NumberParses(spaces: string, n: nat, more: string)
    requires (forall c :: c in spaces ==> c in " \t\n\U{0B}\U{0C}\r") && EndsNumber(more)
    ensures var saturated := if n <= 0x7fff_ffff_ffff_ffff then n else 0x7fff_ffff_ffff_ffff;
            && ParseUnsignedLong(spaces + (Decimal(n) + more)) == saturated
            && ParseUnsignedLong(spaces + ("+" + (Decimal(n) + more))) == saturated
    ensures ParseUnsignedLong(spaces + ("-" + (Decimal(n) + more)))
            == if n == 0 then 0
               else 0x1_0000_0000_0000_0000 - if n <= 0x8000_0000_0000_0000 then n else 0x8000_0000_0000_0000
  {
    var number := Decimal(n) + more;
    DecimalThenMore(n, more);
    DecimalDigits(n);
    assert number[0] == Decimal(n)[0];
    SignParses(number, n);
    SpacesIgnored(spaces, number);
    SpacesIgnored(spaces, "+" + number);
    SpacesIgnored(spaces, "-" + number);
  }

  /** Printing a number and parsing the text gives the number back, up to the
      largest signed long, and only up to there. */
  lemma DecimalRoundTrip(n: nat)
    ensures ParseUnsignedLong(Decimal(n)) == if n <= 0x7fff_ffff_ffff_ffff then n else 0x7fff_ffff_ffff_ffff
  {
    NumberParses("", n, "");
    assert Decimal(n) + "" == Decimal(n) && "" + Decimal(n) == Decimal(n);
  }
}
