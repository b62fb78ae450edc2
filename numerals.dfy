/**
 * Integer text as Go writes and reads it: `fmt` / `strconv.Itoa` (base 10) and
 * `%x` on a big.Int (base 16) for writing; `strconv.Atoi` (base 10) and
 * `big.Int.SetString(s, base)` for reading. Both readers accept an optional
 * leading `+` or `-` followed by at least one digit of the base, letters in
 * either case. Integers are unbounded here (see README, "Left out").
 */
module Numerals {
  import opened Results

  /** The bases the program uses. */
  predicate IsBase(base: int) { base == 10 || base == 16 }

  /** The value of an ASCII digit or letter (0..35), or -1. */
  function DigitValue(c: char): int {
    if '0' <= c <= '9' then c as int - '0' as int
    else if 'a' <= c <= 'z' then c as int - 'a' as int + 10
    else if 'A' <= c <= 'Z' then c as int - 'A' as int + 10
    else -1
  }

  predicate IsDigit(c: char, base: int) {
    0 <= DigitValue(c) < base
  }

  predicate AllDigits(s: string, base: int) {
    forall i :: 0 <= i < |s| ==> IsDigit(s[i], base)
  }

  /** The lower-case digit Go prints for `d`. */
  function DigitChar(d: nat): (c: char)
    requires d < 16
    ensures DigitValue(c) == d
  {
    if d < 10 then ('0' as int + d) as char else ('a' as int + d - 10) as char
  }

  /** The digits of `n` in `base`, most significant first, without leading zeros. */
  function Digits(n: nat, base: int): (s: string)
    requires IsBase(base)
    ensures |s| >= 1 && AllDigits(s, base)
    decreases n
  {
    if n < base then [DigitChar(n)] else Digits(n / base, base) + [DigitChar(n % base)]
  }

  /** The value of a string of digits. */
  function ValueOf(s: string, base: int): nat
    requires IsBase(base) && AllDigits(s, base)
  {
    if |s| == 0 then 0 else ValueOf(s[..|s| - 1], base) * base + DigitValue(s[|s| - 1])
  }

  lemma {:induction false} ValueOfDigits(n: nat, base: int)
    requires IsBase(base)
    ensures ValueOf(Digits(n, base), base) == n
    decreases n
  {
    if n >= base {
      var s := Digits(n, base);
      var q, d := n / base, n % base;
      assert s == Digits(q, base) + [DigitChar(d)];
      assert s[..|s| - 1] == Digits(q, base);
      ValueOfDigits(q, base);
      assert ValueOf(s, base) == q * base + d;
      assert q * base + d == n by {
        if base == 10 { assert n == q * 10 + d; } else { assert n == q * 16 + d; }
      }
    }
  }

  /** strconv.Itoa / `%v` (base 10) and `%x` (base 16) of an integer. */
  function FormatInt(i: int, base: int): string
    requires IsBase(base)
  {
    if i < 0 then "-" + Digits(-i, base) else Digits(i, base)
  }

  /** The text `ParseInt` accepts: an optional sign and then at least one digit. */
  predicate IsIntText(s: string, base: int) {
    var rest := if |s| > 0 && (s[0] == '+' || s[0] == '-') then s[1..] else s;
    |rest| > 0 && AllDigits(rest, base)
  }

  /** strconv.Atoi (base 10) and big.Int.SetString (base 10 or 16); None is the error return. */
  function ParseInt(s: string, base: int): (r: Option<int>)
    requires IsBase(base)
    ensures r.Some? <==> IsIntText(s, base)
    ensures r.Some? && r.value < 0 ==> s[0] == '-'
  {
    var neg := |s| > 0 && s[0] == '-';
    var rest := if |s| > 0 && (s[0] == '+' || s[0] == '-') then s[1..] else s;
    if |rest| == 0 || !AllDigits(rest, base) then None
    else
      var v: int := ValueOf(rest, base);
      Some(if neg then -v else v)
  }

  /** What Go writes, Go reads back: the round trip behind every number in names and envelopes. */
  lemma ParseFormat(i: int, base: int)
    requires IsBase(base)
    ensures ParseInt(FormatInt(i, base), base) == Some(i)
  {
    var n := if i < 0 then -i else i;
    ValueOfDigits(n, base);
    if i < 0 {
      ParseNegative(Digits(n, base), base);
    } else {
      ParseDigits(Digits(n, base), base);
    }
  }

  /** Digits read back as their value. */
  lemma ParseDigits(d: string, base: int)
    requires IsBase(base) && |d| >= 1 && AllDigits(d, base)
    ensures ParseInt(d, base) == Some(ValueOf(d, base))
  {
    DigitIsNotSeparator(d[0], base);
  }

  /** Digits behind a '-' read back as their negated value. */
  lemma ParseNegative(d: string, base: int)
    requires IsBase(base) && |d| >= 1 && AllDigits(d, base)
    ensures ParseInt("-" + d, base) == Some(-(ValueOf(d, base) as int))
  {
    var s := "-" + d;
    assert s[0] == '-' && s[1..] == d;
  }

  /** Printed integers hold only digits and, for negatives, one leading '-'. */
  lemma FormatIntChars(i: int, base: int)
    requires IsBase(base)
    ensures |FormatInt(i, base)| >= 1
    ensures i >= 0 ==> AllDigits(FormatInt(i, base), base)
    ensures i < 0 ==> FormatInt(i, base)[0] == '-' && AllDigits(FormatInt(i, base)[1..], base)
    ensures IsDigit(FormatInt(i, base)[|FormatInt(i, base)| - 1], base)
  {
    if i < 0 {
      assert FormatInt(i, base)[1..] == Digits(-i, base);
    }
  }

  /** A digit is none of the separators and white space the program looks for. */
  lemma DigitIsNotSeparator(c: char, base: int)
    requires IsBase(base) && IsDigit(c, base)
    ensures c != '-' && c != '.' && c != '\n' && c != '+' && c != ' '
  {
  }

  /** A '-' anywhere but in front makes the text no integer. */
  lemma InnerSignNotInt(s: string, k: int, base: int)
    requires IsBase(base) && 1 <= k < |s| && s[k] == '-'
    ensures ParseInt(s, base).None?
  {
    var rest := if s[0] == '+' || s[0] == '-' then s[1..] else s;
    var m := if s[0] == '+' || s[0] == '-' then k - 1 else k;
    assert rest[m] == '-';
  }
}
