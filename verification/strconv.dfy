/**
 * Go's strconv.Itoa and strconv.Atoi on a 64-bit platform, where `int` is
 * a 64-bit two's-complement integer.
 */
module Strconv {
  import opened Wrappers

  const MaxInt64: int := 0x7fff_ffff_ffff_ffff
  const MinInt64: int := -0x8000_0000_0000_0000
  const MaxUint64: int := 0xffff_ffff_ffff_ffff

  /** Go's `int` on a 64-bit platform. */
  type Int64 = n: int | MinInt64 <= n <= MaxInt64

  /** The two kinds of *NumError that Atoi reports. */
  datatype NumError = ErrSyntax | ErrRange

  /** What Atoi returns: the number, and the error that the callers in the core discard. */
  datatype Parsed = Parsed(value: Int64, err: Option<NumError>)

  predicate IsDigit(c: char) {
    '0' <= c <= '9'
  }

  predicate AllDigits(s: string) {
    forall i | 0 <= i < |s| :: IsDigit(s[i])
  }

  function DigitValue(c: char): nat
    requires IsDigit(c)
  {
    c as int - '0' as int
  }

  function DigitChar(d: nat): (c: char)
    requires d < 10
    ensures IsDigit(c) && DigitValue(c) == d
  {
    ('0' as int + d) as char
  }

  /** The decimal digits of n, most significant first, without leading zeros. */
  function Digits(n: nat): (r: string)
    ensures |r| >= 1
    ensures AllDigits(r)
    ensures |r| > 1 ==> r[0] != '0'
  {
    if n < 10 then [DigitChar(n)] else Digits(n / 10) + [DigitChar(n % 10)]
  }

  /** strconv.Itoa: a minus sign for negative numbers, then the decimal digits. */
  function Itoa(n: int): (r: string)
    ensures |r| >= 1
    ensures n < 0 <==> r[0] == '-'
    ensures n >= 0 ==> r == Digits(n)
  {
    if n < 0 then "-" + Digits(-n) else Digits(n)
  }

  /** The value of the digits s appended, by Horner's rule, to an accumulated value acc. */
  function Horner(s: string, acc: nat): nat
    requires AllDigits(s)
  {
    if s == [] then acc else Horner(s[1..], acc * 10 + DigitValue(s[0]))
  }

  /** The value of a string of digits. */
  function DigitsValue(s: string): nat
    requires AllDigits(s)
  {
    Horner(s, 0)
  }

  /** Appending digits never makes the value smaller. */
  lemma {:induction false} HornerGrows(s: string, acc: nat)
    requires AllDigits(s)
    ensures Horner(s, acc) >= acc
    decreases |s|
  {
    if s != [] {
      HornerGrows(s[1..], acc * 10 + DigitValue(s[0]));
    }
  }

  /** One more digit at the end multiplies by ten and adds the digit. */
  lemma {:induction false} HornerSnoc(s: string, c: char, acc: nat)
    requires AllDigits(s) && IsDigit(c)
    ensures AllDigits(s + [c])
    ensures Horner(s + [c], acc) == Horner(s, acc) * 10 + DigitValue(c)
    decreases |s|
  {
    if s != [] {
      assert (s + [c])[1..] == s[1..] + [c];
      HornerSnoc(s[1..], c, acc * 10 + DigitValue(s[0]));
    }
  }

  /** Reading back the digits Itoa writes gives the number. */
  lemma {:induction false} DigitsValueOfDigits(n: nat)
    ensures DigitsValue(Digits(n)) == n
    decreases n
  {
    if n < 10 {
      assert Digits(n) == [DigitChar(n)];
      assert Horner([DigitChar(n)], 0) == Horner([], n);
    } else {
      DigitsValueOfDigits(n / 10);
      HornerSnoc(Digits(n / 10), DigitChar(n % 10), 0);
      assert Digits(n) == Digits(n / 10) + [DigitChar(n % 10)];
    }
  }

  /** The outcome of ParseUint's digit loop. */
  datatype UintScan = Value(n: nat) | SyntaxError | RangeError

  /** ParseUint's cutoff for base 10: a value at least this large overflows when multiplied by ten. */
  const Cutoff: int := MaxUint64 / 10 + 1

  /**
   * The digit loop of strconv.ParseUint(s, 10, 64), from accumulated value n:
   * the first character that is not a digit is a syntax error, and the first
   * digit that takes the value past MaxUint64 is a range error, whichever
   * comes first.
   */
  function ScanUint(s: string, n: nat): UintScan
    requires n <= MaxUint64
    decreases |s|
  {
    if s == [] then Value(n)
    else if !IsDigit(s[0]) then SyntaxError
    else if n >= Cutoff then RangeError
    else if n * 10 + DigitValue(s[0]) > MaxUint64 then RangeError
    else ScanUint(s[1..], n * 10 + DigitValue(s[0]))
  }

  /** strconv.ParseUint(s, 10, 64): the empty string is a syntax error. */
  function ParseUint(s: string): UintScan {
    if s == [] then SyntaxError else ScanUint(s, 0)
  }

  /** The largest range of x that is a 64-bit int: Go clamps out-of-range results to it. */
  function Clamp(x: int): Int64 {
    if x > MaxInt64 then MaxInt64 else if x < MinInt64 then MinInt64 else x
  }

  /**
   * strconv.Atoi on 64 bits, which is strconv.ParseInt(s, 10, 0): an optional
   * sign, then ParseUint; a syntax error gives 0, a value out of range the
   * nearest 64-bit int together with a range error. Atoi's fast path for
   * inputs shorter than 19 bytes returns the same results.
   */
  function Atoi(s: string): Parsed {
    if s == [] then Parsed(0, Some(ErrSyntax))
    else
      var neg := s[0] == '-';
      var digits := if s[0] == '+' || s[0] == '-' then s[1..] else s;
      match ParseUint(digits)
      case SyntaxError => Parsed(0, Some(ErrSyntax))
      case RangeError => Parsed(if neg then MinInt64 else MaxInt64, Some(ErrRange))
      case Value(u) =>
        if !neg && u > MaxInt64 then Parsed(MaxInt64, Some(ErrRange))
        else if neg && u > -MinInt64 then Parsed(MinInt64, Some(ErrRange))
        else Parsed(if neg then -(u as int) else u, None)
  }

  /** The longest prefix of s made of digits. */
  function DigitPrefix(s: string): (p: string)
    ensures |p| <= |s| && p == s[..|p|]
    ensures AllDigits(p)
    ensures |p| < |s| ==> !IsDigit(s[|p|])
  {
    if s == [] || !IsDigit(s[0]) then [] else [s[0]] + DigitPrefix(s[1..])
  }

  /**
   * The digit loop is decided by the leading digits alone: past MaxUint64 is a
   * range error, otherwise a character after them is a syntax error, and
   * otherwise the result is their value.
   */
  lemma {:induction false} ScanUintOutcome(s: string, n: nat)
    requires n <= MaxUint64
    ensures var p := DigitPrefix(s);
      ScanUint(s, n) ==
        if Horner(p, n) > MaxUint64 then RangeError
        else if |p| < |s| then SyntaxError
        else Value(Horner(p, n))
    decreases |s|
  {
    var p := DigitPrefix(s);
    if s != [] && IsDigit(s[0]) {
      var d := DigitValue(s[0]);
      assert p == [s[0]] + DigitPrefix(s[1..]);
      assert p[1..] == DigitPrefix(s[1..]);
      if n >= Cutoff || n * 10 + d > MaxUint64 {
        HornerGrows(p[1..], n * 10 + d);
      } else {
        ScanUintOutcome(s[1..], n * 10 + d);
      }
    }
  }

  /** An optional sign followed by at least one digit: the input Atoi accepts. */
  predicate WellFormed(s: string) {
    var digits := if |s| > 0 && (s[0] == '+' || s[0] == '-') then s[1..] else s;
    |digits| > 0 && AllDigits(digits)
  }

  /** The signed value a well-formed string denotes. */
  function SignedValue(s: string): int
    requires WellFormed(s)
  {
    if s[0] == '-' then -(DigitsValue(s[1..]) as int)
    else if s[0] == '+' then DigitsValue(s[1..])
    else DigitsValue(s)
  }

  /** A well-formed number parses to its value, clamped to 64 bits, with an error exactly when it was clamped. */
  lemma AtoiWellFormed(s: string)
    requires WellFormed(s)
    ensures Atoi(s).value == Clamp(SignedValue(s))
    ensures Atoi(s).err == None <==> MinInt64 <= SignedValue(s) <= MaxInt64
    ensures Atoi(s).err != None ==> Atoi(s).err == Some(ErrRange)
  {
    var digits := if s[0] == '+' || s[0] == '-' then s[1..] else s;
    ScanUintOutcome(digits, 0);
    assert DigitPrefix(digits) == digits;
  }

  /**
   * A string Atoi does not accept parses to 0 with a syntax error, unless its
   * leading digits already overflow 64 bits before the offending character.
   */
  lemma AtoiMalformed(s: string)
    requires !WellFormed(s)
    requires var digits := if |s| > 0 && (s[0] == '+' || s[0] == '-') then s[1..] else s;
      DigitsValue(DigitPrefix(digits)) <= MaxUint64
    ensures Atoi(s) == Parsed(0, Some(ErrSyntax))
  {
    if s != [] {
      var digits := if s[0] == '+' || s[0] == '-' then s[1..] else s;
      ScanUintOutcome(digits, 0);
      if |DigitPrefix(digits)| == |digits| {
        assert DigitPrefix(digits) == digits;
      }
    }
  }

  /** Atoi reads back every 64-bit int that Itoa writes. */
  lemma AtoiItoa(n: Int64)
    ensures Atoi(Itoa(n)) == Parsed(n, None)
  {
    if n < 0 {
      var m: nat := -(n as int);
      var s := "-" + Digits(m);
      assert Itoa(n) == s;
      assert s[1..] == Digits(m);
      DigitsValueOfDigits(m);
      AtoiWellFormed(s);
    } else {
      var s := Digits(n);
      assert !(s[0] == '+' || s[0] == '-') by {
        assert IsDigit(s[0]);
      }
      DigitsValueOfDigits(n);
      AtoiWellFormed(s);
    }
  }
}
