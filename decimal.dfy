/**
 * Decimal text for Go ints: what fmt's %d writes and what strconv.Atoi
 * accepts. A Go int is 64 bits wide here.
 */
module Decimal {
  import opened Wrappers
  import opened Bytes

  const MinInt64: int := -0x8000_0000_0000_0000
  const MaxInt64: int := 0x7FFF_FFFF_FFFF_FFFF

  const ZERO: byte := 48
  const MINUS: byte := 45
  const PLUS: byte := 43

  function DigitByte(d: int): (b: byte)
    requires 0 <= d < 10
    ensures IsDigit(b)
  {
    (48 + d) as byte
  }

  function DigitValue(b: byte): (d: nat)
    requires IsDigit(b)
    ensures d < 10 && DigitByte(d) == b
  {
    b as int - 48
  }

  /** The decimal digits of n, most significant first. */
  function Digits(n: nat): seq<byte>
    decreases n
  {
    if n < 10 then [DigitByte(n)] else Digits(n / 10) + [DigitByte(n % 10)]
  }

  /**
   * The digits of n are never empty and have no leading zero unless n is
   * zero itself; there is one digit exactly when n < 10.
   */
  lemma {:induction false} DigitsShape(n: nat)
    ensures |Digits(n)| > 0 && AllDigits(Digits(n))
    ensures Digits(n)[0] == ZERO <==> n == 0
    ensures |Digits(n)| == 1 <==> n < 10
    decreases n
  {
    if n >= 10 {
      DigitsShape(n / 10);
      assert Digits(n)[0] == Digits(n / 10)[0];
    }
  }

  /** The number a string of decimal digits denotes (leading zeros allowed). */
  function DigitsValue(s: seq<byte>): nat
    requires AllDigits(s)
    decreases |s|
  {
    if |s| == 0 then 0 else DigitsValue(s[..|s| - 1]) * 10 + DigitValue(s[|s| - 1])
  }

  /** %d: a minus sign for negative numbers, then the digits of the magnitude. */
  function Format(n: int): seq<byte> {
    if n < 0 then [MINUS] + Digits(-n) else Digits(n)
  }

  /** What %d writes is never empty, holds no white space, and starts with a minus sign exactly for negative numbers. */
  lemma FormatShape(n: int)
    ensures |Format(n)| > 0 && NoSpace(Format(n))
    ensures Format(n)[0] == MINUS <==> n < 0
    ensures Format(n)[0] != PLUS
  {
    if n < 0 {
      DigitsShape(-n);
      assert Format(n)[1..] == Digits(-n);
    } else {
      DigitsShape(n);
    }
  }

  /**
   * strconv.Atoi: an optional sign and then one or more decimal digits,
   * nothing else; a value outside the 64-bit range is an error too.
   */
  function ParseInt(t: seq<byte>): (r: Option<int>)
    ensures r.Some? ==> MinInt64 <= r.value <= MaxInt64
    ensures r.Some? ==> |t| > 0 && AllDigits(t[1..])
    ensures r.Some? ==> IsDigit(t[0]) || t[0] == MINUS || t[0] == PLUS
    ensures r.Some? && r.value < 0 ==> t[0] == MINUS
    ensures r.Some? ==> IsDigit(t[|t| - 1])
  {
    if |t| == 0 then None
    else
      var body := if t[0] == MINUS || t[0] == PLUS then t[1..] else t;
      if |body| == 0 || !AllDigits(body) then None
      else
        var m: int := DigitsValue(body);
        var v := if t[0] == MINUS then -m else m;
        if MinInt64 <= v <= MaxInt64 then Some(v) else None
  }

  /** Reading back the digits of n gives n. */
  lemma {:induction false} DigitsRoundTrip(n: nat)
    ensures AllDigits(Digits(n)) && DigitsValue(Digits(n)) == n
    decreases n
  {
    DigitsShape(n);
    if n < 10 {
      assert [DigitByte(n)][..0] == [];
    } else {
      var d := Digits(n / 10);
      assert Digits(n) == d + [DigitByte(n % 10)];
      assert (d + [DigitByte(n % 10)])[..|d|] == d;
      DigitsRoundTrip(n / 10);
    }
  }

  /** A digit string that does not start with a zero denotes a positive number. */
  lemma {:induction false} LeadingDigitPositive(s: seq<byte>)
    requires |s| > 0 && AllDigits(s) && s[0] != ZERO
    ensures DigitsValue(s) > 0
    decreases |s|
  {
    if |s| > 1 {
      LeadingDigitPositive(s[..|s| - 1]);
    } else {
      assert s[..0] == [];
    }
  }

  /** Digits is the inverse of DigitsValue on digit strings without a leading zero. */
  lemma {:induction false} DigitsCanonical(s: seq<byte>)
    requires |s| > 0 && AllDigits(s)
    requires |s| == 1 || s[0] != ZERO
    ensures Digits(DigitsValue(s)) == s
    decreases |s|
  {
    var last := s[|s| - 1];
    if |s| == 1 {
      assert s[..0] == [];
      assert s == [last];
    } else {
      var init := s[..|s| - 1];
      DigitsCanonical(init);
      LeadingDigitPositive(init);
      var v := DigitsValue(s);
      assert v == DigitsValue(init) * 10 + DigitValue(last);
      assert v / 10 == DigitsValue(init) && v % 10 == DigitValue(last);
      assert s == init + [last];
    }
  }

  /** Atoi reads back exactly what %d writes, for every 64-bit int. */
  lemma ParseFormat(n: int)
    requires MinInt64 <= n <= MaxInt64
    ensures ParseInt(Format(n)) == Some(n)
  {
    var t := Format(n);
    FormatShape(n);
    if n < 0 {
      assert t[1..] == Digits(-n);
      DigitsRoundTrip(-n);
    } else {
      DigitsRoundTrip(n);
    }
  }

  /** Beyond the 64-bit range, on either side, what %d writes is an Atoi error. */
  lemma ParseOutOfRange(n: int)
    requires n < MinInt64 || n > MaxInt64
    ensures ParseInt(Format(n)) == None
  {
    FormatShape(n);
    if n < 0 {
      assert Format(n)[1..] == Digits(-n);
      DigitsRoundTrip(-n);
    } else {
      DigitsRoundTrip(n);
    }
  }

  /** Atoi of a bare digit string is its value, when that value is within range. */
  lemma ParseDigits(t: seq<byte>)
    requires |t| > 0 && AllDigits(t)
    ensures DigitsValue(t) <= MaxInt64 ==> ParseInt(t) == Some(DigitsValue(t))
    ensures DigitsValue(t) > MaxInt64 ==> ParseInt(t) == None
  {
    assert IsDigit(t[0]);
  }

  /** Atoi is lenient: a plus sign and leading zeros are accepted. */
  lemma ParseLenient(n: nat, zeros: nat)
    requires n <= MaxInt64
    ensures ParseInt([PLUS] + Digits(n)) == Some(n)
    ensures ParseInt(seq(zeros, _ => ZERO) + Digits(n)) == Some(n)
  {
    var d := Digits(n);
    DigitsShape(n);
    DigitsRoundTrip(n);
    assert ([PLUS] + d)[0] == PLUS && ([PLUS] + d)[1..] == d;
    var t := seq(zeros, _ => ZERO) + d;
    LeadingZeros(zeros, d);
    ParseDigits(t);
  }

  /** Leading zeros do not change the value of a digit string. */
  lemma {:induction false} LeadingZeros(zeros: nat, s: seq<byte>)
    requires AllDigits(s)
    ensures AllDigits(seq(zeros, _ => ZERO) + s)
    ensures DigitsValue(seq(zeros, _ => ZERO) + s) == DigitsValue(s)
    decreases |s|
  {
    var z := seq(zeros, _ => ZERO);
    if |s| == 0 {
      assert z + s == z;
      ZerosValue(zeros);
    } else {
      var init := s[..|s| - 1];
      LeadingZeros(zeros, init);
      assert (z + s)[..|z + s| - 1] == z + init;
    }
  }

  lemma {:induction false} ZerosValue(zeros: nat)
    ensures DigitsValue(seq(zeros, _ => ZERO)) == 0
    decreases zeros
  {
    if zeros > 0 {
      assert seq(zeros, _ => ZERO)[..zeros - 1] == seq(zeros - 1, _ => ZERO);
      ZerosValue(zeros - 1);
    }
  }

  /** A byte that is neither a digit nor a sign anywhere in a token makes Atoi fail. */
  lemma ParseRejects(t: seq<byte>, i: nat)
    requires i < |t| && !IsDigit(t[i]) && t[i] != MINUS && t[i] != PLUS
    ensures ParseInt(t) == None
  {
  }
}
