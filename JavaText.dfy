/**
 * The two pieces of java.lang behaviour the secure-port heuristic is built from:
 * the decimal text of an `int` (what `"" + port` produces, as Integer.toString
 * does) and String.endsWith.
 */
module JavaText {

  /** Java's `int`: 32-bit two's complement. */
  newtype Int32 = x: int | -0x8000_0000 <= x < 0x8000_0000

  function Abs(i: int): (a: nat)
    ensures a == i || a == -i
  {
    if i < 0 then -i else i
  }

  predicate IsDigit(c: char) {
    '0' <= c <= '9'
  }

  predicate AllDigits(s: string) {
    forall i :: 0 <= i < |s| ==> IsDigit(s[i])
  }

  /** The character of the decimal digit `d`. */
  function DigitChar(d: int): (c: char)
    requires 0 <= d < 10
    ensures IsDigit(c) && c as int - '0' as int == d
  {
    ('0' as int + d) as char
  }

  /** The value a string of decimal digits denotes (the empty string denotes 0). */
  function DigitsValue(s: string): nat
    requires AllDigits(s)
  {
    if s == [] then 0
    else DigitsValue(s[..|s| - 1]) * 10 + (s[|s| - 1] as int - '0' as int)
  }

  /**
   * The shortest decimal text of a non-negative number: one or more digits,
   * with no leading zero unless the number is 0.
   */
  function NatToString(n: nat): (s: string)
    ensures |s| >= 1 && AllDigits(s)
    ensures s[0] == '0' ==> s == "0"
    ensures s[|s| - 1] == DigitChar(n % 10)
    decreases n
  {
    if n < 10 then [DigitChar(n)]
    else NatToString(n / 10) + [DigitChar(n % 10)]
  }

  /** What a well-formed decimal integer text looks like: an optional '-' and at least one digit. */
  predicate IsDecimal(s: string) {
    if |s| > 0 && s[0] == '-' then |s| >= 2 && AllDigits(s[1..])
    else |s| >= 1 && AllDigits(s)
  }

  /** The integer a well-formed decimal text denotes. */
  function DecimalValue(s: string): int
    requires IsDecimal(s)
  {
    if s[0] == '-' then -(DigitsValue(s[1..]) as int) else DigitsValue(s)
  }

  /** `"" + i` for a Java int `i`: a minus sign for negative values, then the digits of |i|. */
  function IntToString(i: int): (s: string)
    ensures IsDecimal(s)
    ensures s[0] == '-' <==> i < 0
    ensures (if i < 0 then s[1..] else s) == NatToString(Abs(i))
  {
    if i < 0 then "-" + NatToString(-i) else NatToString(i)
  }

  /**
   * Java's `s.endsWith(suffix)`: the suffix is no longer than `s` and equals
   * its last |suffix| characters, which is to say `s` is some prefix followed
   * by `suffix`.
   */
  predicate EndsWith(s: string, suffix: string): (b: bool)
    ensures b <==> exists p: string :: p + suffix == s
  {
    SuffixSliceIffConcat(s, suffix);
    |suffix| <= |s| && s[|s| - |suffix|..] == suffix
  }

  lemma SuffixSliceIffConcat(s: string, suffix: string)
    ensures (|suffix| <= |s| && s[|s| - |suffix|..] == suffix) <==> exists p: string :: p + suffix == s
  {
    if |suffix| <= |s| && s[|s| - |suffix|..] == suffix {
      var p := s[..|s| - |suffix|];
      assert p + suffix == s;
    }
    if exists p: string :: p + suffix == s {
      var p: string :| p + suffix == s;
      assert s[|s| - |suffix|..] == suffix by {
        assert |p| == |s| - |suffix|;
        forall k | 0 <= k < |suffix|
          ensures s[|s| - |suffix|..][k] == suffix[k]
        {
          assert s[|p| + k] == (p + suffix)[|p| + k];
        }
      }
    }
  }

  /** Reading the digits back gives the number: NatToString loses nothing. */
  lemma {:induction false} NatToStringRoundTrip(n: nat)
    ensures DigitsValue(NatToString(n)) == n
    decreases n
  {
    var s := NatToString(n);
    if n < 10 {
      assert s[..|s| - 1] == [];
    } else {
      NatToStringRoundTrip(n / 10);
      assert s[..|s| - 1] == NatToString(n / 10);
    }
  }

  /** Parsing the text of an int gives the int back. */
  lemma IntToStringRoundTrip(i: int)
    ensures DecimalValue(IntToString(i)) == i
  {
    var s := IntToString(i);
    if i < 0 {
      assert s[1..] == NatToString(-i);
      NatToStringRoundTrip(-i);
    } else {
      if s[0] == '-' {
        assert false;
      }
      NatToStringRoundTrip(i);
    }
  }

  /** Numbers below 100 have at most two digits. */
  lemma NatToStringShort(n: nat)
    requires n < 100
    ensures |NatToString(n)| <= 2
  {
    if n >= 10 {
      assert NatToString(n / 10) == [DigitChar(n / 10)];
    }
  }

  /** The last three characters of the text of an n >= 100 are its hundreds, tens and units digits. */
  lemma {:induction false} NatToStringLastThree(n: nat)
    requires n >= 100
    ensures var s := NatToString(n);
      |s| >= 3 && s[|s| - 3..] == [DigitChar(n / 10 / 10 % 10), DigitChar(n / 10 % 10), DigitChar(n % 10)]
  {
    var s := NatToString(n);
    var t := NatToString(n / 10);
    var u := NatToString(n / 10 / 10);
    assert s == t + [DigitChar(n % 10)];
    assert t == u + [DigitChar(n / 10 % 10)];
    assert u[|u| - 1] == DigitChar(n / 10 / 10 % 10);
    assert s == u + [DigitChar(n / 10 % 10), DigitChar(n % 10)];
  }

  /** The remainder modulo 1000 is spelled by the last three decimal digits. */
  lemma ModThousandDigits(n: nat)
    ensures n % 1000 == 100 * (n / 10 / 10 % 10) + 10 * (n / 10 % 10) + n % 10
  {
    var b := n / 10;
    var c := b / 10;
    var q := c / 10;
    assert n == 10 * b + n % 10;
    assert b == 10 * c + b % 10;
    assert c == 10 * q + c % 10;
    assert n == 1000 * q + (100 * (c % 10) + 10 * (b % 10) + n % 10);
  }

}
