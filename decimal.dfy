/**
 * Decimal text of integers, as `std::to_string(int)` writes it: an optional
 * '-' followed by decimal digits without leading zeros; and the reader
 * that takes such text back to the integer.
 */
module Decimal {
  import opened Outcomes

  predicate IsDigit(c: char)
  {
    '0' <= c <= '9'
  }

  /** The characters a numeral can contain. */
  predicate IsNumeralChar(c: char)
  {
    IsDigit(c) || c == '-'
  }

  function DigitChar(d: int): (c: char)
    requires 0 <= d < 10
    ensures IsDigit(c)
  {
    ('0' as int + d) as char
  }

  function DigitValue(c: char): (d: int)
    requires IsDigit(c)
    ensures 0 <= d < 10
  {
    c as int - '0' as int
  }

  function NatToString(n: nat): (s: string)
    ensures |s| > 0
  {
    if n < 10 then [DigitChar(n)] else NatToString(n / 10) + [DigitChar(n % 10)]
  }

  lemma {:induction false} NatToStringDigits(n: nat)
    ensures forall k :: 0 <= k < |NatToString(n)| ==> IsDigit(NatToString(n)[k])
  {
    if n >= 10 {
      NatToStringDigits(n / 10);
    }
  }

  /** `std::to_string` on an `int`. */
  function IntToString(i: int): (s: string)
    ensures |s| > 0
  {
    if i < 0 then "-" + NatToString(-i) else NatToString(i)
  }

  /** Reads a non-empty string of decimal digits. */
  function ParseNat(s: string): Option<nat>
  {
    if s == [] || !IsDigit(s[|s| - 1]) then None
    else if |s| == 1 then Some(DigitValue(s[0]))
    else
      var high :- ParseNat(s[..|s| - 1]);
      Some(10 * high + DigitValue(s[|s| - 1]))
  }

  /** Reads an optional '-' followed by decimal digits. */
  function ParseInt(s: string): Option<int>
  {
    if |s| > 0 && s[0] == '-' then
      var n :- ParseNat(s[1..]);
      var negative := -(n as int);
      Some(negative)
    else
      var n :- ParseNat(s);
      Some(n as int)
  }

  lemma {:induction false} ParseNatToString(n: nat)
    ensures ParseNat(NatToString(n)) == Some(n)
  {
    if n >= 10 {
      var s := NatToString(n);
      ParseNatToString(n / 10);
      assert s[..|s| - 1] == NatToString(n / 10);
    }
  }

  /** The decimal text of every integer reads back as that integer. */
  lemma ParseIntToString(i: int)
    ensures ParseInt(IntToString(i)) == Some(i)
  {
    if i < 0 {
      ParseNatToString(-i);
      assert IntToString(i)[1..] == NatToString(-i);
    } else {
      ParseNatToString(i);
      NatToStringDigits(i);
    }
  }

  /** A numeral holds only digits and '-', so it contains none of the separators around it. */
  lemma IntToStringChars(i: int)
    ensures forall k :: 0 <= k < |IntToString(i)| ==> IsNumeralChar(IntToString(i)[k])
  {
    if i < 0 {
      NatToStringDigits(-i);
    } else {
      NatToStringDigits(i);
    }
  }
}
