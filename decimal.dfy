/**
  Base-10 text of a BigInt: `id.toString()` in the encoder and `BigInt(uid)`
  in the decoder.
*/
module Decimal {
  import opened Results
  import opened Bits

  predicate IsDigit(ch: char) {
    '0' <= ch <= '9'
  }

  predicate IsDecimal(s: string) {
    forall i :: 0 <= i < |s| ==> IsDigit(s[i])
  }

  /** The text `toString()` produces: digits only, no leading zero except "0" itself. */
  predicate IsCanonical(s: string) {
    |s| >= 1 && IsDecimal(s) && (s[0] == '0' ==> |s| == 1)
  }

  function DigitChar(d: nat): (ch: char)
    requires d < 10
    ensures IsDigit(ch) && ch as int == '0' as int + d
  {
    ('0' as int + d) as char
  }

  function DigitValue(ch: char): (d: nat)
    requires IsDigit(ch)
    ensures d < 10
  {
    ch as int - '0' as int
  }

  /** The value of a string of decimal digits, most significant first. */
  function DigitsValue(s: string): nat
    requires IsDecimal(s)
  {
    if s == [] then 0 else 10 * DigitsValue(s[..|s| - 1]) + DigitValue(s[|s| - 1])
  }

  /** `n.toString()` for a non-negative BigInt. */
  function NatToString(n: nat): (s: string)
    ensures IsCanonical(s)
    ensures s[0] == '0' <==> n == 0
  {
    if n < 10 then [DigitChar(n)] else NatToString(n / 10) + [DigitChar(n % 10)]
  }

  /**
    `BigInt(s)` restricted to plain digit strings; the empty string reads as
    0 as it does for BigInt; every other text (including the signed,
    whitespace-padded and prefixed forms BigInt accepts) is refused.
  */
  function StringToNat(s: string): (r: Option<nat>)
    ensures r.Some? <==> IsDecimal(s)
  {
    if IsDecimal(s) then Some(DigitsValue(s)) else None
  }

  /** Parsing what `toString()` printed gives the number back. */
  lemma {:induction false} ParseOfPrint(n: nat)
    ensures StringToNat(NatToString(n)) == Some(n)
  {
    var s := NatToString(n);
    if n < 10 {
      assert s[..0] == [];
      assert DigitValue(s[0]) == n;
      assert DigitsValue(s) == 10 * DigitsValue([]) + n;
    } else {
      ParseOfPrint(n / 10);
      assert s[..|s| - 1] == NatToString(n / 10);
    }
  }

  /** A canonical digit string is exactly what `toString()` prints for its value. */
  lemma {:induction false} PrintOfParse(s: string)
    requires IsCanonical(s)
    ensures StringToNat(s) == Some(DigitsValue(s)) && NatToString(DigitsValue(s)) == s
  {
    if |s| > 1 {
      var init, last := s[..|s| - 1], s[|s| - 1];
      assert IsCanonical(init);
      PrintOfParse(init);
      LeadingDigitPositive(init);
      var v, d := DigitsValue(init), DigitValue(last);
      var n := DigitsValue(s);
      assert n == 10 * v + d;
      DivModUnique(n, 10, v, d);
      assert DigitChar(d) == last;
      assert NatToString(n) == NatToString(v) + [DigitChar(d)];
      assert s == init + [last];
    }
  }

  lemma {:induction false} LeadingDigitPositive(s: string)
    requires IsDecimal(s) && |s| >= 1 && s[0] != '0'
    ensures DigitsValue(s) >= 1
  {
    if |s| > 1 {
      LeadingDigitPositive(s[..|s| - 1]);
    }
  }
}
