/**
 * Decimal text: the digits `SimpleDateFormat` writes for the day, month and
 * year fields and reads back, and the digits `StringBuilder.append(int)`
 * writes for a count.
 */
module Digits {

  predicate IsDigit(c: char) {
    '0' <= c <= '9'
  }

  predicate AllDigits(s: string) {
    forall i :: 0 <= i < |s| ==> IsDigit(s[i])
  }

  function DigitChar(n: nat): (c: char)
    requires n < 10
    ensures IsDigit(c) && DigitValue(c) == n
  {
    ('0' as int + n) as char
  }

  function DigitValue(c: char): nat
    requires IsDigit(c)
  {
    c as int - '0' as int
  }

  /** The number a string of decimal digits denotes; leading zeros are allowed. */
  function Value(s: string): nat
    requires AllDigits(s)
  {
    if |s| == 0 then 0 else Value(s[..|s| - 1]) * 10 + DigitValue(s[|s| - 1])
  }

  function Pow10(k: nat): (p: nat)
    ensures p >= 1
  {
    if k == 0 then 1 else 10 * Pow10(k - 1)
  }

  /**
   * Decimal text as `Integer.toString` writes a non-negative number: at
   * least one digit, and no leading zero unless the number is zero itself.
   */
  predicate Canonical(s: string) {
    AllDigits(s) && |s| >= 1 && (|s| == 1 || s[0] != '0')
  }

  /**
   * The decimal digits of `n`, padded on the left with zeros to at least
   * `width` characters: the way a `dd`, `MM` or `yyyy` field is written.
   * Reading the digits back gives `n`; a number that fits the width takes
   * exactly that many characters; without padding the text is canonical.
   */
  function Padded(n: nat, width: nat): (s: string)
    ensures AllDigits(s)
    ensures Value(s) == n
    ensures |s| >= 1 && |s| >= width
    ensures width >= 1 && n < Pow10(width) ==> |s| == width
    ensures width <= 1 ==> Canonical(s)
    decreases n + width
  {
    if n < 10 && width <= 1 then [DigitChar(n)]
    else
      var front := Padded(n / 10, if width == 0 then 0 else width - 1);
      var s := front + [DigitChar(n % 10)];
      assert s[..|s| - 1] == front;
      assert width >= 2 && n < Pow10(width) ==> n / 10 < Pow10(width - 1);
      assert width <= 1 && |front| == 1 ==> front[0] != '0' by {
        if width <= 1 && |front| == 1 {
          assert front[..0] == [];
          assert Value(front) == DigitValue(front[0]);
        }
      }
      s
  }

  /** The decimal digits of `n` without padding, as Java writes an `int`. */
  function FromNat(n: nat): (s: string)
    ensures Canonical(s) && Value(s) == n
  {
    Padded(n, 1)
  }

  /** Digits whose value is zero are all zeros. */
  lemma {:induction false} ZeroValueIsAllZeros(s: string)
    requires AllDigits(s) && Value(s) == 0
    ensures forall i :: 0 <= i < |s| ==> s[i] == '0'
  {
    if |s| > 0 {
      ZeroValueIsAllZeros(s[..|s| - 1]);
      assert forall i :: 0 <= i < |s| - 1 ==> s[i] == s[..|s| - 1][i];
    }
  }

  /** Canonical decimal text is the only canonical way to write its number. */
  lemma {:induction false} CanonicalIsFromNat(s: string)
    requires Canonical(s)
    ensures s == FromNat(Value(s))
  {
    var n := Value(s);
    if |s| == 1 {
      assert s[..0] == [];
      assert DigitChar(DigitValue(s[0])) == s[0];
    } else {
      var front := s[..|s| - 1];
      assert front[0] == s[0];
      assert Value(front) != 0 by {
        if Value(front) == 0 {
          ZeroValueIsAllZeros(front);
        }
      }
      CanonicalIsFromNat(front);
      assert n / 10 == Value(front) && n % 10 == DigitValue(s[|s| - 1]);
      assert DigitChar(DigitValue(s[|s| - 1])) == s[|s| - 1];
      assert Padded(n / 10, 0) == Padded(n / 10, 1);
      assert s == front + [s[|s| - 1]];
    }
  }

  /** The length of the longest prefix of `s` made of digits. */
  function DigitRun(s: string): (k: nat)
    ensures k <= |s|
    ensures forall i :: 0 <= i < k ==> IsDigit(s[i])
    ensures k < |s| ==> !IsDigit(s[k])
  {
    if |s| == 0 || !IsDigit(s[0]) then 0 else 1 + DigitRun(s[1..])
  }

  /** A run of digits ends exactly where a non-digit (or the end) follows it. */
  lemma DigitRunOfPrefix(a: string, b: string)
    requires AllDigits(a)
    requires |b| == 0 || !IsDigit(b[0])
    ensures DigitRun(a + b) == |a|
  {
    var s := a + b;
    assert forall i :: 0 <= i < |a| ==> s[i] == a[i];
    assert |b| > 0 ==> s[|a|] == b[0];
  }
}
