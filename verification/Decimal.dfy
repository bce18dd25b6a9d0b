/** Decimal numerals of 64-bit unsigned numbers: what a message id is written and read with. */
module Decimal {
  import opened Wrappers

  /** One more than the largest 64-bit unsigned number. */
  const LIMIT: nat := 0x1_0000_0000_0000_0000

  predicate IsDigit(c: char) { '0' <= c <= '9' }

  function DigitOf(d: nat): (c: char)
    requires d < 10
    ensures IsDigit(c) && ValueOf(c) == d
  {
    ('0' as int + d) as char
  }

  function ValueOf(c: char): nat
    requires IsDigit(c)
  {
    c as int - '0' as int
  }

  function FormatUint(n: nat): (s: string)
    ensures s != []
    ensures forall i :: 0 <= i < |s| ==> IsDigit(s[i])
  {
    if n < 10 then [DigitOf(n)] else FormatUint(n / 10) + [DigitOf(n % 10)]
  }

  function Value(s: string): nat
    requires forall i :: 0 <= i < |s| ==> IsDigit(s[i])
  {
    if s == [] then 0 else 10 * Value(s[..|s| - 1]) + ValueOf(s[|s| - 1])
  }

  /** Nothing for an empty text, for a character that is not a digit and for a number that needs more
      than 64 bits. */
  function ParseUint(s: string): Option<nat> {
    if s == [] || exists i :: 0 <= i < |s| && !IsDigit(s[i]) then None
    else if Value(s) >= LIMIT then None
    else Some(Value(s))
  }

  lemma {:induction false} ValueOfFormat(n: nat)
    ensures Value(FormatUint(n)) == n
  {
    if n >= 10 {
      ValueOfFormat(n / 10);
      var s := FormatUint(n);
      assert s[..|s| - 1] == FormatUint(n / 10);
    }
  }

  /** Reading back what was written gives the number, up to the width of the type and not beyond. */
  lemma ParseUndoesFormat(n: nat)
    ensures ParseUint(FormatUint(n)) == if n < LIMIT then Some(n) else None
  {
    ValueOfFormat(n);
  }

  /** The numeral is decimal: its last digit counts ones, and what is before it counts tens. */
  lemma NumeralIsDecimal(n: nat, d: nat)
    requires d < 10
    ensures FormatUint(d) == ["0123456789"[d]]
    ensures n > 0 ==> FormatUint(10 * n + d) == FormatUint(n) + ["0123456789"[d]]
  {
    assert "0123456789"[d] == DigitOf(d);
    assert (10 * n + d) / 10 == n && (10 * n + d) % 10 == d;
  }

  /** What is not a numeral is no number. */
  lemma NotANumeral(s: string, i: nat)
    requires s == [] || (i < |s| && !('0' <= s[i] <= '9'))
    ensures ParseUint(s) == None
  {
  }

  /** Two numbers written the same way are the same number. */
  lemma FormatIsInjective(m: nat, n: nat)
    requires FormatUint(m) == FormatUint(n)
    ensures m == n
  {
    ValueOfFormat(m);
    ValueOfFormat(n);
  }
}
