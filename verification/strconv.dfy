/** Decimal rendering of counters, as `strconv.Itoa` does for the in-memory
    stores' identifiers, and the numeric value of a decimal string. */
module Strconv {

  function DigitChar(d: nat): (c: char)
    requires d < 10
    ensures '0' <= c <= '9'
  {
    ('0' as int + d) as char
  }

  function DigitValue(c: char): int
  {
    c as int - '0' as int
  }

  /** The decimal representation of `n`: only digits, never empty, and no
      leading zero unless `n` is zero. */
  function Itoa(n: nat): (s: string)
    ensures |s| >= 1
    ensures forall i :: 0 <= i < |s| ==> '0' <= s[i] <= '9'
    ensures s[0] == '0' ==> n == 0
  {
    if n < 10 then [DigitChar(n)] else Itoa(n / 10) + [DigitChar(n % 10)]
  }

  /** The number a string of decimal digits denotes (most significant first). */
  function DecimalValue(s: string): int
  {
    if s == [] then 0 else 10 * DecimalValue(s[..|s| - 1]) + DigitValue(s[|s| - 1])
  }

  /** Reading back what `Itoa` wrote gives the original number. */
  lemma {:induction false} DecimalValueOfItoa(n: nat)
    ensures DecimalValue(Itoa(n)) == n
  {
    var s := Itoa(n);
    if n >= 10 {
      DecimalValueOfItoa(n / 10);
      assert s[..|s| - 1] == Itoa(n / 10);
    }
  }

  /** Distinct counters render as distinct identifiers. */
  lemma ItoaInjective(a: nat, b: nat)
    requires a != b
    ensures Itoa(a) != Itoa(b)
  {
    DecimalValueOfItoa(a);
    DecimalValueOfItoa(b);
  }
}
