/**
 * Raw command-line tokens and their text.
 *
 * The game hands a script its arguments as a list of strings and numbers
 * (a numeric literal on the command line arrives as a number). The parser
 * only ever looks at a token's type, at whether its text starts with `-`,
 * and at its text, which is what `toString()` gives.
 */
module Tokens {

  /** One raw argument: a string, or an integer-valued number. */
  datatype Token = Str(s: string) | Num(n: int)

  predicate IsDigit(c: char) {
    '0' <= c <= '9'
  }

  predicate AllDigits(s: string) {
    forall i :: 0 <= i < |s| ==> IsDigit(s[i])
  }

  function DigitChar(d: nat): (c: char)
    requires d < 10
    ensures IsDigit(c) && c as int - '0' as int == d
  {
    "0123456789"[d]
  }

  /** Decimal text of a natural number, as JavaScript prints an integer. */
  function NatToString(n: nat): (s: string)
    ensures |s| >= 1 && AllDigits(s)
    ensures s[0] == '0' ==> n == 0
    decreases n
  {
    if n < 10 then [DigitChar(n)] else NatToString(n / 10) + [DigitChar(n % 10)]
  }

  /** The value of a string of decimal digits (the reading direction of NatToString). */
  function DecimalValue(s: string): nat
    requires AllDigits(s)
  {
    if s == [] then 0
    else DecimalValue(s[..|s| - 1]) * 10 + (s[|s| - 1] as int - '0' as int)
  }

  lemma {:induction false} DecimalRoundTrip(n: nat)
    ensures DecimalValue(NatToString(n)) == n
  {
    if n >= 10 {
      var s := NatToString(n);
      assert s[..|s| - 1] == NatToString(n / 10);
      DecimalRoundTrip(n / 10);
    }
  }

  /** Decimal text of an integer: a leading `-` exactly for negative values. */
  function IntToString(i: int): (s: string)
    ensures (|s| > 0 && s[0] == '-') <==> i < 0
  {
    if i < 0 then "-" + NatToString(-i) else NatToString(i)
  }

  /** `arg.toString()`: a string is its own text, a number its decimal text. */
  function Text(t: Token): string {
    match t
    case Str(s) => s
    case Num(n) => IntToString(n)
  }

  /**
   * The classification test: a number is never a flag, whatever its text;
   * a string is one exactly when it starts with `-`.
   */
  predicate IsFlagToken(t: Token) {
    t.Str? && "-" <= t.s
  }

  /** A negative number prints with a leading `-`, yet it is still not a flag token. */
  lemma NegativeNumberIsNotFlag(n: int)
    requires n < 0
    ensures Text(Num(n))[0] == '-' && !IsFlagToken(Num(n))
  {
  }
}
