/**
 * Decimal rendering of integers, as `StringBuilder.append(int)`,
 * `append(long)` and string concatenation with a number produce it
 * (`Integer.toString` / `Long.toString`), with the parser that inverts it.
 */
module Decimal {
  import opened Wrappers
  import opened Jvm

  const MINUS: JChar := 45   // '-'
  const ZERO: JChar := 48    // '0'

  predicate IsDigit(c: JChar) { ZERO <= c <= ZERO + 9 }

  /** The digits of a non-negative number, most significant first, no leading zeros. */
  function Digits(n: nat): (r: JString)
    ensures |r| > 0
    ensures forall i | 0 <= i < |r| :: IsDigit(r[i])
    ensures |r| > 1 ==> r[0] != ZERO
  {
    if n < 10 then [ZERO + n] else Digits(n / 10) + [ZERO + n % 10]
  }

  /** `Long.toString(n)`: an optional minus sign, then the digits of |n|. */
  function Render(n: int): (r: JString)
    ensures |r| > 0
    ensures forall i | 0 <= i < |r| :: IsDigit(r[i]) || r[i] == MINUS
    ensures r[0] == MINUS <==> n < 0
  {
    if n < 0 then [MINUS] + Digits(-n) else Digits(n)
  }

  /** The value of a non-empty string of decimal digits. */
  function ParseDigits(s: JString): Option<nat>
  {
    if s == [] || !IsDigit(s[|s| - 1]) then None
    else if |s| == 1 then Some(s[0] - ZERO)
    else match ParseDigits(s[..|s| - 1])
      case None => None
      case Some(v) => Some(v * 10 + (s[|s| - 1] - ZERO))
  }

  /** Reads back a number written by `Render`. */
  function Parse(s: JString): Option<int>
  {
    if |s| > 0 && s[0] == MINUS then
      match ParseDigits(s[1..])
      case None => None
      case Some(v) => if v == 0 then None else Some(0 - v as int)
    else ParseDigits(s)
  }

  lemma {:induction false} DigitsRoundTrip(n: nat)
    ensures ParseDigits(Digits(n)) == Some(n)
  {
    if n >= 10 {
      DigitsRoundTrip(n / 10);
      var s := Digits(n);
      assert s[..|s| - 1] == Digits(n / 10);
    }
  }

  /** Rendering is injective: the number can be read back from its text. */
  lemma RenderRoundTrip(n: int)
    ensures Parse(Render(n)) == Some(n)
  {
    if n < 0 {
      DigitsRoundTrip(-n);
      assert Render(n)[1..] == Digits(-n);
    } else {
      DigitsRoundTrip(n);
    }
  }

  /** A rendered number never contains the log line's separators. */
  lemma RenderHasNoSeparators(n: int)
    ensures TAB !in Render(n) && LF !in Render(n)
  {
  }
}
