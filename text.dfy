/**
 * Decimal rendering of integers, as Java's string concatenation and
 * `printf("%d")` produce it in the interpreter's and the resolver's messages.
 */
module Text {

  function DigitChar(d: nat): (c: char)
    requires d < 10
    ensures '0' <= c <= '9' && c as int - '0' as int == d
  {
    ('0' as int + d) as char
  }

  predicate AllDigits(s: string) {
    forall i | 0 <= i < |s| :: '0' <= s[i] <= '9'
  }

  /** Integer.toString of a non-negative value: digits, no leading zero. */
  function NatToString(n: nat): (s: string)
    ensures |s| > 0 && AllDigits(s)
    ensures s[0] == '0' ==> s == "0"
    decreases n
  {
    if n < 10 then [DigitChar(n)] else NatToString(n / 10) + [DigitChar(n % 10)]
  }

  /** The value a string of decimal digits denotes. */
  function DigitsValue(s: string): nat
    requires AllDigits(s)
  {
    if s == [] then 0
    else DigitsValue(s[..|s| - 1]) * 10 + (s[|s| - 1] as int - '0' as int)
  }

  /** Integer.toString of any int: a minus sign before the digits of a negative value. */
  function IntToString(i: int): (s: string)
    ensures i >= 0 ==> s == NatToString(i)
    ensures i < 0 ==> s == "-" + NatToString(-i)
  {
    if i < 0 then "-" + NatToString(-i) else NatToString(i)
  }

  /** The rendering loses nothing: reading the digits back gives the number. */
  lemma {:induction false} NatToStringRoundTrip(n: nat)
    ensures DigitsValue(NatToString(n)) == n
  {
    if n >= 10 {
      NatToStringRoundTrip(n / 10);
      var s := NatToString(n);
      assert s[..|s| - 1] == NatToString(n / 10);
    }
  }

  /** Distinct numbers render differently, so a message names its count unambiguously. */
  lemma NatToStringInjective(m: nat, n: nat)
    requires NatToString(m) == NatToString(n)
    ensures m == n
  {
    NatToStringRoundTrip(m);
    NatToStringRoundTrip(n);
  }

  /** A common prefix cancels. */
  lemma PrefixCancel(p: string, u: string, v: string)
    requires p + u == p + v
    ensures u == v
  {
    assert u == (p + u)[|p|..];
    assert v == (p + v)[|p|..];
  }

  /** The length of the run of digits that starts `u`. */
  function DigitRun(u: string): (n: nat)
    ensures n <= |u|
  {
    if u == [] || !('0' <= u[0] <= '9') then 0 else 1 + DigitRun(u[1..])
  }

  lemma {:induction false} DigitRunOf(x: string, s: string)
    requires AllDigits(x) && |s| > 0 && !('0' <= s[0] <= '9')
    ensures DigitRun(x + s) == |x|
  {
    if x != [] {
      assert (x + s)[1..] == x[1..] + s;
      DigitRunOf(x[1..], s);
    }
  }

  /**
   * Where a run of digits is followed by a non-digit, the split is forced: two
   * such texts are equal only if their digit runs and their tails are.
   */
  lemma DigitsPrefixUnique(x: string, s: string, y: string, t: string)
    requires AllDigits(x) && AllDigits(y)
    requires |s| > 0 && |t| > 0 && !('0' <= s[0] <= '9') && !('0' <= t[0] <= '9')
    requires x + s == y + t
    ensures x == y && s == t
  {
    DigitRunOf(x, s);
    DigitRunOf(y, t);
    assert x == (x + s)[..|x|];
    assert y == (y + t)[..|y|];
    assert s == (x + s)[|x|..];
    assert t == (y + t)[|y|..];
  }
}
