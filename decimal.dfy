/**
 * A model of the decimal parser the command line relies on for port
 * numbers (Java's `Integer.parseInt` with radix 10): an optional sign,
 * at least one ASCII digit, and a value that fits in a signed 32-bit int.
 */
module Decimal {
  import opened Wrappers

  const MIN_INT: int := -0x8000_0000
  const MAX_INT: int := 0x7fff_ffff

  predicate IsDigit(c: char)
  {
    '0' <= c <= '9'
  }

  predicate AllDigits(s: string)
  {
    forall i :: 0 <= i < |s| ==> IsDigit(s[i])
  }

  /** The value of a digit string, most significant digit first. */
  function DigitsValue(s: string): (n: nat)
    requires AllDigits(s)
  {
    if s == [] then 0
    else DigitsValue(s[..|s| - 1]) * 10 + (s[|s| - 1] as int - '0' as int)
  }

  /** The unsigned part of the text: everything after an optional leading sign. */
  function Magnitude(s: string): (r: string)
  {
    if |s| > 0 && (s[0] == '-' || s[0] == '+') then s[1..] else s
  }

  /** `Integer.parseInt(s)`: `None` stands for the NumberFormatException. */
  function ParseInt(s: string): (r: Option<int>)
    ensures r.Some? ==> MIN_INT <= r.value <= MAX_INT
    ensures r.Some? ==> Magnitude(s) != [] && AllDigits(Magnitude(s))
  {
    var body := Magnitude(s);
    if body == [] || !AllDigits(body) then None
    else
      var v: int := if s[0] == '-' then -(DigitsValue(body) as int) else DigitsValue(body);
      if MIN_INT <= v <= MAX_INT then Some(v) else None
  }

  /** The canonical decimal text of a natural number (no leading zeros). */
  function Digits(n: nat): (s: string)
    ensures s != [] && AllDigits(s)
  {
    if n < 10 then [('0' as int + n) as char]
    else Digits(n / 10) + [('0' as int + n % 10) as char]
  }

  /** The canonical decimal text of an integer, `-` for negatives. */
  function Show(i: int): (r: string)
  {
    if i < 0 then "-" + Digits(-i) else Digits(i)
  }

  lemma {:induction false} DigitsValueOfDigits(n: nat)
    ensures DigitsValue(Digits(n)) == n
  {
    var s := Digits(n);
    if n >= 10 {
      DigitsValueOfDigits(n / 10);
      assert s[..|s| - 1] == Digits(n / 10);
    }
  }

  /** Every 32-bit integer's decimal text parses back to it. */
  lemma ParseIntShow(i: int)
    requires MIN_INT <= i <= MAX_INT
    ensures ParseInt(Show(i)) == Some(i)
  {
    if i < 0 {
      var d := Digits(-i);
      assert Show(i) == "-" + d;
      assert Magnitude(Show(i)) == d;
      DigitsValueOfDigits(-i);
      assert DigitsValue(d) == -i;
    } else {
      var d := Digits(i);
      assert Show(i) == d;
      assert IsDigit(d[0]);
      assert Magnitude(d) == d;
      DigitsValueOfDigits(i);
      assert DigitsValue(d) == i;
    }
  }

  /** A magnitude beyond the 32-bit range is rejected: above 2147483647 without a
      sign or with `+`, above 2147483648 with `-`. */
  lemma ParseIntOverflow(n: nat)
    requires n > MAX_INT
    ensures ParseInt(Digits(n)) == None
    ensures ParseInt("+" + Digits(n)) == None
    ensures n > MAX_INT + 1 ==> ParseInt("-" + Digits(n)) == None
    ensures n == MAX_INT + 1 ==> ParseInt("-" + Digits(n)) == Some(MIN_INT)
  {
    DigitsValueOfDigits(n);
    assert Magnitude("-" + Digits(n)) == Digits(n);
    assert Magnitude("+" + Digits(n)) == Digits(n);
  }

  /** A character that is neither a digit nor a leading sign makes the text unparsable. */
  lemma ParseIntRejectsNonDigit(s: string, k: nat)
    requires k < |s| && !IsDigit(s[k])
    requires k == 0 ==> s[0] != '-' && s[0] != '+'
    ensures ParseInt(s) == None
  {
    var body := Magnitude(s);
    if k > 0 && body != s {
      assert body[k - 1] == s[k];
    } else {
      assert body[k] == s[k];
    }
  }

  /** Empty text and a lone sign carry no digits and are rejected. */
  lemma ParseIntRejectsNoDigits(s: string)
    requires s == [] || s == "-" || s == "+"
    ensures ParseInt(s) == None
  {
  }
}
