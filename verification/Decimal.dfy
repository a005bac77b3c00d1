/** Decimal numbers as text: `str(n)`, `isdigit`, `int(…)`. Text is ASCII. */
module Decimal {
  import opened Wrappers
  import opened Bytes

  type Text = Data

  const ZERO: byte := 48

  /** A longer run of digits is one that Python's `int` refuses, and a number that has more is one that `str` does. */
  const MAX_DIGITS: nat := 4300

  datatype Raised = ValueError

  predicate IsDigit(c: byte) {
    ZERO <= c <= ZERO + 9
  }

  /** `text.isdigit()`, which is false of the empty string. */
  predicate IsDigits(text: Text) {
    text != [] && AllDigits(text)
  }

  predicate AllDigits(text: Text) {
    forall i | 0 <= i < |text| :: IsDigit(text[i])
  }

  /** `str(n)`. */
  function Show(n: nat): (text: Text)
    ensures IsDigits(text)
    decreases n
  {
    if n < 10 then [ZERO + n] else Show(n / 10) + [ZERO + n % 10]
  }

  /** `int(text)` of a string of digits. */
  function Value(text: Text): nat
    requires AllDigits(text)
  {
    if text == [] then 0
    else
      var c: int := text[|text| - 1];
      Value(text[..|text| - 1]) * 10 + (c - ZERO)
  }

  lemma {:induction false} ValueShow(n: nat)
    ensures Value(Show(n)) == n
    decreases n
  {
    if n >= 10 {
      ValueShow(n / 10);
      assert Show(n)[..|Show(n)| - 1] == Show(n / 10);
    } else {
      assert Show(n)[..0] == [];
    }
  }

  /** `int(text)` of a string of digits, with the exception. */
  function ParseDigits(text: Text): Result<nat, Raised>
    requires AllDigits(text)
  {
    if |text| > MAX_DIGITS then Err(ValueError) else Ok(Value(text))
  }

  /** `str(n)`, with the exception. */
  function Print(n: nat): Result<Text, Raised> {
    if |Show(n)| > MAX_DIGITS then Err(ValueError) else Ok(Show(n))
  }

  function Power10(k: nat): (p: nat)
    ensures p >= 1
  {
    if k == 0 then 1 else 10 * Power10(k - 1)
  }

  lemma {:induction false} Power10Sum(a: nat, b: nat)
    ensures Power10(a + b) == Power10(a) * Power10(b)
  {
    if a > 0 {
      Power10Sum(a - 1, b);
    }
  }

  /** A number prints in `k` digits or fewer exactly when it is below the `k`-th power of ten. */
  lemma {:induction false} ShowLength(n: nat, k: nat)
    requires k > 0
    ensures |Show(n)| <= k <==> n < Power10(k)
    decreases k
  {
    if n >= 10 {
      if k == 1 {
        assert Power10(1) == 10;
      } else {
        ShowLength(n / 10, k - 1);
        TenTimes(n, Power10(k - 1));
      }
    } else {
      assert Power10(k) == 10 * Power10(k - 1);
    }
  }

  lemma TenTimes(n: nat, p: nat)
    ensures n / 10 < p <==> n < 10 * p
  {
  }

  lemma {:induction false} ValueBelow(text: Text)
    requires AllDigits(text)
    ensures Value(text) < Power10(|text|)
  {
    if text != [] {
      ValueBelow(text[..|text| - 1]);
    }
  }

  /** A number no greater than one that was read can be printed. */
  lemma PrintsBelow(n: nat, text: Text)
    requires IsDigits(text) && |text| <= MAX_DIGITS && n <= Value(text)
    ensures Print(n) == Ok(Show(n))
  {
    hide Show, Value, Power10;
    ValueBelow(text);
    ShowLength(n, |text|);
  }

  /** Python's `text or default`. */
  function Or(text: Text, default: Text): Text {
    if text == [] then default else text
  }

  function Ascii(s: string): (text: Text)
    requires forall i | 0 <= i < |s| :: s[i] < 128 as char
    ensures |text| == |s|
  {
    seq(|s|, i requires 0 <= i < |s| => s[i] as int)
  }
}
