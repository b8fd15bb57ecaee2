/** Decimal numerals: printing, reading, and the round trip between them. */
module Decimal {
  import opened Wrappers
  import opened Ordering

  type Digit = d: int | 0 <= d < 10

  /** The numeral of `n`, most significant digit first, without leading zeros. */
  function Digits(n: nat): (ds: seq<Digit>)
    ensures ds != []
    decreases n
  {
    if n < 10 then [n] else Digits(n / 10) + [n % 10]
  }

  function Value(ds: seq<Digit>): nat {
    if ds == [] then 0 else 10 * Value(ds[..|ds| - 1]) + ds[|ds| - 1]
  }

  lemma {:induction false} ValueOfDigits(n: nat)
    ensures Value(Digits(n)) == n
    decreases n
  {
    if n >= 10 {
      ValueOfDigits(n / 10);
      assert Digits(n)[..|Digits(n)| - 1] == Digits(n / 10);
    }
  }

  function Pow10(k: nat): nat {
    if k == 0 then 1 else 10 * Pow10(k - 1)
  }

  lemma {:induction false} DigitsLength(n: nat, k: nat)
    requires k > 0 && n < Pow10(k)
    ensures |Digits(n)| <= k
    decreases k
  {
    if n >= 10 {
      assert k > 1;
      DigitsLength(n / 10, k - 1);
    }
  }

  // ---------------------------------------------------------------------
  // Digits as text
  // ---------------------------------------------------------------------

  function DigitUnit(d: Digit): Byte {
    48 + d as int
  }

  function DigitText(ds: seq<Digit>): (t: seq<Byte>)
    ensures |t| == |ds| && forall i :: 0 <= i < |ds| ==> t[i] == DigitUnit(ds[i])
  {
    seq(|ds|, i requires 0 <= i < |ds| => DigitUnit(ds[i]))
  }

  predicate IsDigitUnit(u: int) {
    48 <= u <= 57
  }

  /** The digits a text consists of, or None when something else is in it. */
  function ReadDigits(t: seq<int>): Option<seq<Digit>> {
    if t == [] then Some([])
    else if !IsDigitUnit(t[0]) then None
    else
      var rest :- ReadDigits(t[1..]);
      Some([(t[0] - 48) as Digit] + rest)
  }

  lemma {:induction false} ReadDigitText(ds: seq<Digit>)
    ensures ReadDigits(DigitText(ds)) == Some(ds)
    decreases |ds|
  {
    if ds != [] {
      assert DigitText(ds)[1..] == DigitText(ds[1..]);
      ReadDigitText(ds[1..]);
      assert ds == [ds[0]] + ds[1..];
    }
  }
}
