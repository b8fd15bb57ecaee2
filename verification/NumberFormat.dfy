/**
 The text of a finite number, as section 6.1.6.1.20 of ECMA-262 lays it out.

 A number is the shortest digits that identify it and the place of the point.
 Which digits those are is decided by the language; no two numbers have the
 same ones. Minus zero prints as zero and is taken for it.
 */
module NumberFormat {
  import opened Wrappers
  import opened Characters
  import opened Decimal

  /** 0.d1 d2 ... dk times ten to the power `point`. */
  datatype Numeral = Numeral(negative: bool, digits: seq<Digit>, point: int)

  const ZERO: Numeral := Numeral(false, [0], 1)

  /** The digits neither begin nor end with a zero, except those of zero. */
  predicate Shortest(n: Numeral) {
    n == ZERO || (n.digits != [] && n.digits[0] != 0 && n.digits[|n.digits| - 1] != 0)
  }

  type Finite = n: Numeral | Shortest(n) witness ZERO

  const MINUS: CodeUnit := 45
  const PLUS: CodeUnit := 43
  const POINT: CodeUnit := 46
  const EXPONENT: CodeUnit := 101

  /** Most digits before the point of a number without an exponent, and most zeros after it. */
  const MAX_WHOLE: int := 21
  const MIN_POINT: int := -6

  function Zeros(n: nat): (ds: seq<Digit>)
    ensures |ds| == n && forall i :: 0 <= i < n ==> ds[i] == 0
  {
    seq(n, i => 0)
  }

  /** The parts of a printed number. */
  datatype Layout = Layout(whole: seq<Digit>, fraction: seq<Digit>, exponent: Option<int>)

  function LayoutOf(n: Finite): Layout {
    var k, p := |n.digits|, n.point;
    if k <= p <= MAX_WHOLE then Layout(n.digits + Zeros(p - k), [], None)
    else if 0 < p <= MAX_WHOLE then Layout(n.digits[..p], n.digits[p..], None)
    else if MIN_POINT < p <= 0 then Layout([0], Zeros(-p) + n.digits, None)
    else Layout(n.digits[..1], n.digits[1..], Some(p - 1))
  }

  function FractionText(fraction: seq<Digit>): Text {
    if fraction == [] then [] else [POINT] + DigitText(fraction)
  }

  function SignedText(e: int): Text {
    if e < 0 then [MINUS] + DigitText(Digits(-e)) else [PLUS] + DigitText(Digits(e))
  }

  function ExponentText(exponent: Option<int>): Text {
    match exponent
    case None => []
    case Some(e) => [EXPONENT] + SignedText(e)
  }

  function MagnitudeText(l: Layout): Text {
    DigitText(l.whole) + FractionText(l.fraction) + ExponentText(l.exponent)
  }

  function NumberText(n: Finite): Text {
    (if n.negative then [MINUS] else []) + MagnitudeText(LayoutOf(n))
  }

  // ---------------------------------------------------------------------
  // Reading it back
  // ---------------------------------------------------------------------

  predicate IsDigit(u: CodeUnit) {
    48 <= u <= 57
  }

  /** The position of the first `x`, or the length. */
  function IndexOf(t: Text, x: CodeUnit): (k: nat)
    ensures k <= |t| && (k < |t| ==> t[k] == x)
    ensures forall i :: 0 <= i < k ==> t[i] != x
  {
    if t == [] || t[0] == x then 0 else 1 + IndexOf(t[1..], x)
  }

  lemma {:induction false} IndexOfFirst(a: Text, x: CodeUnit, b: Text)
    requires x !in a
    ensures var t := a + ([x] + b);
      IndexOf(t, x) == |a| < |t| && t[..|a|] == a && t[|a| + 1..] == b
    ensures IndexOf(a, x) == |a| && a[..|a|] == a
  {
    var t := a + ([x] + b);
    assert t[|a|] == x;
    assert forall i :: 0 <= i < |a| ==> t[i] == a[i] && a[i] in a;
  }

  function DigitsIn(t: Text): (ds: seq<Digit>)
    ensures |ds| == |t| && forall i :: 0 <= i < |t| ==> ds[i] == if IsDigit(t[i]) then t[i] - 48 else 0
  {
    seq(|t|, i requires 0 <= i < |t| => if IsDigit(t[i]) then t[i] - 48 else 0)
  }

  function ReadSigned(t: Text): int {
    if t == [] then 0
    else if t[0] == MINUS then 0 - Value(DigitsIn(t[1..]))
    else Value(DigitsIn(t[1..]))
  }

  function ReadMantissa(t: Text, exponent: Option<int>): Layout {
    var dot := IndexOf(t, POINT);
    Layout(DigitsIn(t[..dot]), if dot == |t| then [] else DigitsIn(t[dot + 1..]), exponent)
  }

  function ReadMagnitude(t: Text): Layout {
    var e := IndexOf(t, EXPONENT);
    ReadMantissa(t[..e], if e == |t| then None else Some(ReadSigned(t[e + 1..])))
  }

  lemma {:induction false} DigitsInText(ds: seq<Digit>)
    ensures DigitsIn(DigitText(ds)) == ds
    ensures POINT !in DigitText(ds) && EXPONENT !in DigitText(ds)
  {
  }

  lemma {:induction false} ReadSignedText(e: int)
    ensures ReadSigned(SignedText(e)) == e
  {
    var n: nat := if e < 0 then -e else e;
    DigitsInText(Digits(n));
    ValueOfDigits(n);
    assert SignedText(e)[1..] == DigitText(Digits(n));
  }

  lemma {:induction false} ReadMantissaText(whole: seq<Digit>, fraction: seq<Digit>, exponent: Option<int>)
    ensures ReadMantissa(DigitText(whole) + FractionText(fraction), exponent) == Layout(whole, fraction, exponent)
  {
    DigitsInText(whole);
    DigitsInText(fraction);
    IndexOfFirst(DigitText(whole), POINT, DigitText(fraction));
    if fraction == [] {
      assert DigitText(whole) + [] == DigitText(whole);
    }
  }

  lemma {:induction false} MantissaUnits(whole: seq<Digit>, fraction: seq<Digit>)
    ensures EXPONENT !in DigitText(whole) + FractionText(fraction)
  {
    DigitsInText(whole);
    DigitsInText(fraction);
  }

  /** The parts of a printed number can be read from it. */
  lemma {:induction false} ReadMagnitudeText(l: Layout)
    ensures ReadMagnitude(MagnitudeText(l)) == l
  {
    var m := DigitText(l.whole) + FractionText(l.fraction);
    MantissaUnits(l.whole, l.fraction);
    match l.exponent
    case None =>
      IndexOfFirst(m, EXPONENT, []);
      assert m + [] == m;
      ReadMantissaText(l.whole, l.fraction, None);
    case Some(e) =>
      IndexOfFirst(m, EXPONENT, SignedText(e));
      ReadSignedText(e);
      ReadMantissaText(l.whole, l.fraction, Some(e));
  }

  // ---------------------------------------------------------------------
  // The number a layout stands for
  // ---------------------------------------------------------------------

  function LeadingZeros(ds: seq<Digit>): (n: nat)
    ensures n <= |ds|
  {
    if ds == [] || ds[0] != 0 then 0 else 1 + LeadingZeros(ds[1..])
  }

  function DropTrailing(ds: seq<Digit>): seq<Digit> {
    if ds == [] || ds[|ds| - 1] != 0 then ds else DropTrailing(ds[..|ds| - 1])
  }

  function NumeralOf(negative: bool, l: Layout): Numeral {
    var ds := l.whole + l.fraction;
    var zeros := LeadingZeros(ds);
    var exponent := l.exponent.GetOr(0);
    if zeros == |ds| then ZERO
    else Numeral(negative, DropTrailing(ds[zeros..]), |l.whole| + exponent - zeros)
  }

  lemma {:induction false} LeadingZerosOf(n: nat, ds: seq<Digit>)
    requires ds != [] && ds[0] != 0
    ensures LeadingZeros(Zeros(n) + ds) == n
    decreases n
  {
    if n == 0 {
      assert Zeros(0) + ds == ds;
    } else {
      assert (Zeros(n) + ds)[1..] == Zeros(n - 1) + ds;
      LeadingZerosOf(n - 1, ds);
    }
  }

  lemma {:induction false} DropTrailingOf(ds: seq<Digit>, n: nat)
    requires ds != [] && ds[|ds| - 1] != 0
    ensures DropTrailing(ds + Zeros(n)) == ds
    decreases n
  {
    if n == 0 {
      assert ds + Zeros(0) == ds;
    } else {
      var all := ds + Zeros(n);
      assert all[|all| - 1] == 0 && all[..|all| - 1] == ds + Zeros(n - 1);
      DropTrailingOf(ds, n - 1);
    }
  }

  lemma {:induction false} PaddedNumeral(n: Finite, l: Layout, before: nat, after: nat)
    requires n != ZERO && l.whole + l.fraction == Zeros(before) + (n.digits + Zeros(after))
    requires |l.whole| + l.exponent.GetOr(0) - before == n.point
    ensures NumeralOf(n.negative, l) == n
  {
    var ds := n.digits + Zeros(after);
    LeadingZerosOf(before, ds);
    assert (Zeros(before) + ds)[before..] == ds;
    DropTrailingOf(n.digits, after);
  }

  /** Laying a number out keeps its digits and the place of the point. */
  lemma {:induction false} LayoutKeeps(n: Finite)
    ensures NumeralOf(n.negative, LayoutOf(n)) == n
  {
    var k, p, l := |n.digits|, n.point, LayoutOf(n);
    if n == ZERO {
      assert LeadingZeros([0]) == 1 + LeadingZeros([0][1..]);
      assert l.whole + l.fraction == [0];
    } else if k <= p <= MAX_WHOLE {
      assert l.whole + l.fraction == Zeros(0) + (n.digits + Zeros(p - k));
      PaddedNumeral(n, l, 0, p - k);
    } else if MIN_POINT < p <= 0 {
      assert l.whole + l.fraction == Zeros(1 - p) + (n.digits + Zeros(0));
      PaddedNumeral(n, l, 1 - p, 0);
    } else {
      assert l.whole + l.fraction == Zeros(0) + (n.digits + Zeros(0));
      PaddedNumeral(n, l, 0, 0);
    }
  }

  lemma {:induction false} NumberHead(n: Finite)
    ensures NumberText(n) != []
    ensures if n.negative then NumberText(n)[0] == MINUS else IsDigit(NumberText(n)[0])
  {
    var l := LayoutOf(n);
    assert l.whole != [];
    assert MagnitudeText(l)[0] == DigitUnit(l.whole[0]);
  }

  /** Different numbers have different texts. */
  lemma {:induction false} NumberTextInjective(m: Finite, n: Finite)
    requires NumberText(m) == NumberText(n)
    ensures m == n
  {
    NumberHead(m);
    NumberHead(n);
    assert m.negative == n.negative;
    var s: Text := if m.negative then [MINUS] else [];
    assert NumberText(m)[|s|..] == MagnitudeText(LayoutOf(m)) && NumberText(n)[|s|..] == MagnitudeText(LayoutOf(n));
    ReadMagnitudeText(LayoutOf(m));
    ReadMagnitudeText(LayoutOf(n));
    LayoutKeeps(m);
    LayoutKeeps(n);
  }

  // ---------------------------------------------------------------------
  // Numerals and the numbers they denote
  // ---------------------------------------------------------------------

  /** Without a leading zero a numeral is the one its value has. */
  lemma {:induction false} DigitsOfValue(ds: seq<Digit>)
    requires ds != [] && ds[0] != 0
    ensures Value(ds) > 0 && Digits(Value(ds)) == ds
    decreases |ds|
  {
    var front, last := ds[..|ds| - 1], ds[|ds| - 1];
    if front == [] {
      assert Value(front) == 0 && ds == [last];
    } else {
      DigitsOfValue(front);
      assert Value(ds) / 10 == Value(front) && Value(ds) % 10 == last;
      assert ds == front + [last];
    }
  }

  lemma {:induction false} ValueShifted(ds: seq<Digit>, n: nat)
    ensures Value(ds + Zeros(n)) == Value(ds) * Pow10(n)
    decreases n
  {
    if n == 0 {
      assert ds + Zeros(0) == ds;
    } else {
      var all := ds + Zeros(n);
      assert all[..|all| - 1] == ds + Zeros(n - 1) && all[|all| - 1] == 0;
      ValueShifted(ds, n - 1);
      assert Value(ds) * (10 * Pow10(n - 1)) == 10 * (Value(ds) * Pow10(n - 1));
    }
  }

  /** The power of ten that scales the digits, read as an integer. */
  function Scale(n: Numeral): int {
    n.point - |n.digits|
  }

  /** Two numerals denote one number: equal when both are scaled to integers alike. */
  ghost predicate SameNumber(m: Numeral, n: Numeral) {
    && m.negative == n.negative
    && if Scale(m) >= Scale(n) then Value(m.digits) * Pow10(Scale(m) - Scale(n)) == Value(n.digits)
       else Value(m.digits) == Value(n.digits) * Pow10(Scale(n) - Scale(m))
  }

  lemma {:induction false} ScaledAlike(m: Finite, n: Finite)
    requires m != ZERO && n != ZERO && Scale(m) >= Scale(n)
    requires Value(m.digits) * Pow10(Scale(m) - Scale(n)) == Value(n.digits)
    ensures m.digits == n.digits && m.point == n.point
  {
    var j := Scale(m) - Scale(n);
    var ds := m.digits + Zeros(j);
    assert j > 0 ==> ds[|ds| - 1] == 0;
    ValueShifted(m.digits, j);
    DigitsOfValue(ds);
    DigitsOfValue(n.digits);
    assert j == 0 && ds == m.digits;
  }

  lemma {:induction false} OnlyZeroIsZero(n: Finite)
    requires n != ZERO
    ensures !SameNumber(ZERO, n) && !SameNumber(n, ZERO)
  {
    DigitsOfValue(n.digits);
    assert Value([0]) == 10 * Value([0][..0]) + 0;
    var j := if Scale(n) >= 0 then Scale(n) else -Scale(n);
    PowPositive(j);
    if Scale(n) > 0 {
      assert Value(n.digits) * Pow10(j) > 0;
    }
  }

  lemma {:induction false} PowPositive(k: nat)
    ensures Pow10(k) > 0
  {
    if k > 0 {
      PowPositive(k - 1);
    }
  }

  /** No two numerals denote one number. */
  lemma {:induction false} NumeralsDistinct(m: Finite, n: Finite)
    ensures SameNumber(m, n) <==> m == n
  {
    if m == ZERO || n == ZERO {
      if m != n {
        OnlyZeroIsZero(if m == ZERO then n else m);
      }
    } else if SameNumber(m, n) {
      if Scale(m) >= Scale(n) {
        ScaledAlike(m, n);
      } else {
        ScaledAlike(n, m);
      }
    }
  }

  lemma {:induction false} DigitsHead(n: nat)
    requires n > 0
    ensures Digits(n)[0] != 0
    decreases n
  {
    if n >= 10 {
      DigitsHead(n / 10);
    }
  }

  lemma {:induction false} DropTrailingSplits(ds: seq<Digit>)
    requires ds != [] && ds[0] != 0
    ensures var core := DropTrailing(ds);
      && core != [] && core[0] == ds[0] && core[|core| - 1] != 0 && |core| <= |ds|
      && ds == core + Zeros(|ds| - |core|)
    decreases |ds|
  {
    if ds[|ds| - 1] == 0 {
      DropTrailingSplits(ds[..|ds| - 1]);
      assert ds == ds[..|ds| - 1] + [0];
    }
  }

  function Magnitude(n: int): nat {
    if n < 0 then -n else n
  }

  /** The numeral of an integer. */
  function IntegerNumeral(n: int): Numeral {
    NumeralOf(n < 0, Layout(Digits(Magnitude(n)), [], None))
  }

  lemma {:induction false} IntegerIs(n: int)
    requires n != 0
    ensures var ds := Digits(Magnitude(n));
      && IntegerNumeral(n) == Numeral(n < 0, DropTrailing(ds), |ds|)
      && Shortest(IntegerNumeral(n))
  {
    var ds := Digits(Magnitude(n));
    DigitsHead(Magnitude(n));
    DropTrailingSplits(ds);
    assert ds + [] == ds && ds[0..] == ds;
  }

  /** An integer below 10^21 is printed as its decimal numeral, with no point and no exponent. */
  lemma {:induction false} IntegerText(n: int)
    requires Magnitude(n) < Pow10(MAX_WHOLE)
    ensures Shortest(IntegerNumeral(n))
    ensures NumberText(IntegerNumeral(n)) == (if n < 0 then [MINUS] else []) + DigitText(Digits(Magnitude(n)))
  {
    var ds := Digits(Magnitude(n));
    assert DigitText(ds) + [] + [] == DigitText(ds);
    if n == 0 {
      assert LeadingZeros([0]) == 1 + LeadingZeros([0][1..]);
      assert [0] + [] == [0] + Zeros(0) == [0];
    } else {
      IntegerIs(n);
      DigitsHead(Magnitude(n));
      DigitsLength(Magnitude(n), MAX_WHOLE);
      DropTrailingSplits(ds);
    }
  }

  // ---------------------------------------------------------------------
  // The form of the text
  // ---------------------------------------------------------------------

  /** A text in scientific or plain notation: a sign, digits, a point and digits, and an exponent. */
  function Notation(negative: bool, whole: seq<Digit>, fraction: seq<Digit>, exponent: Option<int>): Text {
    (if negative then [45] else [])
    + (DigitText(whole)
       + (if fraction == [] then [] else [46] + DigitText(fraction))
       + (match exponent
          case None => []
          case Some(e) => [101] + ([if e < 0 then 45 else 43] + DigitText(Digits(Magnitude(e))))))
  }

  /** The digits of the number with zeros around them, the point where it belongs. */
  ghost predicate SameDigits(n: Numeral, whole: seq<Digit>, fraction: seq<Digit>, exponent: Option<int>) {
    exists before: nat, after: nat ::
      && whole + fraction == Zeros(before) + (n.digits + Zeros(after))
      && |whole| + exponent.GetOr(0) - before == n.point
  }

  /** No digit more than needed: no leading zeros, no trailing ones after a point, one digit before an exponent. */
  predicate Tidy(whole: seq<Digit>, fraction: seq<Digit>, exponent: Option<int>) {
    && whole != [] && (whole[0] == 0 ==> |whole| == 1)
    && (fraction != [] ==> fraction[|fraction| - 1] != 0)
    && (exponent.Some? ==> |whole| == 1 && whole[0] != 0)
  }

  lemma {:induction false} ExponentNotation(exponent: Option<int>)
    ensures ExponentText(exponent) ==
      match exponent
      case None => []
      case Some(e) => [101] + ([if e < 0 then 45 else 43] + DigitText(Digits(Magnitude(e))))
  {
  }

  lemma {:induction false} TextForm(n: Finite)
    ensures var l := LayoutOf(n); NumberText(n) == Notation(n.negative, l.whole, l.fraction, l.exponent)
  {
    var l := LayoutOf(n);
    ExponentNotation(l.exponent);
  }

  lemma {:induction false} DigitsForm(n: Finite)
    ensures var l := LayoutOf(n); SameDigits(n, l.whole, l.fraction, l.exponent)
  {
    var k, p, l := |n.digits|, n.point, LayoutOf(n);
    var before, after := if -6 < p <= 0 then 1 - p else 0, if k <= p <= 21 then p - k else 0;
    assert l.whole + l.fraction == Zeros(before) + (n.digits + Zeros(after));
  }

  lemma {:induction false} TidyForm(n: Finite)
    ensures var l := LayoutOf(n); Tidy(l.whole, l.fraction, l.exponent)
    ensures LayoutOf(n).exponent.Some? <==> n.point > 21 || n.point <= -6
  {
    var l := LayoutOf(n);
    assert n.digits[|n.digits| - 1] == 0 ==> n == ZERO;
    assert l.fraction != [] ==> l.fraction[|l.fraction| - 1] == n.digits[|n.digits| - 1];
  }

  /**
   A number is printed with an exponent when it is 10^21 or more, or less than
   10^-6, and plainly otherwise; tidily in both cases.
   */
  lemma {:induction false} NumberForm(n: Finite) returns (whole: seq<Digit>, fraction: seq<Digit>,
    exponent: Option<int>)
    ensures NumberText(n) == Notation(n.negative, whole, fraction, exponent)
    ensures SameDigits(n, whole, fraction, exponent) && Tidy(whole, fraction, exponent)
    ensures exponent.Some? <==> n.point > 21 || n.point <= -6
  {
    var Layout(w, f, e) := LayoutOf(n);
    whole, fraction, exponent := w, f, e;
    TextForm(n);
    DigitsForm(n);
    TidyForm(n);
  }

  // ---------------------------------------------------------------------
  // Where a number ends
  // ---------------------------------------------------------------------

  predicate NumberUnit(u: CodeUnit) {
    IsDigit(u) || u == MINUS || u == PLUS || u == POINT || u == EXPONENT
  }

  /** Nothing that could lengthen a number. */
  ghost predicate EndsNumber(r: Text) {
    r == [] || !NumberUnit(r[0])
  }

  predicate AllNumberUnits(t: Text) {
    forall i :: 0 <= i < |t| ==> NumberUnit(t[i])
  }

  function RunLength(t: Text): nat {
    if t == [] || !NumberUnit(t[0]) then 0 else 1 + RunLength(t[1..])
  }

  lemma {:induction false} RunOf(t: Text, r: Text)
    requires AllNumberUnits(t) && EndsNumber(r)
    ensures RunLength(t + r) == |t|
    decreases |t|
  {
    if t == [] {
      assert t + r == r;
    } else {
      assert (t + r)[1..] == t[1..] + r;
      RunOf(t[1..], r);
    }
  }

  lemma {:induction false} DigitUnits(ds: seq<Digit>)
    ensures AllNumberUnits(DigitText(ds))
  {
  }

  lemma {:induction false} NumberUnits(n: Finite)
    ensures AllNumberUnits(NumberText(n))
  {
    var l := LayoutOf(n);
    DigitUnits(l.whole);
    DigitUnits(l.fraction);
    if l.exponent.Some? {
      var e := l.exponent.value;
      DigitUnits(Digits(if e < 0 then -e else e));
      assert AllNumberUnits(SignedText(e));
    }
  }

  /** A number ends in one place and stands for one number. */
  lemma {:induction false} NumberUnique(m: Finite, n: Finite, r: Text, q: Text)
    requires NumberText(m) + r == NumberText(n) + q && EndsNumber(r) && EndsNumber(q)
    ensures m == n && r == q
  {
    var s, t := NumberText(m), NumberText(n);
    NumberUnits(m);
    NumberUnits(n);
    RunOf(s, r);
    RunOf(t, q);
    assert s == (s + r)[..|s|] && t == (t + q)[..|t|];
    assert r == (s + r)[|s|..] && q == (t + q)[|t|..];
    NumberTextInjective(m, n);
  }
}
