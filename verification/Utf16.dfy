/** When a string of UTF-16 code units is the only one with its scalar values. */
module Utf16 {
  import opened Characters

  /** A surrogate that is not half of a pair. */
  ghost predicate Lone(t: Text, i: nat)
    requires i < |t|
  {
    || (High(t[i]) && !(i + 1 < |t| && Low(t[i + 1])))
    || (Low(t[i]) && !(i > 0 && High(t[i - 1])))
  }

  /** No lone surrogate and no replacement character. */
  ghost predicate Plain(t: Text) {
    forall i :: 0 <= i < |t| ==> !Lone(t, i) && t[i] != REPLACEMENT
  }

  /** The one or two code units of a scalar value. */
  function UnitsOf(c: Scalar): Text {
    if c < 0x10000 then [c] else [0xD800 + (c - 0x10000) / 0x400, 0xDC00 + (c - 0x10000) % 0x400]
  }

  function Units(s: seq<Scalar>): Text {
    if s == [] then [] else UnitsOf(s[0]) + Units(s[1..])
  }

  predicate StartsPair(t: Text) {
    |t| >= 2 && High(t[0]) && Low(t[1])
  }

  /** Scalar values without the replacement character spell one string. */
  lemma {:induction false} UnitsOfScalars(t: Text)
    requires REPLACEMENT !in Scalars(t)
    ensures Units(Scalars(t)) == t
    decreases |t|
  {
    if t != [] {
      var s, n := Scalars(t), if StartsPair(t) then 2 else 1;
      assert s[0] in s && s[1..] == Scalars(t[n..]);
      assert forall c :: c in s[1..] ==> c in s;
      UnitsOfScalars(t[n..]);
      assert UnitsOf(s[0]) == t[..n];
      assert t == t[..n] + t[n..];
    }
  }

  lemma {:induction false} PlainTail(t: Text, n: nat)
    requires Plain(t) && t != [] && n == if StartsPair(t) then 2 else 1
    ensures Plain(t[n..])
  {
    var u := t[n..];
    forall i | 0 <= i < |u|
      ensures !Lone(u, i) && u[i] != REPLACEMENT
    {
      assert u[i] == t[i + n] && !Lone(t, i + n);
      assert !Lone(t, 0);
    }
  }

  lemma {:induction false} PlainScalars(t: Text)
    requires Plain(t)
    ensures REPLACEMENT !in Scalars(t)
    decreases |t|
  {
    if t != [] {
      var n := if StartsPair(t) then 2 else 1;
      assert !Lone(t, 0) && t[0] != REPLACEMENT;
      PlainTail(t, n);
      PlainScalars(t[n..]);
    }
  }

  /** A unit that reads as the replacement character. */
  ghost predicate Replaced(t: Text, i: nat)
    requires i < |t|
  {
    t[i] == REPLACEMENT || Lone(t, i)
  }

  /** Any two such units may stand for each other. */
  lemma {:induction false} ReplacedAlike(t: Text, i: nat, x: CodeUnit)
    requires i < |t| && Replaced(t, i) && Replaced(t[i := x], i)
    ensures Scalars(t[i := x]) == Scalars(t)
    decreases |t|
  {
    var u := t[i := x];
    if i == 0 {
      assert u[1..] == t[1..];
    } else {
      var n := if StartsPair(t) then 2 else 1;
      assert StartsPair(u) <==> StartsPair(t);
      assert n <= i;
      assert u[n..] == t[n..][i - n := x];
      ReplacedAlike(t[n..], i - n, x);
    }
  }

  /** Another string with the same scalar values. */
  lemma {:induction false} Double(t: Text) returns (u: Text)
    requires !Plain(t)
    ensures u != t && Scalars(u) == Scalars(t)
  {
    var i := 0;
    if exists j :: 0 <= j < |t| && Lone(t, j) {
      i :| 0 <= i < |t| && Lone(t, i);
      u := t[i := REPLACEMENT];
    } else {
      i :| 0 <= i < |t| && t[i] == REPLACEMENT;
      u := t[i := 0xD800];
      assert i + 1 < |t| ==> !Lone(t, i + 1);
    }
    assert u[i] != t[i];
    ReplacedAlike(t, i, u[i]);
  }

  ghost predicate OnlyTextOf(t: Text) {
    forall u: Text :: Scalars(u) == Scalars(t) ==> u == t
  }

  /** A string is the only one with its scalar values if and only if it holds no lone surrogate and no U+FFFD. */
  lemma {:induction false} OnlyTextIff(t: Text)
    ensures OnlyTextOf(t) <==> Plain(t)
  {
    if Plain(t) {
      PlainScalars(t);
      forall u: Text | Scalars(u) == Scalars(t)
        ensures u == t
      {
        UnitsOfScalars(t);
        UnitsOfScalars(u);
      }
    } else {
      var u := Double(t);
    }
  }
}
