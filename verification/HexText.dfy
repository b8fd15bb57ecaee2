/** Hexadecimal text and addresses, digit by digit. */
module HexText {
  import opened Wrappers
  import opened Ordering
  import opened Characters
  import opened Hex

  const DIGITS: string := "0123456789abcdef"

  /** Two digits a byte, the high one first. */
  lemma {:induction false} HexSpelling(b: Bytes, i: nat)
    requires i < |b|
    ensures |BytesToHex(b)| == 2 * |b|
    ensures BytesToHex(b)[2 * i] == DIGITS[b[i] / 16] as int
    ensures BytesToHex(b)[2 * i + 1] == DIGITS[b[i] % 16] as int
    decreases |b|
  {
    if i > 0 {
      HexSpelling(b[1..], i - 1);
      assert BytesToHex(b)[2 * i] == BytesToHex(b[1..])[2 * (i - 1)];
      assert BytesToHex(b)[2 * i + 1] == BytesToHex(b[1..])[2 * (i - 1) + 1];
    } else {
      NibbleSpelling(b[0] / 16);
      NibbleSpelling(b[0] % 16);
    }
  }

  lemma {:induction false} NibbleSpelling(n: nat)
    requires n < 16
    ensures NibbleText(n) == DIGITS[n] as int
  {
  }

  lemma {:induction false} NibbleIff(u: CodeUnit, n: nat)
    requires n < 16
    ensures Nibble(u) == Some(n) <==> LowerUnit(u) == NibbleText(n)
  {
  }

  /** Text reads as bytes exactly when it is their digits, in either case of letters. */
  lemma {:induction false} HexBytesIff(t: Text, b: Bytes)
    ensures HexBytes(t) == Some(b) <==> Lower(t) == BytesToHex(b)
    decreases |t|
  {
    if |t| == 1 {
      assert |Lower(t)| == 1;
    } else if |t| > 1 && b != [] {
      var hi, lo := b[0] / 16, b[0] % 16;
      HexBytesIff(t[2..], b[1..]);
      NibbleIff(t[0], hi);
      NibbleIff(t[1], lo);
      assert Lower(t) == [LowerUnit(t[0]), LowerUnit(t[1])] + Lower(t[2..]);
      assert b == [b[0]] + b[1..];
      PairReads(t, b);
    }
  }

  lemma {:induction false} PairReads(t: Text, b: Bytes)
    requires |t| > 1 && b != []
    ensures HexBytes(t) == Some(b)
        <==> (Nibble(t[0]) == Some(b[0] / 16) && Nibble(t[1]) == Some(b[0] % 16) && HexBytes(t[2..]) == Some(b[1..]))
  {
    assert b == [b[0]] + b[1..];
    if HexBytes(t) == Some(b) {
      var hi, lo := Nibble(t[0]).value, Nibble(t[1]).value;
      var rest := HexBytes(t[2..]).value;
      assert b == [16 * hi + lo] + rest;
      assert b[0] == 16 * hi + lo && b[1..] == rest;
    }
  }

  /** One 0x or 0X is taken off. */
  lemma {:induction false} PrefixStripped(t: Text)
    ensures StripPrefix([48, 120] + t) == t && StripPrefix([48, 88] + t) == t
    ensures |t| < 2 || t[..2] !in {[48, 120], [48, 88]} ==> StripPrefix(t) == t
  {
    if |t| >= 2 {
      assert t[..2] == [t[0], t[1]];
    }
  }

  /** So does a value of a given length, after an optional 0x and trimming. */
  lemma {:induction false} HexValueIff(t: Text, length: nat, b: Bytes)
    ensures HexToBytes(t, length) == Some(b) <==> |b| == length && Lower(Trim(StripPrefix(t))) == BytesToHex(b)
  {
    HexBytesIff(Trim(StripPrefix(t)), b);
  }

  /** "zn1" in code units. */
  lemma {:induction false} PrefixIs()
    ensures PREFIX == [122, 110, 49]
  {
  }

  /** An address is the forty digits of its bytes, with or without "zn1", whatever the case and the space around it. */
  lemma {:induction false} AddressIff(a: Text, b: Bytes)
    ensures AddressBytes(a) == Some(b) <==>
      && |b| == 20
      && (Lower(Trim(a)) == BytesToHex(b) || Lower(Trim(a)) == [122, 110, 49] + BytesToHex(b))
  {
    var value := Lower(Trim(a));
    PrefixIs();
    AddressText(a);
    HexDigitsLower(b);
    if AddressBytes(a) == Some(b) {
      var raw := RawAddress(a).value;
      assert |value| >= 3 && value[..3] == PREFIX ==> value == PREFIX + raw;
    }
    if |b| == 20 && value == BytesToHex(b) {
      assert value[0] != 122;
      assert value[..3][0] == value[0];
      HexRoundTrip(b);
    }
    if |b| == 20 && value == [122, 110, 49] + BytesToHex(b) {
      assert value[..3] == PREFIX && value[3..] == BytesToHex(b);
      HexRoundTrip(b);
    }
  }

  /** Its normal form is "zn1" and the lower-case digits. */
  lemma {:induction false} NormalAddressIff(a: Text, t: Text)
    ensures NormalAddress(a) == Some(t)
        <==> AddressBytes(a).Some? && t == [122, 110, 49] + BytesToHex(AddressBytes(a).value)
  {
    PrefixIs();
    AddressText(a);
  }

  /** White space and line ends of ECMA-262, sections 12.2 and 12.3. */
  const SPACES: seq<int> := [
    9, 10, 11, 12, 13, 32, 0xA0, 0x1680, 0x2000, 0x2001, 0x2002, 0x2003, 0x2004, 0x2005, 0x2006, 0x2007,
    0x2008, 0x2009, 0x200A, 0x2028, 0x2029, 0x202F, 0x205F, 0x3000, 0xFEFF
  ]

  lemma {:induction false} SpaceIff(u: CodeUnit)
    ensures IsSpace(u) <==> u in SPACES
  {
  }

  ghost predicate AllSpace(t: Text) {
    forall i :: 0 <= i < |t| ==> IsSpace(t[i])
  }

  lemma {:induction false} TrimStartIs(t: Text) returns (a: Text)
    ensures AllSpace(a) && t == a + TrimStart(t)
    ensures TrimStart(t) != [] ==> !IsSpace(TrimStart(t)[0])
    decreases |t|
  {
    a := [];
    if t != [] && IsSpace(t[0]) {
      a := TrimStartIs(t[1..]);
      a := [t[0]] + a;
      assert t == [t[0]] + t[1..];
    }
  }

  lemma {:induction false} TrimEndIs(t: Text) returns (b: Text)
    ensures AllSpace(b) && t == TrimEnd(t) + b
    ensures TrimEnd(t) != [] ==> !IsSpace(TrimEnd(t)[|TrimEnd(t)| - 1]) && TrimEnd(t)[0] == t[0]
    decreases |t|
  {
    b := [];
    if t != [] && IsSpace(t[|t| - 1]) {
      var front := t[..|t| - 1];
      b := TrimEndIs(front);
      b := b + [t[|t| - 1]];
      assert t == front + [t[|t| - 1]];
    }
  }

  /** Trimming takes off the white space on both sides and nothing else. */
  lemma {:induction false} TrimIs(t: Text) returns (a: Text, b: Text)
    ensures t == a + Trim(t) + b && AllSpace(a) && AllSpace(b)
    ensures Trim(t) != [] ==> !IsSpace(Trim(t)[0]) && !IsSpace(Trim(t)[|Trim(t)| - 1])
  {
    a := TrimStartIs(t);
    b := TrimEndIs(TrimStart(t));
  }
}
