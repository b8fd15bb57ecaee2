/** Hexadecimal text and addresses, as the SDK parses and prints them. */
module Hex {
  import opened Wrappers
  import opened Ordering
  import opened Characters

  /** White space that String.prototype.trim removes. */
  predicate IsSpace(u: CodeUnit) {
    9 <= u <= 13 || u == 32 || u == 0xA0 || u == 0x1680 || 0x2000 <= u <= 0x200A
    || u == 0x2028 || u == 0x2029 || u == 0x202F || u == 0x205F || u == 0x3000 || u == 0xFEFF
  }

  function TrimStart(t: Text): Text {
    if t != [] && IsSpace(t[0]) then TrimStart(t[1..]) else t
  }

  function TrimEnd(t: Text): Text {
    if t != [] && IsSpace(t[|t| - 1]) then TrimEnd(t[..|t| - 1]) else t
  }

  function Trim(t: Text): Text {
    TrimEnd(TrimStart(t))
  }

  /** Lower case; the letters outside ASCII never become hexadecimal digits, so they may stay. */
  function LowerUnit(u: CodeUnit): CodeUnit {
    if 65 <= u <= 90 then u + 32 else u
  }

  function Lower(t: Text): (r: Text)
    ensures |r| == |t| && forall i :: 0 <= i < |t| ==> r[i] == LowerUnit(t[i])
  {
    seq(|t|, i requires 0 <= i < |t| => LowerUnit(t[i]))
  }

  function Nibble(u: CodeUnit): (n: Option<nat>)
    ensures n.Some? ==> n.value < 16
  {
    if 48 <= u <= 57 then Some(u - 48)
    else if 97 <= u <= 102 then Some(u - 87)
    else if 65 <= u <= 70 then Some(u - 55)
    else None
  }

  function NibbleText(n: nat): CodeUnit
    requires n < 16
  {
    if n < 10 then 48 + n else 87 + n
  }

  /** Pairs of digits; None when the length is odd or a unit is no digit. */
  function HexBytes(t: Text): Option<seq<Byte>> {
    if t == [] then Some([])
    else if |t| == 1 then None
    else
      var hi :- Nibble(t[0]);
      var lo :- Nibble(t[1]);
      var rest :- HexBytes(t[2..]);
      Some([16 * hi + lo] + rest)
  }

  function BytesToHex(b: seq<Byte>): (t: Text)
    ensures |t| == 2 * |b|
  {
    if b == [] then [] else [NibbleText(b[0] / 16), NibbleText(b[0] % 16)] + BytesToHex(b[1..])
  }

  function StripPrefix(t: Text): Text {
    if |t| >= 2 && t[0] == 48 && (t[1] == 120 || t[1] == 88) then t[2..] else t
  }

  /** hexToBytes with an expected length: an optional 0x, then trimming. */
  function HexToBytes(t: Text, expected: nat): Option<seq<Byte>> {
    var bytes :- HexBytes(Trim(StripPrefix(t)));
    if |bytes| == expected then Some(bytes) else None
  }

  const PREFIX: Text := Ascii("zn1")

  predicate LowerHex(t: Text) {
    forall i :: 0 <= i < |t| ==> 48 <= t[i] <= 57 || 97 <= t[i] <= 102
  }

  /** rawAddressHex: trimmed, lower-cased, with or without the prefix, forty digits. */
  function RawAddress(address: Text): Option<Text> {
    var value := Lower(Trim(address));
    var raw := if |value| >= 3 && value[..3] == PREFIX then value[3..] else value;
    if |raw| == 40 && LowerHex(raw) then Some(raw) else None
  }

  /** The twenty bytes of an address. */
  function AddressBytes(address: Text): Option<seq<Byte>> {
    var raw :- RawAddress(address);
    HexBytes(raw)
  }

  function NormalAddress(address: Text): Option<Text> {
    var raw :- RawAddress(address);
    Some(PREFIX + raw)
  }

  function NormalHash(t: Text): Option<Text> {
    var bytes :- HexToBytes(t, 32);
    Some(BytesToHex(bytes))
  }

  // ---------------------------------------------------------------------
  // Facts
  // ---------------------------------------------------------------------

  lemma {:induction false} HexByte(b: Byte, rest: Text)
    requires HexBytes(rest).Some?
    ensures HexBytes([NibbleText(b / 16), NibbleText(b % 16)] + rest) == Some([b] + HexBytes(rest).value)
  {
  }

  lemma {:induction false} HexDigitsLower(b: seq<Byte>)
    ensures LowerHex(BytesToHex(b))
    decreases |b|
  {
    if b != [] {
      HexDigitsLower(b[1..]);
    }
  }

  lemma {:induction false} HexRoundTrip(b: seq<Byte>)
    ensures HexBytes(BytesToHex(b)) == Some(b)
    decreases |b|
  {
    if b != [] {
      HexRoundTrip(b[1..]);
      HexByte(b[0], BytesToHex(b[1..]));
      assert b == [b[0]] + b[1..];
    }
  }

  /** Lower-case digits are the print of the bytes they spell. */
  lemma {:induction false} HexOfLower(t: Text)
    requires LowerHex(t) && |t| % 2 == 0
    ensures HexBytes(t).Some? && |HexBytes(t).value| == |t| / 2 && BytesToHex(HexBytes(t).value) == t
    decreases |t|
  {
    if t != [] {
      HexOfLower(t[2..]);
      var hi, lo := Nibble(t[0]).value, Nibble(t[1]).value;
      var bytes := HexBytes(t).value;
      assert bytes[0] == 16 * hi + lo && bytes[1..] == HexBytes(t[2..]).value;
      assert bytes[0] / 16 == hi && bytes[0] % 16 == lo;
      assert t == [t[0], t[1]] + t[2..];
    }
  }

  lemma {:induction false} BytesToHexInjective(a: seq<Byte>, b: seq<Byte>)
    requires BytesToHex(a) == BytesToHex(b)
    ensures a == b
  {
    HexRoundTrip(a);
    HexRoundTrip(b);
  }

  lemma {:induction false} AddressText(a: Text)
    ensures AddressBytes(a).Some? <==> RawAddress(a).Some?
    ensures AddressBytes(a).Some? ==>
      |AddressBytes(a).value| == 20 && BytesToHex(AddressBytes(a).value) == RawAddress(a).value
  {
    var raw := RawAddress(a);
    if raw.Some? {
      HexOfLower(raw.value);
    }
  }

  lemma {:induction false} PrefixInjective(x: Text, y: Text)
    requires PREFIX + x == PREFIX + y
    ensures x == y
  {
    assert x == (PREFIX + x)[|PREFIX|..] && y == (PREFIX + y)[|PREFIX|..];
  }

  /** Addresses have the same bytes exactly when they normalize to the same text. */
  lemma {:induction false} AddressesAgree(a: Text, b: Text)
    requires AddressBytes(a).Some? && AddressBytes(b).Some?
    ensures NormalAddress(a).Some? && NormalAddress(b).Some?
    ensures AddressBytes(a) == AddressBytes(b) <==> NormalAddress(a) == NormalAddress(b)
  {
    AddressText(a);
    AddressText(b);
    var x, y := RawAddress(a).value, RawAddress(b).value;
    if PREFIX + x == PREFIX + y {
      PrefixInjective(x, y);
    }
  }

  lemma {:induction false} HashesAgree(a: Text, b: Text)
    requires HexToBytes(a, 32).Some? && HexToBytes(b, 32).Some?
    ensures HexToBytes(a, 32) == HexToBytes(b, 32) <==> NormalHash(a) == NormalHash(b)
  {
    if NormalHash(a) == NormalHash(b) {
      BytesToHexInjective(HexToBytes(a, 32).value, HexToBytes(b, 32).value);
    }
  }

  lemma {:induction false} NoTrim(t: Text)
    requires t != [] ==> !IsSpace(t[0]) && !IsSpace(t[|t| - 1])
    ensures Trim(t) == t
  {
  }

  lemma {:induction false} NoLower(t: Text)
    requires forall i :: 0 <= i < |t| ==> !(65 <= t[i] <= 90)
    ensures Lower(t) == t
  {
  }

  lemma {:induction false} PlainHex(t: Text)
    requires LowerHex(t)
    ensures Trim(StripPrefix(t)) == t
  {
  }

  /** Printed bytes read back, and are their own normal form. */
  lemma {:induction false} HexToBytesRoundTrip(b: seq<Byte>)
    ensures HexToBytes(BytesToHex(b), |b|) == Some(b)
  {
    var t := BytesToHex(b);
    HexRoundTrip(b);
    HexDigitsLower(b);
    PlainHex(t);
  }

  /** Normalizing is idempotent. */
  lemma {:induction false} NormalAddressIdempotent(a: Text)
    requires NormalAddress(a).Some?
    ensures NormalAddress(NormalAddress(a).value) == NormalAddress(a)
  {
    PrefixedReads(RawAddress(a).value);
  }

  lemma {:induction false} PrefixedReads(raw: Text)
    requires |raw| == 40 && LowerHex(raw)
    ensures RawAddress(PREFIX + raw) == Some(raw)
  {
    var n := PREFIX + raw;
    assert n[3..] == raw && n[..3] == PREFIX;
    NoTrim(n);
    NoLower(n);
  }
}
