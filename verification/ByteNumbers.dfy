/** The numbers that two, four and eight bytes spell, written out. */
module ByteNumbers {
  import opened Ordering
  import opened Bincode
  import opened Numbers

  function At(b: Bytes, i: nat): int
    requires i < |b|
  {
    b[i]
  }

  /** The number two bytes spell, lowest byte first. */
  function Number2(b: Bytes): int
    requires |b| == 2
  {
    At(b, 0) + 0x100 * At(b, 1)
  }

  /** The number four bytes spell, lowest byte first. */
  function Number4(b: Bytes): int
    requires |b| == 4
  {
    At(b, 0) + 0x100 * At(b, 1) + 0x1_0000 * At(b, 2) + 0x100_0000 * At(b, 3)
  }

  /** The number eight bytes spell, lowest byte first. */
  function Number8(b: Bytes): int
    requires |b| == 8
  {
    Number4(b[..4]) + 0x1_0000_0000 * Number4(b[4..])
  }

  lemma {:induction false} TwoMore(b: Bytes)
    requires |b| >= 2
    ensures FromLittleEndian(b) == At(b, 0) + 0x100 * At(b, 1) + 0x1_0000 * FromLittleEndian(b[2..])
  {
    assert b[1..][1..] == b[2..];
  }

  lemma {:induction false} TwoBytesSpell(b: Bytes)
    requires |b| == 2
    ensures FromLittleEndian(b) == Number2(b)
  {
    TwoMore(b);
  }

  lemma {:induction false} FourMore(b: Bytes)
    requires |b| >= 4
    ensures FromLittleEndian(b) == Number4(b[..4]) + 0x1_0000_0000 * FromLittleEndian(b[4..])
  {
    TwoMore(b);
    TwoMore(b[2..]);
    assert b[2..][2..] == b[4..];
  }

  lemma {:induction false} FourBytes(n: nat)
    requires n <= U32_MAX
    ensures |LittleEndian(n, 4)| == 4 && Number4(LittleEndian(n, 4)) == n
  {
    var b := LittleEndian(n, 4);
    Widths();
    FourMore(b);
    assert b[..4] == b;
    LittleEndianRoundTrip(n, 4);
  }

  lemma {:induction false} EightBytesSpell(b: Bytes)
    requires |b| == 8
    ensures FromLittleEndian(b) == Number8(b)
  {
    FourMore(b);
    FourMore(b[4..]);
    assert b[4..][..4] == b[4..];
  }

  /** A 64-bit number is written lowest byte first. */
  lemma {:induction false} EightBytes(n: nat)
    requires n <= U64_MAX
    ensures |LittleEndian(n, 8)| == 8 && Number8(LittleEndian(n, 8)) == n
  {
    Widths();
    EightBytesSpell(LittleEndian(n, 8));
    LittleEndianRoundTrip(n, 8);
  }
}
