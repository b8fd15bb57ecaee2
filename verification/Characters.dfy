/** Text as numbers: ASCII bytes, UTF-16 code units, Unicode scalars and UTF-8. */
module Characters {
  import opened Wrappers
  import opened Ordering

  function CharByte(c: char): Byte
    requires c < 128 as char
  {
    c as int
  }

  function Ascii(s: string): (b: seq<Byte>)
    requires forall i :: 0 <= i < |s| ==> s[i] < 128 as char
    ensures |b| == |s| && forall i :: 0 <= i < |s| ==> b[i] == s[i] as int
  {
    seq(|s|, i requires 0 <= i < |s| => CharByte(s[i]))
  }

  // ---------------------------------------------------------------------
  // UTF-16
  // ---------------------------------------------------------------------

  type CodeUnit = u: int | 0 <= u < 0x10000
  type Text = seq<CodeUnit>

  predicate High(u: CodeUnit) {
    0xD800 <= u < 0xDC00
  }

  predicate Low(u: CodeUnit) {
    0xDC00 <= u < 0xE000
  }

  type Scalar = c: int | 0 <= c < 0xD800 || 0xE000 <= c < 0x110000

  const REPLACEMENT: Scalar := 0xFFFD

  /** The scalar values of a string; a lone surrogate becomes U+FFFD. */
  function Scalars(t: Text): seq<Scalar> {
    if t == [] then []
    else if |t| >= 2 && High(t[0]) && Low(t[1]) then
      [0x10000 + (t[0] - 0xD800) * 0x400 + (t[1] - 0xDC00)] + Scalars(t[2..])
    else [if High(t[0]) || Low(t[0]) then REPLACEMENT else t[0]] + Scalars(t[1..])
  }

  // ---------------------------------------------------------------------
  // UTF-8
  // ---------------------------------------------------------------------

  function Utf8Scalar(c: Scalar): seq<Byte> {
    if c < 0x80 then [c]
    else if c < 0x800 then [0xC0 + c / 64, 0x80 + c % 64]
    else if c < 0x10000 then [0xE0 + c / 4096, 0x80 + c / 64 % 64, 0x80 + c % 64]
    else [0xF0 + c / 262144, 0x80 + c / 4096 % 64, 0x80 + c / 64 % 64, 0x80 + c % 64]
  }

  function Utf8(s: seq<Scalar>): seq<Byte> {
    if s == [] then [] else Utf8Scalar(s[0]) + Utf8(s[1..])
  }

  /** How many bytes the first byte announces. */
  function SequenceLength(first: Byte): nat {
    if first < 0x80 then 1 else if first < 0xE0 then 2 else if first < 0xF0 then 3 else 4
  }

  /** The number the bytes of one scalar stand for. */
  function ScalarOf(b: seq<Byte>): int
    requires b != [] && |b| == SequenceLength(b[0])
  {
    if |b| == 1 then b[0]
    else if |b| == 2 then (b[0] as int - 0xC0) * 64 + (b[1] as int - 0x80)
    else if |b| == 3 then (b[0] as int - 0xE0) * 4096 + (b[1] as int - 0x80) * 64 + (b[2] as int - 0x80)
    else (b[0] as int - 0xF0) * 262144 + (b[1] as int - 0x80) * 4096 + (b[2] as int - 0x80) * 64 + (b[3] as int - 0x80)
  }

  /** Reads scalars; None when the bytes cannot be UTF-8 of anything. */
  function FromUtf8(b: seq<Byte>): Option<seq<Scalar>>
    decreases |b|
  {
    if b == [] then Some([])
    else
      var n := SequenceLength(b[0]);
      if n > |b| then None
      else
        var c := ScalarOf(b[..n]);
        if !(0 <= c < 0xD800 || 0xE000 <= c < 0x110000) then None
        else
          var rest :- FromUtf8(b[n..]);
          Some([c as Scalar] + rest)
  }

  lemma {:induction false} ScalarDigits(c: Scalar)
    ensures c == c / 64 * 64 + c % 64
    ensures c == c / 4096 * 4096 + c / 64 % 64 * 64 + c % 64
    ensures c == c / 262144 * 262144 + c / 4096 % 64 * 4096 + c / 64 % 64 * 64 + c % 64
  {
  }

  lemma {:induction false} ScalarRoundTrip(c: Scalar)
    ensures var b := Utf8Scalar(c); |b| == SequenceLength(b[0]) && ScalarOf(b) == c
  {
    ScalarDigits(c);
  }

  lemma {:induction false} Utf8RoundTrip(s: seq<Scalar>)
    ensures FromUtf8(Utf8(s)) == Some(s)
    decreases |s|
  {
    if s != [] {
      var b, rest := Utf8Scalar(s[0]), Utf8(s[1..]);
      ScalarRoundTrip(s[0]);
      assert (b + rest)[..|b|] == b && (b + rest)[|b|..] == rest && (b + rest)[0] == b[0];
      Utf8RoundTrip(s[1..]);
      assert s == [s[0]] + s[1..];
    }
  }

  /** One scalar of each length, written and read. */
  lemma {:induction false} Samples()
    ensures Utf8([0x41]) == [0x41] && Utf8([0xE9]) == [0xC3, 0xA9] && Utf8([0x20AC]) == [0xE2, 0x82, 0xAC]
    ensures Utf8([0x1F600]) == [0xF0, 0x9F, 0x98, 0x80]
    ensures Scalars([0xD83D, 0xDE00]) == [0x1F600] && Scalars([0xD83D]) == Scalars([0xDE00]) == [0xFFFD]
  {
    assert [0x41][1..] == [] && [0xE9][1..] == [] && [0x20AC][1..] == [] && [0x1F600][1..] == [];
    assert [0xD83D, 0xDE00][2..] == [] && [0xD83D][1..] == [] && [0xDE00][1..] == [];
  }
}
