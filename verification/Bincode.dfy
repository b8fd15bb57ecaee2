/**
 The bincode wire format: the writer the serializers drive, what it writes,
 and decoders that read it back.
 */
module Bincode {
  import opened Wrappers
  import opened Ordering
  import opened Characters
  import opened Numbers

  // ---------------------------------------------------------------------
  // Little-endian integers
  // ---------------------------------------------------------------------

  function Pow256(width: nat): nat {
    if width == 0 then 1 else 256 * Pow256(width - 1)
  }

  function LittleEndian(n: nat, width: nat): (b: Bytes)
    ensures |b| == width
  {
    if width == 0 then [] else [n % 256] + LittleEndian(n / 256, width - 1)
  }

  function FromLittleEndian(b: Bytes): nat {
    if b == [] then 0 else b[0] + 256 * FromLittleEndian(b[1..])
  }

  lemma {:induction false} LittleEndianRoundTrip(n: nat, width: nat)
    requires n < Pow256(width)
    ensures FromLittleEndian(LittleEndian(n, width)) == n
    decreases width
  {
    if width > 0 {
      assert n / 256 < Pow256(width - 1);
      LittleEndianRoundTrip(n / 256, width - 1);
      assert LittleEndian(n, width)[1..] == LittleEndian(n / 256, width - 1);
    }
  }

  lemma {:induction false} Widths()
    ensures Pow256(2) == U16_MAX + 1 && Pow256(4) == U32_MAX + 1 && Pow256(8) == U64_MAX + 1
  {
  }

  // ---------------------------------------------------------------------
  // Encoders and decoders
  // ---------------------------------------------------------------------

  /** A decoder takes a value off the front and returns the rest. */
  type Decoder<T> = Bytes -> Option<(T, Bytes)>

  type Encoder<!T> = T -> Bytes

  /** The decoder recovers `x` from its encoding whatever follows. */
  ghost predicate Recovers<T(!new)>(encode: Encoder<T>, decode: Decoder<T>, x: T) {
    forall rest: Bytes :: decode(encode(x) + rest) == Some((x, rest))
  }

  function DecodeRaw(width: nat, input: Bytes): Option<(Bytes, Bytes)> {
    if |input| < width then None else Some((input[..width], input[width..]))
  }

  function DecodeInteger(width: nat, input: Bytes): Option<(nat, Bytes)> {
    var (raw, rest) :- DecodeRaw(width, input);
    Some((FromLittleEndian(raw), rest))
  }

  /** A length and the bytes. */
  function EncodeBytes(b: Bytes): Bytes {
    LittleEndian(|b|, 8) + b
  }

  function DecodeBytes(input: Bytes): Option<(Bytes, Bytes)> {
    var (length, rest) :- DecodeInteger(8, input);
    DecodeRaw(length, rest)
  }

  function EncodeOption<T>(encode: Encoder<T>, x: Option<T>): Bytes {
    match x
    case None => [0]
    case Some(v) => [1] + encode(v)
  }

  function DecodeOption<T>(decode: Decoder<T>, input: Bytes): Option<(Option<T>, Bytes)> {
    if input == [] then None
    else if input[0] == 0 then Some((None, input[1..]))
    else if input[0] == 1 then
      var (v, rest) :- decode(input[1..]);
      Some((Some(v), rest))
    else None
  }

  function EncodeAll<T>(encode: Encoder<T>, xs: seq<T>): Bytes {
    if xs == [] then [] else encode(xs[0]) + EncodeAll(encode, xs[1..])
  }

  /** A count and each element. */
  function EncodeVec<T>(encode: Encoder<T>, xs: seq<T>): Bytes {
    LittleEndian(|xs|, 8) + EncodeAll(encode, xs)
  }

  function DecodeMany<T>(decode: Decoder<T>, count: nat, input: Bytes): Option<(seq<T>, Bytes)> {
    if count == 0 then Some(([], input))
    else
      var (x, rest) :- decode(input);
      var (xs, rest') :- DecodeMany(decode, count - 1, rest);
      Some(([x] + xs, rest'))
  }

  function DecodeVec<T>(decode: Decoder<T>, input: Bytes): Option<(seq<T>, Bytes)> {
    var (count, rest) :- DecodeInteger(8, input);
    DecodeMany(decode, count, rest)
  }

  // ---------------------------------------------------------------------
  // Round trips
  // ---------------------------------------------------------------------

  lemma {:induction false} Regroup(a: Bytes, b: Bytes, c: Bytes)
    ensures a + b + c == a + (b + c)
  {
  }

  lemma {:induction false} RawRoundTrip(b: Bytes, rest: Bytes)
    ensures DecodeRaw(|b|, b + rest) == Some((b, rest))
  {
  }

  lemma {:induction false} IntegerRoundTrip(n: nat, width: nat, rest: Bytes)
    requires n < Pow256(width)
    ensures DecodeInteger(width, LittleEndian(n, width) + rest) == Some((n, rest))
  {
    RawRoundTrip(LittleEndian(n, width), rest);
    LittleEndianRoundTrip(n, width);
  }

  lemma {:induction false} BytesRoundTrip(b: Bytes, rest: Bytes)
    requires |b| <= U64_MAX
    ensures DecodeBytes(EncodeBytes(b) + rest) == Some((b, rest))
  {
    Widths();
    Regroup(LittleEndian(|b|, 8), b, rest);
    IntegerRoundTrip(|b|, 8, b + rest);
    RawRoundTrip(b, rest);
  }

  lemma {:induction false} OptionRoundTrip<T(!new)>(encode: Encoder<T>, decode: Decoder<T>, x: Option<T>, rest: Bytes)
    requires x.Some? ==> Recovers(encode, decode, x.value)
    ensures DecodeOption(decode, EncodeOption(encode, x) + rest) == Some((x, rest))
  {
    var input := EncodeOption(encode, x) + rest;
    match x
    case None => assert input[1..] == rest;
    case Some(v) => assert input[1..] == encode(v) + rest;
  }

  lemma {:induction false} ManyRoundTrip<T(!new)>(encode: Encoder<T>, decode: Decoder<T>, xs: seq<T>, rest: Bytes)
    requires forall i :: 0 <= i < |xs| ==> Recovers(encode, decode, xs[i])
    ensures DecodeMany(decode, |xs|, EncodeAll(encode, xs) + rest) == Some((xs, rest))
    decreases |xs|
  {
    if xs == [] {
      assert EncodeAll(encode, xs) + rest == rest;
    } else {
      assert Recovers(encode, decode, xs[0]);
      ManyRoundTrip(encode, decode, xs[1..], rest);
      Regroup(encode(xs[0]), EncodeAll(encode, xs[1..]), rest);
      assert xs == [xs[0]] + xs[1..];
    }
  }

  lemma {:induction false} VecRoundTrip<T(!new)>(encode: Encoder<T>, decode: Decoder<T>, xs: seq<T>, rest: Bytes)
    requires |xs| <= U64_MAX
    requires forall i :: 0 <= i < |xs| ==> Recovers(encode, decode, xs[i])
    ensures DecodeVec(decode, EncodeVec(encode, xs) + rest) == Some((xs, rest))
  {
    Widths();
    Regroup(LittleEndian(|xs|, 8), EncodeAll(encode, xs), rest);
    IntegerRoundTrip(|xs|, 8, EncodeAll(encode, xs) + rest);
    ManyRoundTrip(encode, decode, xs, rest);
  }

  // ---------------------------------------------------------------------
  // The writer
  // ---------------------------------------------------------------------

  function Flatten(chunks: seq<Bytes>): Bytes {
    if chunks == [] then [] else Flatten(chunks[..|chunks| - 1]) + chunks[|chunks| - 1]
  }

  lemma {:induction false} FlattenSnoc(chunks: seq<Bytes>, chunk: Bytes)
    ensures Flatten(chunks + [chunk]) == Flatten(chunks) + chunk
  {
  }

  /** What an encoding callback writes into a writer, or that it throws. */
  type Callback<!T> = T -> Option<Bytes>

  /** The bytes a callback writes when it does not throw. */
  function Total<T>(encode: Callback<T>): Encoder<T> {
    x => encode(x).GetOr([])
  }

  class BincodeWriter {
    var chunks: seq<Bytes>

    /** All bytes written so far. */
    ghost function Written(): Bytes
      reads this
    {
      Flatten(chunks)
    }

    constructor ()
      ensures Written() == []
    {
      chunks := [];
    }

    method WriteRaw(value: Bytes)
      modifies this
      ensures Written() == old(Written()) + value
    {
      FlattenSnoc(chunks, value);
      chunks := chunks + [value];
    }

    /** writeU8, writeU16, writeU32 and writeU64. */
    method WriteInteger(value: Numeric, width: nat) returns (ok: bool)
      requires width in {1, 2, 4, 8}
      modifies this
      ensures ok <==> InRange(value, Pow256(width) - 1).Some?
      ensures Written() == if ok then old(Written()) + LittleEndian(value.n, width) else old(Written())
    {
      var n := InRange(value, Pow256(width) - 1);
      ok := n.Some?;
      if ok {
        WriteRaw(LittleEndian(n.value, width));
      }
    }

    method WriteBytes(value: Bytes) returns (ok: bool)
      modifies this
      ensures ok <==> |value| <= U64_MAX
      ensures Written() == if ok then old(Written()) + EncodeBytes(value) else old(Written())
    {
      Widths();
      ok := WriteInteger(Integer(|value|), 8);
      if ok {
        WriteRaw(value);
        Regroup(old(Written()), LittleEndian(|value|, 8), value);
      }
    }

    method WriteString(value: Text) returns (ok: bool)
      modifies this
      ensures ok <==> |Utf8(Scalars(value))| <= U64_MAX
      ensures ok ==> Written() == old(Written()) + EncodeBytes(Utf8(Scalars(value)))
    {
      ok := WriteBytes(Utf8(Scalars(value)));
    }

    method WriteOption<T>(value: Option<T>, encode: Callback<T>) returns (ok: bool)
      modifies this
      ensures ok <==> (value.Some? ==> encode(value.value).Some?)
      ensures ok ==> Written() == old(Written()) + (if value.None? then [0] else [1] + encode(value.value).value)
    {
      ok := true;
      match value {
        case None => WriteRaw([0]);
        case Some(v) =>
          WriteRaw([1]);
          var bytes := encode(v);
          ok := bytes.Some?;
          if ok {
            WriteRaw(bytes.value);
            Regroup(old(Written()), [1], bytes.value);
          }
      }
    }

    method WriteAll<T>(values: seq<T>, encode: Callback<T>) returns (ok: bool)
      modifies this
      ensures ok <==> forall i :: 0 <= i < |values| ==> encode(values[i]).Some?
      ensures ok ==> Written() == old(Written()) + EncodeAll(Total(encode), values)
    {
      ghost var start := Written();
      assert values[..0] == [] && start + [] == start;
      for i := 0 to |values|
        invariant forall j :: 0 <= j < i ==> encode(values[j]).Some?
        invariant Written() == start + EncodeAll(Total(encode), values[..i])
      {
        var bytes := encode(values[i]);
        if bytes.None? {
          return false;
        }
        WriteRaw(bytes.value);
        EncodeAllSnoc(Total(encode), values[..i], values[i]);
        assert values[..i + 1] == values[..i] + [values[i]];
        Regroup(start, EncodeAll(Total(encode), values[..i]), bytes.value);
      }
      assert values[..|values|] == values;
      ok := true;
    }

    method WriteVec<T>(values: seq<T>, encode: Callback<T>) returns (ok: bool)
      modifies this
      ensures ok <==> |values| <= U64_MAX && forall i :: 0 <= i < |values| ==> encode(values[i]).Some?
      ensures ok ==> Written() == old(Written()) + EncodeVec(Total(encode), values)
    {
      Widths();
      ok := WriteInteger(Integer(|values|), 8);
      if ok {
        ok := WriteAll(values, encode);
        Regroup(old(Written()), LittleEndian(|values|, 8), EncodeAll(Total(encode), values));
      }
    }

    method TotalLength() returns (total: nat)
      ensures total == |Written()|
    {
      total := 0;
      for k := 0 to |chunks|
        invariant total == |Flatten(chunks[..k])|
      {
        assert chunks[..k + 1] == chunks[..k] + [chunks[k]];
        FlattenSnoc(chunks[..k], chunks[k]);
        total := total + |chunks[k]|;
      }
      assert chunks[..|chunks|] == chunks;
    }

    /** Copies the chunks into one buffer at a moving offset. */
    method Finish() returns (out: array<Byte>)
      ensures fresh(out) && out[..] == Written()
    {
      var total := TotalLength();
      out := new Byte[total];
      var offset := 0;
      for k := 0 to |chunks|
        invariant offset == |Flatten(chunks[..k])| <= total
        invariant out[..offset] == Flatten(chunks[..k])
      {
        assert chunks[..k + 1] == chunks[..k] + [chunks[k]];
        FlattenSnoc(chunks[..k], chunks[k]);
        FlattenPrefix(chunks, k + 1);
        CopyAt(out, offset, chunks[k]);
        offset := offset + |chunks[k]|;
      }
      assert chunks[..|chunks|] == chunks && out[..total] == out[..];
    }
  }

  method CopyAt(out: array<Byte>, offset: nat, chunk: Bytes)
    requires offset + |chunk| <= out.Length
    modifies out
    ensures out[..offset + |chunk|] == old(out[..offset]) + chunk
  {
    forall i | 0 <= i < |chunk| {
      out[offset + i] := chunk[i];
    }
  }

  lemma {:induction false} FlattenPrefix(chunks: seq<Bytes>, k: nat)
    requires k <= |chunks|
    ensures |Flatten(chunks[..k])| <= |Flatten(chunks)|
    decreases |chunks|
  {
    if k < |chunks| {
      FlattenPrefix(chunks[..|chunks| - 1], k);
      assert chunks[..|chunks| - 1][..k] == chunks[..k];
    } else {
      assert chunks[..k] == chunks;
    }
  }

  lemma {:induction false} EncodeAllSnoc<T>(encode: Encoder<T>, xs: seq<T>, x: T)
    ensures EncodeAll(encode, xs + [x]) == EncodeAll(encode, xs) + encode(x)
    decreases |xs|
  {
    if xs == [] {
      assert [x][1..] == [] && EncodeAll(encode, []) == [];
    } else {
      assert (xs + [x])[0] == xs[0] && (xs + [x])[1..] == xs[1..] + [x];
      EncodeAllSnoc(encode, xs[1..], x);
      Regroup(encode(xs[0]), EncodeAll(encode, xs[1..]), encode(x));
    }
  }
}
