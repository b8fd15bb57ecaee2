/** The wire form of a signed transaction. */
module SignedWire {
  import opened Wrappers
  import opened Ordering
  import opened Characters
  import opened Bincode
  import opened Hex
  import opened Transaction
  import opened SignedTransactions

  /** normalizeHex: lower-case digits of a value of exactly this many bytes. */
  function NormalHex(value: Text, length: nat): Option<Text> {
    var bytes :- HexToBytes(value, length);
    Some(BytesToHex(bytes))
  }

  /** A hexadecimal field as it is written: normalized, then read once more. */
  function HexField(value: Text, length: nat): Option<Bytes> {
    var hex :- NormalHex(value, length);
    HexToBytes(hex, length)
  }

  /** Normalizing first changes nothing about the bytes. */
  lemma {:induction false} HexFieldReads(value: Text, length: nat)
    ensures HexField(value, length) == HexToBytes(value, length)
    ensures HexField(value, length).Some? ==> |HexField(value, length).value| == length
  {
    var bytes := HexToBytes(value, length);
    if bytes.Some? {
      HexToBytesRoundTrip(bytes.value);
    }
  }

  datatype WireSigned = WireSigned(transaction: WireTransaction, signature: Bytes, publicKey: Bytes, hash: Bytes)

  /** The normalized signed transaction, or None where serializing throws. */
  function NormalSigned(codes: Codes, s: Signed): (w: Option<WireSigned>)
    ensures w.Some? ==> Normalize(Sdk(codes), s.transaction) == Some(w.value.transaction)
  {
    var transaction :- Normalize(Sdk(codes), s.transaction);
    var signature :- HexToBytes(s.signature, 64);
    var publicKey :- HexToBytes(s.publicKey, 32);
    var hash :- HexToBytes(s.hash, 32);
    Some(WireSigned(transaction, signature, publicKey, hash))
  }

  ghost predicate SignedFits(w: WireSigned) {
    Fits(w.transaction) && |w.signature| == 64 && |w.publicKey| == |w.hash| == 32
  }

  function EncodeSigned(w: WireSigned): Bytes {
    Encode(w.transaction) + (w.signature + (w.publicKey + w.hash))
  }

  function DecodeSigned(input: Bytes): Option<(WireSigned, Bytes)> {
    var (transaction, r1) :- Decode(input);
    var (signature, r2) :- DecodeRaw(64, r1);
    var (publicKey, r3) :- DecodeRaw(32, r2);
    var (hash, r4) :- DecodeRaw(32, r3);
    Some((WireSigned(transaction, signature, publicKey, hash), r4))
  }

  /** A signed transaction reads back from its bytes, whatever follows. */
  lemma {:induction false} SignedRoundTrip(w: WireSigned, rest: Bytes)
    requires SignedFits(w)
    ensures DecodeSigned(EncodeSigned(w) + rest) == Some((w, rest))
  {
    var t := Encode(w.transaction);
    Regroup(w.publicKey, w.hash, rest);
    Regroup(w.signature, w.publicKey + w.hash, rest);
    Regroup(t, w.signature + (w.publicKey + w.hash), rest);
    WireRoundTrip(w.transaction, w.signature + (w.publicKey + (w.hash + rest)));
    RawRoundTrip(w.signature, w.publicKey + (w.hash + rest));
    RawRoundTrip(w.publicKey, w.hash + rest);
    RawRoundTrip(w.hash, rest);
  }

  lemma {:induction false} NormalSignedFits(codes: Codes, s: Signed)
    requires CodesOk(codes)
    requires NormalSigned(codes, s).Some?
    ensures SignedFits(NormalSigned(codes, s).value)
  {
    SdkSound(codes);
    NormalizeFits(Sdk(codes), s.transaction);
    HexFieldReads(s.signature, 64);
    HexFieldReads(s.publicKey, 32);
    HexFieldReads(s.hash, 32);
  }

  /** Two signed transactions that serialize have the same bytes exactly when all their normalized parts agree. */
  lemma {:induction false} SignedBytesDecide(codes: Codes, a: Signed, b: Signed)
    requires CodesOk(codes)
    requires NormalSigned(codes, a).Some? && NormalSigned(codes, b).Some?
    ensures EncodeSigned(NormalSigned(codes, a).value) == EncodeSigned(NormalSigned(codes, b).value)
        <==> NormalSigned(codes, a) == NormalSigned(codes, b)
  {
    var x, y := NormalSigned(codes, a).value, NormalSigned(codes, b).value;
    NormalSignedFits(codes, a);
    NormalSignedFits(codes, b);
    SignedRoundTrip(x, []);
    SignedRoundTrip(y, []);
    assert EncodeSigned(x) + [] == EncodeSigned(x) && EncodeSigned(y) + [] == EncodeSigned(y);
  }

  method WriteHex(writer: BincodeWriter, value: Text, length: nat) returns (ok: bool)
    modifies writer
    ensures ok <==> HexToBytes(value, length).Some?
    ensures ok ==> writer.Written() == old(writer.Written()) + HexToBytes(value, length).value
  {
    HexFieldReads(value, length);
    var bytes := HexField(value, length);
    ok := bytes.Some?;
    if ok {
      writer.WriteRaw(bytes.value);
    }
  }

  /** serializeSignedTransaction. */
  method SerializeSignedTransaction(codes: Codes, s: Signed) returns (r: Option<Bytes>)
    requires CodesOk(codes)
    ensures r.Some? <==> NormalSigned(codes, s).Some?
    ensures r.Some? ==> r.value == EncodeSigned(NormalSigned(codes, s).value)
    ensures r.Some? ==> DecodeSigned(r.value) == Some((NormalSigned(codes, s).value, []))
  {
    SdkSound(codes);
    var transaction := SerializeTransaction(Sdk(codes), s.transaction);
    if transaction.None? {
      return None;
    }
    var writer := new BincodeWriter();
    writer.WriteRaw(transaction.value);
    var ok := WriteHex(writer, s.signature, 64);
    if ok {
      ok := WriteHex(writer, s.publicKey, 32);
    }
    if ok {
      ok := WriteHex(writer, s.hash, 32);
    }
    if !ok {
      return None;
    }
    var out := writer.Finish();
    r := Some(out[..]);
    NormalSignedFits(codes, s);
    Assembled(NormalSigned(codes, s).value, r.value);
  }

  lemma {:induction false} Assembled(w: WireSigned, out: Bytes)
    requires SignedFits(w)
    requires out == [] + Encode(w.transaction) + w.signature + w.publicKey + w.hash
    ensures out == EncodeSigned(w) && DecodeSigned(out) == Some((w, []))
  {
    var t := Encode(w.transaction);
    assert [] + t == t;
    Regroup(t + w.signature, w.publicKey, w.hash);
    Regroup(t, w.signature, w.publicKey + w.hash);
    SignedRoundTrip(w, []);
    assert out + [] == out;
  }
}
