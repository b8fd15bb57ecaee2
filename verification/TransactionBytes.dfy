/** Where every field of a caller's transaction stands in its bytes, read off byte by byte. */
module TransactionBytes {
  import opened Wrappers
  import opened Ordering
  import opened Characters
  import opened Bincode
  import opened ByteNumbers
  import opened Numbers
  import opened Transaction
  import opened SignedTransactions
  import opened SignedWire
  import opened Hex

  // ---------------------------------------------------------------------
  // A transaction
  // ---------------------------------------------------------------------

  /** A number of the caller in the place of its eight bytes. */
  ghost predicate Holds8(b: Bytes, at: nat, v: Numeric) {
    at + 8 <= |b| && v == Integer(Number8(b[at..at + 8]))
  }

  lemma {:induction false} FieldHolds(b: Bytes, at: nat, v: Numeric)
    requires U64(v).Some? && at + 8 <= |b| && b[at..at + 8] == LE64(v.n)
    ensures Holds8(b, at, v)
  {
    EightBytes(v.n);
  }

  /** The bytes of a transaction in terms of what the caller wrote: 132 bytes of fields, then the data and the chain. */
  lemma {:induction false} FixedFields(p: Parsers, tx: Transaction)
    requires Sound(p) && Serialized(p, tx).Some?
    ensures var b := Serialized(p, tx).value;
      && |b| >= 132
      && p.code(tx.txType) == Some(Number4(b[..4]))
      && p.address(tx.sender) == Some(b[4..24])
      && p.address(tx.recipient) == Some(b[24..44])
      && Holds8(b, 44, tx.amount)
      && Holds8(b, 52, tx.fee)
      && Holds8(b, 60, tx.maxPriorityFeePerGas)
      && Holds8(b, 68, tx.nonce)
      && Holds8(b, 76, tx.timestamp)
      && Holds8(b, 84, tx.referenceBlockHeight)
      && p.hash(tx.referenceBlockHash) == Some(b[92..124])
      && Holds8(b, 124, tx.maxValidBlockHeight)
  {
    var w, b := Normalize(p, tx).value, Serialized(p, tx).value;
    NormalizeFits(p, tx);
    WireLayout(w);
    FourBytes(w.head.code);
    FieldHolds(b, 44, tx.amount);
    FieldHolds(b, 52, tx.fee);
    FieldHolds(b, 60, tx.maxPriorityFeePerGas);
    FieldHolds(b, 68, tx.nonce);
    FieldHolds(b, 76, tx.timestamp);
    FieldHolds(b, 84, tx.referenceBlockHeight);
    FieldHolds(b, 124, tx.maxValidBlockHeight);
  }

  /** From `at` on: two byte strings, each behind its length in eight bytes, and nothing more. */
  ghost predicate TwoStrings(b: Bytes, at: nat, x: Bytes, y: Bytes) {
    && |b| == at + 16 + |x| + |y|
    && Number8(b[at..at + 8]) == |x| && b[at + 8..at + 8 + |x|] == x
    && Number8(b[at + 8 + |x|..at + 16 + |x|]) == |y| && b[at + 16 + |x|..] == y
  }

  /** The data and the UTF-8 form of the chain identifier follow. */
  lemma {:induction false} LastFields(p: Parsers, tx: Transaction)
    requires Sound(p) && Serialized(p, tx).Some?
    ensures TwoStrings(Serialized(p, tx).value, 132, tx.data, Utf8(Scalars(tx.chainId)))
  {
    var w, b := Normalize(p, tx).value, Serialized(p, tx).value;
    NormalizeFits(p, tx);
    WireLayout(w);
    assert b == b[..132] + b[132..];
    TailFields(b[..132], tx.data, Utf8(Scalars(tx.chainId)));
  }

  lemma {:induction false} TailFields(front: Bytes, data: Bytes, chain: Bytes)
    requires |data| <= U64_MAX && |chain| <= U64_MAX
    ensures TwoStrings(front + (EncodeBytes(data) + EncodeBytes(chain)), |front|, data, chain)
  {
    var x, y := LittleEndian(|data|, 8), LittleEndian(|chain|, 8);
    EightBytes(|data|);
    EightBytes(|chain|);
    Regroup(x, data, y + chain);
    TailPlaces(front, x, data, y, chain);
  }

  lemma {:induction false} TailPlaces(front: Bytes, x: Bytes, d: Bytes, y: Bytes, c: Bytes)
    requires |x| == |y| == 8
    ensures var t, n := front + (x + (d + (y + c))), |front|;
      && |t| == n + 16 + |d| + |c|
      && t[n..n + 8] == x && t[n + 8..n + 8 + |d|] == d
      && t[n + 8 + |d|..n + 16 + |d|] == y && t[n + 16 + |d|..] == c
  {
  }

  /** Serializing throws exactly when a field is not what the format can hold. */
  lemma {:induction false} SerializesIff(p: Parsers, tx: Transaction)
    ensures Serialized(p, tx).Some? <==>
      && p.code(tx.txType).Some?
      && p.address(tx.sender).Some? && p.address(tx.recipient).Some? && p.hash(tx.referenceBlockHash).Some?
      && (forall v | v in {tx.amount, tx.fee, tx.maxPriorityFeePerGas, tx.nonce, tx.timestamp,
                           tx.referenceBlockHeight, tx.maxValidBlockHeight} ::
            v.Integer? && 0 <= v.n <= 0xFFFF_FFFF_FFFF_FFFF)
      && |tx.data| <= 0xFFFF_FFFF_FFFF_FFFF && |Utf8(Scalars(tx.chainId))| <= 0xFFFF_FFFF_FFFF_FFFF
  {
  }

  // ---------------------------------------------------------------------
  // A signed transaction
  // ---------------------------------------------------------------------

  ghost predicate FourParts(b: Bytes, t: Bytes, signature: Bytes, key: Bytes, hash: Bytes) {
    && |b| == |t| + 128
    && b[..|t|] == t
    && b[|t|..|t| + 64] == signature
    && b[|t| + 64..|t| + 96] == key
    && b[|t| + 96..] == hash
  }

  /** The bytes of the transaction, then the signature, the key and the hash. */
  lemma {:induction false} SignedFields(codes: Codes, s: Signed)
    requires CodesOk(codes) && NormalSigned(codes, s).Some?
    ensures Serialized(Sdk(codes), s.transaction).Some?
    ensures HexToBytes(s.signature, 64).Some? && HexToBytes(s.publicKey, 32).Some? && HexToBytes(s.hash, 32).Some?
    ensures FourParts(
      EncodeSigned(NormalSigned(codes, s).value), Serialized(Sdk(codes), s.transaction).value,
      HexToBytes(s.signature, 64).value, HexToBytes(s.publicKey, 32).value, HexToBytes(s.hash, 32).value)
  {
    var w := NormalSigned(codes, s).value;
    SignedParts(codes, s);
    NormalSignedFits(codes, s);
    SignedPlaces(Encode(w.transaction), w.signature, w.publicKey, w.hash);
  }

  lemma {:induction false} SignedParts(codes: Codes, s: Signed)
    requires NormalSigned(codes, s).Some?
    ensures var w := NormalSigned(codes, s).value;
      && HexToBytes(s.signature, 64) == Some(w.signature)
      && HexToBytes(s.publicKey, 32) == Some(w.publicKey)
      && HexToBytes(s.hash, 32) == Some(w.hash)
  {
  }

  lemma {:induction false} SignedPlaces(t: Bytes, signature: Bytes, key: Bytes, hash: Bytes)
    requires |signature| == 64 && |key| == |hash| == 32
    ensures FourParts(t + (signature + (key + hash)), t, signature, key, hash)
  {
  }
}
