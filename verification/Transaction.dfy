/**
 The transaction wire format. Reading addresses, hashes and type names is a
 parameter here; `SignedTransactions` plugs in the SDK's own parsers.
 */
module Transaction {
  import opened Wrappers
  import opened Ordering
  import opened Characters
  import opened Bincode
  import opened Numbers
  import opened Utf16

  /** A transaction as callers write it. */
  datatype Transaction = Transaction(
    txType: string,
    sender: Text,
    recipient: Text,
    amount: Numeric,
    fee: Numeric,
    maxPriorityFeePerGas: Numeric,
    nonce: Numeric,
    timestamp: Numeric,
    referenceBlockHeight: Numeric,
    referenceBlockHash: Text,
    maxValidBlockHeight: Numeric,
    data: Bytes,
    chainId: Text
  )

  /** The table of wire codes. */
  type Codes = string -> Option<nat>

  /** Codes fit 32 bits and tell the type. */
  ghost predicate CodesOk(codes: Codes) {
    && (forall s :: codes(s).Some? ==> codes(s).value <= U32_MAX)
    && (forall s, t :: codes(s).Some? && codes(s) == codes(t) ==> s == t)
  }

  /** How the text fields are read. */
  datatype Parsers = Parsers(
    code: Codes,
    address: Text -> Option<Bytes>,
    hash: Text -> Option<Bytes>
  )

  /** Codes are good, addresses have 20 bytes and hashes 32. */
  ghost predicate Sound(p: Parsers) {
    && CodesOk(p.code)
    && (forall a :: p.address(a).Some? ==> |p.address(a).value| == 20)
    && (forall a :: p.hash(a).Some? ==> |p.hash(a).value| == 32)
  }

  // ---------------------------------------------------------------------
  // Normalized transactions, in three groups of fields
  // ---------------------------------------------------------------------

  datatype Head = Head(code: nat, sender: Bytes, recipient: Bytes, amount: nat, fee: nat)
  datatype Middle = Middle(maxPriorityFeePerGas: nat, nonce: nat, timestamp: nat, referenceBlockHeight: nat)
  datatype Tail = Tail(referenceBlockHash: Bytes, maxValidBlockHeight: nat, data: Bytes, chainId: seq<Scalar>)

  /** Every field in its one canonical form. */
  datatype WireTransaction = WireTransaction(head: Head, middle: Middle, tail: Tail)

  function U64(v: Numeric): Option<nat> {
    InRange(v, U64_MAX)
  }

  function NormalHead(
    p: Parsers, txType: string, sender: Text, recipient: Text, amount: Numeric, fee: Numeric): Option<Head> {
    var code :- p.code(txType);
    var sender' :- p.address(sender);
    var recipient' :- p.address(recipient);
    var amount' :- U64(amount);
    var fee' :- U64(fee);
    Some(Head(code, sender', recipient', amount', fee'))
  }

  function NormalMiddle(priority: Numeric, nonce: Numeric, timestamp: Numeric, height: Numeric): Option<Middle> {
    var priority' :- U64(priority);
    var nonce' :- U64(nonce);
    var timestamp' :- U64(timestamp);
    var height' :- U64(height);
    Some(Middle(priority', nonce', timestamp', height'))
  }

  function NormalTail(p: Parsers, hash: Text, maxValid: Numeric, data: Bytes, chainId: Text): Option<Tail> {
    var hash' :- p.hash(hash);
    var maxValid' :- U64(maxValid);
    if |data| > U64_MAX || |Utf8(Scalars(chainId))| > U64_MAX then None
    else Some(Tail(hash', maxValid', data, Scalars(chainId)))
  }

  /** The normalized transaction, or None where serializing throws. */
  function Normalize(p: Parsers, tx: Transaction): Option<WireTransaction> {
    var head :- NormalHead(p, tx.txType, tx.sender, tx.recipient, tx.amount, tx.fee);
    var middle :- NormalMiddle(tx.maxPriorityFeePerGas, tx.nonce, tx.timestamp, tx.referenceBlockHeight);
    var tail :- NormalTail(p, tx.referenceBlockHash, tx.maxValidBlockHeight, tx.data, tx.chainId);
    Some(WireTransaction(head, middle, tail))
  }

  /** The values that fit the wire format. */
  ghost predicate HeadFits(h: Head) {
    h.code <= U32_MAX && |h.sender| == |h.recipient| == 20 && h.amount <= U64_MAX && h.fee <= U64_MAX
  }

  ghost predicate MiddleFits(m: Middle) {
    m.maxPriorityFeePerGas <= U64_MAX && m.nonce <= U64_MAX && m.timestamp <= U64_MAX
      && m.referenceBlockHeight <= U64_MAX
  }

  ghost predicate TailFits(t: Tail) {
    |t.referenceBlockHash| == 32 && t.maxValidBlockHeight <= U64_MAX && |t.data| <= U64_MAX
      && |Utf8(t.chainId)| <= U64_MAX
  }

  ghost predicate Fits(w: WireTransaction) {
    HeadFits(w.head) && MiddleFits(w.middle) && TailFits(w.tail)
  }

  lemma {:induction false} NormalizeFits(p: Parsers, tx: Transaction)
    requires Sound(p)
    ensures Normalize(p, tx).Some? ==> Fits(Normalize(p, tx).value)
  {
  }

  // ---------------------------------------------------------------------
  // The wire format
  // ---------------------------------------------------------------------

  function LE64(n: nat): Bytes {
    LittleEndian(n, 8)
  }

  function EncodeHead(h: Head): Bytes {
    LittleEndian(h.code, 4) + (h.sender + (h.recipient + (LE64(h.amount) + LE64(h.fee))))
  }

  function EncodeMiddle(m: Middle): Bytes {
    LE64(m.maxPriorityFeePerGas) + (LE64(m.nonce) + (LE64(m.timestamp) + LE64(m.referenceBlockHeight)))
  }

  function EncodeTail(t: Tail): Bytes {
    t.referenceBlockHash + (LE64(t.maxValidBlockHeight) + (EncodeBytes(t.data) + EncodeBytes(Utf8(t.chainId))))
  }

  function Encode(w: WireTransaction): Bytes {
    EncodeHead(w.head) + (EncodeMiddle(w.middle) + EncodeTail(w.tail))
  }

  function DecodeHead(input: Bytes): Option<(Head, Bytes)> {
    var (code, r1) :- DecodeInteger(4, input);
    var (sender, r2) :- DecodeRaw(20, r1);
    var (recipient, r3) :- DecodeRaw(20, r2);
    var (amount, r4) :- DecodeInteger(8, r3);
    var (fee, r5) :- DecodeInteger(8, r4);
    Some((Head(code, sender, recipient, amount, fee), r5))
  }

  function DecodeMiddle(input: Bytes): Option<(Middle, Bytes)> {
    var (priority, r1) :- DecodeInteger(8, input);
    var (nonce, r2) :- DecodeInteger(8, r1);
    var (timestamp, r3) :- DecodeInteger(8, r2);
    var (height, r4) :- DecodeInteger(8, r3);
    Some((Middle(priority, nonce, timestamp, height), r4))
  }

  function DecodeTail(input: Bytes): Option<(Tail, Bytes)> {
    var (hash, r1) :- DecodeRaw(32, input);
    var (maxValid, r2) :- DecodeInteger(8, r1);
    var (data, r3) :- DecodeBytes(r2);
    var (utf8, r4) :- DecodeBytes(r3);
    var chainId :- FromUtf8(utf8);
    Some((Tail(hash, maxValid, data, chainId), r4))
  }

  /** Reads one transaction off the front. */
  function Decode(input: Bytes): Option<(WireTransaction, Bytes)> {
    var (head, r1) :- DecodeHead(input);
    var (middle, r2) :- DecodeMiddle(r1);
    var (tail, r3) :- DecodeTail(r2);
    Some((WireTransaction(head, middle, tail), r3))
  }

  lemma {:induction false} U64RoundTrip(n: nat, rest: Bytes)
    requires n <= U64_MAX
    ensures DecodeInteger(8, LE64(n) + rest) == Some((n, rest))
  {
    Widths();
    IntegerRoundTrip(n, 8, rest);
  }

  lemma {:induction false} HeadRoundTrip(h: Head, rest: Bytes)
    requires HeadFits(h)
    ensures DecodeHead(EncodeHead(h) + rest) == Some((h, rest))
  {
    var code, a, f := LittleEndian(h.code, 4), LE64(h.amount), LE64(h.fee);
    Widths();
    Regroup(a, f, rest);
    Regroup(h.recipient, a + f, rest);
    Regroup(h.sender, h.recipient + (a + f), rest);
    Regroup(code, h.sender + (h.recipient + (a + f)), rest);
    IntegerRoundTrip(h.code, 4, h.sender + (h.recipient + (a + (f + rest))));
    RawRoundTrip(h.sender, h.recipient + (a + (f + rest)));
    RawRoundTrip(h.recipient, a + (f + rest));
    U64RoundTrip(h.amount, f + rest);
    U64RoundTrip(h.fee, rest);
  }

  lemma {:induction false} MiddleRoundTrip(m: Middle, rest: Bytes)
    requires MiddleFits(m)
    ensures DecodeMiddle(EncodeMiddle(m) + rest) == Some((m, rest))
  {
    var a, b, c, d := LE64(m.maxPriorityFeePerGas), LE64(m.nonce), LE64(m.timestamp), LE64(m.referenceBlockHeight);
    Regroup(c, d, rest);
    Regroup(b, c + d, rest);
    Regroup(a, b + (c + d), rest);
    U64RoundTrip(m.maxPriorityFeePerGas, b + (c + (d + rest)));
    U64RoundTrip(m.nonce, c + (d + rest));
    U64RoundTrip(m.timestamp, d + rest);
    U64RoundTrip(m.referenceBlockHeight, rest);
  }

  lemma {:induction false} TailRoundTrip(t: Tail, rest: Bytes)
    requires TailFits(t)
    ensures DecodeTail(EncodeTail(t) + rest) == Some((t, rest))
  {
    var b, c, d := LE64(t.maxValidBlockHeight), EncodeBytes(t.data), EncodeBytes(Utf8(t.chainId));
    Regroup(c, d, rest);
    Regroup(b, c + d, rest);
    Regroup(t.referenceBlockHash, b + (c + d), rest);
    RawRoundTrip(t.referenceBlockHash, b + (c + (d + rest)));
    U64RoundTrip(t.maxValidBlockHeight, c + (d + rest));
    BytesRoundTrip(t.data, d + rest);
    BytesRoundTrip(Utf8(t.chainId), rest);
    Utf8RoundTrip(t.chainId);
  }

  /** The wire format is uniquely decodable, whatever follows. */
  lemma {:induction false} WireRoundTrip(w: WireTransaction, rest: Bytes)
    requires Fits(w)
    ensures Decode(Encode(w) + rest) == Some((w, rest))
  {
    var h, m, t := EncodeHead(w.head), EncodeMiddle(w.middle), EncodeTail(w.tail);
    Regroup(m, t, rest);
    Regroup(h, m + t, rest);
    HeadRoundTrip(w.head, m + (t + rest));
    MiddleRoundTrip(w.middle, t + rest);
    TailRoundTrip(w.tail, rest);
  }

  lemma {:induction false} HeadLayout(h: Head)
    requires HeadFits(h)
    ensures var b := EncodeHead(h);
      && |b| == 60
      && b[..4] == LittleEndian(h.code, 4)
      && b[4..24] == h.sender && b[24..44] == h.recipient
      && b[44..52] == LE64(h.amount) && b[52..60] == LE64(h.fee)
  {
  }

  lemma {:induction false} MiddleLayout(m: Middle)
    ensures var b := EncodeMiddle(m);
      && |b| == 32
      && b[..8] == LE64(m.maxPriorityFeePerGas) && b[8..16] == LE64(m.nonce)
      && b[16..24] == LE64(m.timestamp) && b[24..32] == LE64(m.referenceBlockHeight)
  {
  }

  /** Where every field of a transaction stands in its bytes. */
  lemma {:induction false} WireLayout(w: WireTransaction)
    requires Fits(w)
    ensures var b := Encode(w);
      && |b| >= 132
      && b[..4] == LittleEndian(w.head.code, 4)
      && b[4..24] == w.head.sender && b[24..44] == w.head.recipient
      && b[44..52] == LE64(w.head.amount) && b[52..60] == LE64(w.head.fee)
      && b[60..68] == LE64(w.middle.maxPriorityFeePerGas) && b[68..76] == LE64(w.middle.nonce)
      && b[76..84] == LE64(w.middle.timestamp) && b[84..92] == LE64(w.middle.referenceBlockHeight)
      && b[92..124] == w.tail.referenceBlockHash && b[124..132] == LE64(w.tail.maxValidBlockHeight)
      && b[132..] == EncodeBytes(w.tail.data) + EncodeBytes(Utf8(w.tail.chainId))
  {
    HeadLayout(w.head);
    MiddleLayout(w.middle);
  }

  // ---------------------------------------------------------------------
  // Serializing
  // ---------------------------------------------------------------------

  /** What serializing a transaction gives, or None where it throws. */
  function Serialized(p: Parsers, tx: Transaction): Option<Bytes> {
    var w :- Normalize(p, tx);
    Some(Encode(w))
  }

  /** Transactions serialize alike exactly when they normalize alike. */
  lemma {:induction false} SerializedDecides(p: Parsers, a: Transaction, b: Transaction)
    requires Sound(p) && Serialized(p, a).Some? && Serialized(p, b).Some?
    ensures Serialized(p, a) == Serialized(p, b) <==> Normalize(p, a) == Normalize(p, b)
  {
    NormalizeFits(p, a);
    NormalizeFits(p, b);
    EncodeInjective(Normalize(p, a).value, Normalize(p, b).value);
  }

  lemma {:induction false} EncodeInjective(x: WireTransaction, y: WireTransaction)
    requires Fits(x) && Fits(y)
    ensures Encode(x) == Encode(y) <==> x == y
  {
    WireRoundTrip(x, []);
    WireRoundTrip(y, []);
    assert Encode(x) + [] == Encode(x) && Encode(y) + [] == Encode(y);
  }

  /** Equal values, field by field, as far as the parsers can tell. */
  ghost predicate SameFields(p: Parsers, a: Transaction, b: Transaction) {
    && a.txType == b.txType
    && p.address(a.sender) == p.address(b.sender)
    && p.address(a.recipient) == p.address(b.recipient)
    && a.amount == b.amount && a.fee == b.fee && a.maxPriorityFeePerGas == b.maxPriorityFeePerGas
    && a.nonce == b.nonce && a.timestamp == b.timestamp
    && a.referenceBlockHeight == b.referenceBlockHeight
    && p.hash(a.referenceBlockHash) == p.hash(b.referenceBlockHash)
    && a.maxValidBlockHeight == b.maxValidBlockHeight
    && a.data == b.data
    && Scalars(a.chainId) == Scalars(b.chainId)
  }

  /** Two serializable transactions have the same bytes exactly when they agree field by field. */
  lemma {:induction false} SameBytesSameFields(p: Parsers, a: Transaction, b: Transaction)
    requires Sound(p) && Serialized(p, a).Some? && Serialized(p, b).Some?
    ensures Serialized(p, a) == Serialized(p, b) <==> SameFields(p, a, b)
  {
    SerializedDecides(p, a, b);
  }

  /**
   Chain identifiers are compared after UTF-8 encoding, which is not one to
   one on strings with lone surrogates.
   */
  lemma {:induction false} LoneSurrogatesCollide(p: Parsers, tx: Transaction)
    ensures Serialized(p, tx.(chainId := [0xD800])) == Serialized(p, tx.(chainId := [REPLACEMENT]))
    ensures tx.(chainId := [0xD800]) != tx.(chainId := [REPLACEMENT])
  {
    assert [0xD800][1..] == [] && [REPLACEMENT][1..] == [];
    assert Scalars([0xD800]) == [REPLACEMENT] == Scalars([REPLACEMENT]);
  }

  lemma {:induction false} SameScalarsSameBytes(p: Parsers, tx: Transaction, other: Text)
    requires Scalars(other) == Scalars(tx.chainId)
    ensures Serialized(p, tx.(chainId := other)) == Serialized(p, tx)
  {
    assert Normalize(p, tx.(chainId := other)) == Normalize(p, tx);
  }

  /** No other chain identifier gives the same bytes. */
  ghost predicate ChainIdBound(p: Parsers, tx: Transaction) {
    forall other: Text :: Serialized(p, tx.(chainId := other)) == Serialized(p, tx) ==> other == tx.chainId
  }

  /** The bytes fix the chain identifier if and only if it holds no lone surrogate and no U+FFFD. */
  lemma {:induction false} ChainIdBoundIff(p: Parsers, tx: Transaction)
    requires Sound(p) && Serialized(p, tx).Some?
    ensures ChainIdBound(p, tx) <==> Plain(tx.chainId)
  {
    OnlyTextIff(tx.chainId);
    if Plain(tx.chainId) {
      forall other: Text | Serialized(p, tx.(chainId := other)) == Serialized(p, tx)
        ensures other == tx.chainId
      {
        SameBytesSameFields(p, tx, tx.(chainId := other));
      }
    } else {
      var other: Text :| Scalars(other) == Scalars(tx.chainId) && other != tx.chainId;
      SameScalarsSameBytes(p, tx, other);
    }
  }

  /** Transactions with equal bytes have equal chain identifiers where one of them is plain. */
  lemma {:induction false} SameBytesSameChain(p: Parsers, a: Transaction, b: Transaction)
    requires Sound(p) && Serialized(p, a).Some? && Serialized(p, a) == Serialized(p, b) && Plain(a.chainId)
    ensures a.chainId == b.chainId
  {
    SameBytesSameFields(p, a, b);
    OnlyTextIff(a.chainId);
  }

  // ---------------------------------------------------------------------
  // The serializer
  // ---------------------------------------------------------------------

  lemma {:induction false} Append(start: Bytes, a: Bytes, b: Bytes)
    ensures start + a + b == start + (a + b)
  {
  }

  method WriteU64(writer: BincodeWriter, value: Numeric) returns (ok: bool)
    modifies writer
    ensures ok <==> U64(value).Some?
    ensures ok ==> writer.Written() == old(writer.Written()) + LE64(value.n)
  {
    Widths();
    ok := writer.WriteInteger(value, 8);
  }

  method WriteHead(p: Parsers, writer: BincodeWriter, tx: Transaction) returns (ok: bool)
    requires Sound(p)
    modifies writer
    ensures var h := NormalHead(p, tx.txType, tx.sender, tx.recipient, tx.amount, tx.fee);
      && (ok <==> h.Some?)
      && (ok ==> writer.Written() == old(writer.Written()) + EncodeHead(h.value))
  {
    Widths();
    ghost var start := writer.Written();
    var code, sender, recipient := p.code(tx.txType), p.address(tx.sender), p.address(tx.recipient);
    if code.None? || sender.None? || recipient.None? {
      return false;
    }
    ok := writer.WriteInteger(Integer(code.value), 4);
    writer.WriteRaw(sender.value);
    writer.WriteRaw(recipient.value);
    ok := WriteU64(writer, tx.amount);
    if ok {
      ok := WriteU64(writer, tx.fee);
      if ok {
        ghost var c, a, f := LittleEndian(code.value, 4), LE64(tx.amount.n), LE64(tx.fee.n);
        Append(start + c + sender.value + recipient.value, a, f);
        Append(start + c + sender.value, recipient.value, a + f);
        Append(start + c, sender.value, recipient.value + (a + f));
        Append(start, c, sender.value + (recipient.value + (a + f)));
      }
    }
  }

  method WriteMiddle(writer: BincodeWriter, tx: Transaction) returns (ok: bool)
    modifies writer
    ensures var m := NormalMiddle(tx.maxPriorityFeePerGas, tx.nonce, tx.timestamp, tx.referenceBlockHeight);
      && (ok <==> m.Some?)
      && (ok ==> writer.Written() == old(writer.Written()) + EncodeMiddle(m.value))
  {
    ghost var start := writer.Written();
    ok := WriteU64(writer, tx.maxPriorityFeePerGas);
    if !ok { return; }
    ok := WriteU64(writer, tx.nonce);
    if !ok { return; }
    ok := WriteU64(writer, tx.timestamp);
    if !ok { return; }
    ok := WriteU64(writer, tx.referenceBlockHeight);
    if !ok { return; }
    ghost var a, b := LE64(tx.maxPriorityFeePerGas.n), LE64(tx.nonce.n);
    ghost var c, d := LE64(tx.timestamp.n), LE64(tx.referenceBlockHeight.n);
    Append(start + a + b, c, d);
    Append(start + a, b, c + d);
    Append(start, a, b + (c + d));
  }

  method WriteTail(p: Parsers, writer: BincodeWriter, tx: Transaction) returns (ok: bool)
    modifies writer
    ensures var t := NormalTail(p, tx.referenceBlockHash, tx.maxValidBlockHeight, tx.data, tx.chainId);
      && (ok <==> t.Some?)
      && (ok ==> writer.Written() == old(writer.Written()) + EncodeTail(t.value))
  {
    ghost var start := writer.Written();
    var hash := p.hash(tx.referenceBlockHash);
    if hash.None? {
      return false;
    }
    writer.WriteRaw(hash.value);
    ok := WriteU64(writer, tx.maxValidBlockHeight);
    if !ok { return; }
    ok := writer.WriteBytes(tx.data);
    if !ok { return; }
    ok := writer.WriteString(tx.chainId);
    if !ok { return; }
    ghost var b, c, d := LE64(tx.maxValidBlockHeight.n), EncodeBytes(tx.data), EncodeBytes(Utf8(Scalars(tx.chainId)));
    Append(start + hash.value + b, c, d);
    Append(start + hash.value, b, c + d);
    Append(start, hash.value, b + (c + d));
  }

  /** Writes the fields in order, throwing at the first one that does not fit. */
  method SerializeTransaction(p: Parsers, tx: Transaction) returns (r: Option<Bytes>)
    requires Sound(p)
    ensures r == Serialized(p, tx)
  {
    var writer := new BincodeWriter();
    var ok := WriteHead(p, writer, tx);
    if !ok {
      return None;
    }
    ghost var h := NormalHead(p, tx.txType, tx.sender, tx.recipient, tx.amount, tx.fee).value;
    assert [] + EncodeHead(h) == EncodeHead(h);
    ok := WriteMiddle(writer, tx);
    if !ok {
      return None;
    }
    ok := WriteTail(p, writer, tx);
    if !ok {
      return None;
    }
    ghost var w := Normalize(p, tx).value;
    Append(EncodeHead(w.head), EncodeMiddle(w.middle), EncodeTail(w.tail));
    var out := writer.Finish();
    r := Some(out[..]);
  }
}
