/** The JSON form of a transaction, for external wallets, and its reader. */
module TransactionJson {
  import opened Wrappers
  import opened Ordering
  import opened Characters
  import opened Decimal
  import opened Numbers
  import opened Hex
  import opened Transaction
  import opened SignedTransactions

  datatype TransactionJson = TransactionJson(
    txType: string,
    sender: Text,
    recipient: Text,
    numbers: seq<Text>,
    referenceBlockHash: Text,
    data: Text,
    chainId: Text
  )

  const MAX_CHAIN_ID: nat := 64
  const MAX_DIGITS: nat := 20

  /** The seven numeric fields, in declaration order. */
  function NumberFields(tx: Transaction): seq<Numeric> {
    [tx.amount, tx.fee, tx.maxPriorityFeePerGas, tx.nonce,
     tx.timestamp, tx.referenceBlockHeight, tx.maxValidBlockHeight]
  }

  /** A big integer as text; what is not an integer has none. */
  function NumericText(v: Numeric): Option<Text> {
    match v
    case NotInteger => None
    case Integer(n) => Some(if n < 0 then [45] + DigitText(Digits(-n)) else DigitText(Digits(n)))
  }

  /** decimalString: one to twenty digits, in the unsigned 64-bit range. */
  function ReadNumber(t: Text): Option<Numeric> {
    if !(1 <= |t| <= MAX_DIGITS) then None
    else
      var ds :- ReadDigits(t);
      if Value(ds) <= U64_MAX then Some(Integer(Value(ds))) else None
  }

  function TextsOf(vs: seq<Numeric>): Option<seq<Text>> {
    if vs == [] then Some([])
    else
      var t :- NumericText(vs[0]);
      var ts :- TextsOf(vs[1..]);
      Some([t] + ts)
  }

  function ReadNumbers(ts: seq<Text>): (vs: Option<seq<Numeric>>)
    ensures vs.Some? ==> |vs.value| == |ts|
  {
    if ts == [] then Some([])
    else
      var v :- ReadNumber(ts[0]);
      var vs :- ReadNumbers(ts[1..]);
      Some([v] + vs)
  }

  function ToJson(tx: Transaction): Option<TransactionJson> {
    var sender :- NormalAddress(tx.sender);
    var recipient :- NormalAddress(tx.recipient);
    var numbers :- TextsOf(NumberFields(tx));
    var hash :- NormalHash(tx.referenceBlockHash);
    Some(TransactionJson(tx.txType, sender, recipient, numbers, hash, BytesToHex(tx.data), tx.chainId))
  }

  /** Every field but the type name is checked; an unknown type passes here and fails when serialized. */
  function FromJson(json: TransactionJson): Option<Transaction>
    requires |json.numbers| == 7
  {
    if !(1 <= |json.chainId| <= MAX_CHAIN_ID) then None
    else
      var sender :- NormalAddress(json.sender);
      var recipient :- NormalAddress(json.recipient);
      var v :- ReadNumbers(json.numbers);
      var hash :- NormalHash(json.referenceBlockHash);
      var data :- HexBytes(Trim(StripPrefix(json.data)));
      Some(Transaction(
        json.txType, sender, recipient, v[0], v[1], v[2], v[3], v[4], v[5], hash, v[6], data, json.chainId))
  }

  lemma {:induction false} NumberRoundTrip(n: nat)
    requires n <= U64_MAX
    ensures NumericText(Integer(n)) == Some(DigitText(Digits(n)))
      && ReadNumber(DigitText(Digits(n))) == Some(Integer(n))
  {
    assert Pow10(10) == 10_000_000_000;
    Pow10Adds(10, 10);
    DigitsLength(n, 20);
    ReadDigitText(Digits(n));
    ValueOfDigits(n);
  }

  lemma {:induction false} Pow10Adds(a: nat, b: nat)
    ensures Pow10(a + b) == Pow10(a) * Pow10(b)
    decreases b
  {
    if b > 0 {
      Pow10Adds(a, b - 1);
      assert Pow10(a) * (10 * Pow10(b - 1)) == 10 * (Pow10(a) * Pow10(b - 1));
    }
  }

  lemma {:induction false} ReadMore(t: Text, v: Numeric, ts: seq<Text>, vs: seq<Numeric>)
    requires ReadNumber(t) == Some(v) && ReadNumbers(ts) == Some(vs)
    ensures ReadNumbers([t] + ts) == Some([v] + vs)
  {
    assert ([t] + ts)[1..] == ts;
  }

  lemma {:induction false} NumbersRoundTrip(vs: seq<Numeric>)
    requires forall i :: 0 <= i < |vs| ==> U64(vs[i]).Some?
    ensures TextsOf(vs).Some? && |TextsOf(vs).value| == |vs| && ReadNumbers(TextsOf(vs).value) == Some(vs)
    decreases |vs|
  {
    if vs != [] {
      var t := DigitText(Digits(vs[0].n));
      NumberRoundTrip(vs[0].n);
      NumbersRoundTrip(vs[1..]);
      ReadMore(t, vs[0], TextsOf(vs[1..]).value, vs[1..]);
      assert vs == [vs[0]] + vs[1..];
    }
  }

  lemma {:induction false} NormalHashIdempotent(t: Text)
    requires NormalHash(t).Some?
    ensures NormalHash(NormalHash(t).value) == NormalHash(t)
  {
    HexToBytesRoundTrip(HexToBytes(t, 32).value);
  }

  lemma {:induction false} DataRoundTrip(b: Bytes)
    ensures HexBytes(Trim(StripPrefix(BytesToHex(b)))) == Some(b)
  {
    HexToBytesRoundTrip(b);
  }

  lemma {:induction false} SerializableFields(p: Parsers, tx: Transaction)
    requires Serialized(p, tx).Some?
    ensures forall i :: 0 <= i < 7 ==> U64(NumberFields(tx)[i]).Some?
    ensures p.address(tx.sender).Some? && p.address(tx.recipient).Some? && p.hash(tx.referenceBlockHash).Some?
  {
  }

  lemma {:induction false} SerializableToJson(codes: Codes, tx: Transaction)
    requires Serialized(Sdk(codes), tx).Some?
    ensures forall i :: 0 <= i < 7 ==> U64(NumberFields(tx)[i]).Some?
    ensures NormalAddress(tx.sender).Some? && NormalAddress(tx.recipient).Some?
      && NormalHash(tx.referenceBlockHash).Some?
  {
    SerializableFields(Sdk(codes), tx);
    AddressText(tx.sender);
    AddressText(tx.recipient);
  }

  /**
   A serializable transaction has a JSON form, which reads back exactly when
   its chain identifier has 1 to 64 units; what is read back is the same
   transaction after normalization.
   */
  lemma {:induction false} JsonRoundTrip(codes: Codes, tx: Transaction)
    requires Serialized(Sdk(codes), tx).Some?
    ensures ToJson(tx).Some? && |ToJson(tx).value.numbers| == 7
    ensures FromJson(ToJson(tx).value).Some? <==> 1 <= |tx.chainId| <= MAX_CHAIN_ID
    ensures FromJson(ToJson(tx).value).Some? ==>
      FromJson(ToJson(tx).value) == Some(tx.(sender := NormalAddress(tx.sender).value,
        recipient := NormalAddress(tx.recipient).value, referenceBlockHash := NormalHash(tx.referenceBlockHash).value))
  {
    SerializableToJson(codes, tx);
    NumbersRoundTrip(NumberFields(tx));
    NormalAddressIdempotent(tx.sender);
    NormalAddressIdempotent(tx.recipient);
    NormalHashIdempotent(tx.referenceBlockHash);
    DataRoundTrip(tx.data);
  }

  // ---------------------------------------------------------------------
  // What the reader lets through
  // ---------------------------------------------------------------------

  lemma {:induction false} NumbersInRange(ts: seq<Text>)
    requires ReadNumbers(ts).Some?
    ensures forall i :: 0 <= i < |ts| ==> U64(ReadNumbers(ts).value[i]).Some?
    decreases |ts|
  {
    if ts != [] {
      NumbersInRange(ts[1..]);
      var vs := ReadNumbers(ts).value;
      assert vs[1..] == ReadNumbers(ts[1..]).value;
      forall i | 0 <= i < |ts|
        ensures U64(vs[i]).Some?
      {
        if i > 0 {
          assert vs[i] == vs[1..][i - 1];
        }
      }
    }
  }

  lemma {:induction false} ScalarsLength(t: Text)
    ensures |Scalars(t)| <= |t|
    decreases |t|
  {
    if t != [] {
      ScalarsLength(t[1..]);
      if |t| >= 2 {
        ScalarsLength(t[2..]);
      }
    }
  }

  lemma {:induction false} Utf8Length(s: seq<Scalar>)
    ensures |Utf8(s)| <= 4 * |s|
    decreases |s|
  {
    if s != [] {
      Utf8Length(s[1..]);
    }
  }

  /** The texts of a transaction that was read are in normal form, and so can be read again. */
  lemma {:induction false} ReadTexts(codes: Codes, json: TransactionJson)
    requires |json.numbers| == 7 && FromJson(json).Some?
    ensures var p, tx := Sdk(codes), FromJson(json).value;
      p.address(tx.sender).Some? && p.address(tx.recipient).Some? && p.hash(tx.referenceBlockHash).Some?
  {
    var tx := FromJson(json).value;
    NormalAddressIdempotent(json.sender);
    NormalAddressIdempotent(json.recipient);
    AddressText(tx.sender);
    AddressText(tx.recipient);
    HexToBytesRoundTrip(HexToBytes(json.referenceBlockHash, 32).value);
  }

  lemma {:induction false} SerializesIff(p: Parsers, tx: Transaction)
    ensures Serialized(p, tx).Some? <==>
      && p.code(tx.txType).Some?
      && p.address(tx.sender).Some? && p.address(tx.recipient).Some? && p.hash(tx.referenceBlockHash).Some?
      && (forall i :: 0 <= i < 7 ==> U64(NumberFields(tx)[i]).Some?)
      && |tx.data| <= U64_MAX && |Utf8(Scalars(tx.chainId))| <= U64_MAX
  {
    var n := NumberFields(tx);
    assert n[0] == tx.amount && n[1] == tx.fee && n[2] == tx.maxPriorityFeePerGas && n[3] == tx.nonce;
    assert n[4] == tx.timestamp && n[5] == tx.referenceBlockHeight && n[6] == tx.maxValidBlockHeight;
  }

  /** What is left to check of a transaction with good texts and numbers. */
  lemma {:induction false} TypeDecides(p: Parsers, tx: Transaction)
    requires p.address(tx.sender).Some? && p.address(tx.recipient).Some? && p.hash(tx.referenceBlockHash).Some?
    requires forall i :: 0 <= i < 7 ==> U64(NumberFields(tx)[i]).Some?
    requires |tx.chainId| <= MAX_CHAIN_ID
    ensures Serialized(p, tx).Some? <==> p.code(tx.txType).Some? && |tx.data| <= U64_MAX
  {
    ScalarsLength(tx.chainId);
    Utf8Length(Scalars(tx.chainId));
    SerializesIff(p, tx);
  }

  lemma {:induction false} SevenAlike(v: seq<Numeric>)
    requires |v| == 7
    ensures [v[0], v[1], v[2], v[3], v[4], v[5], v[6]] == v
  {
  }

  lemma {:induction false} ReadRest(json: TransactionJson)
    requires |json.numbers| == 7 && FromJson(json).Some?
    ensures var tx := FromJson(json).value;
      && tx.txType == json.txType && |tx.chainId| <= MAX_CHAIN_ID
      && ReadNumbers(json.numbers) == Some(NumberFields(tx))
  {
    SevenAlike(ReadNumbers(json.numbers).value);
  }

  /** What the reader accepts can be serialized if and only if its type name is a known one, which it does not check. */
  lemma {:induction false} ReadIsUsableIff(codes: Codes, json: TransactionJson)
    requires |json.numbers| == 7 && FromJson(json).Some?
    ensures Serialized(Sdk(codes), FromJson(json).value).Some?
        <==> codes(json.txType).Some? && |FromJson(json).value.data| <= U64_MAX
  {
    ReadTexts(codes, json);
    ReadRest(json);
    NumbersInRange(json.numbers);
    TypeDecides(Sdk(codes), FromJson(json).value);
  }

  const ZERO: Text := DigitText(Digits(0))

  /** An otherwise empty transaction of the named type. */
  function Blank(name: string): TransactionJson {
    var address := PREFIX + BytesToHex(seq(20, i => 0));
    TransactionJson(name, address, address, seq(7, i => ZERO), BytesToHex(seq(32, i => 0)), [], [97])
  }

  lemma {:induction false} ZerosRead(ts: seq<Text>)
    requires forall i :: 0 <= i < |ts| ==> ts[i] == ZERO
    ensures ReadNumbers(ts).Some?
    decreases |ts|
  {
    if ts != [] {
      ZerosRead(ts[1..]);
      NumberRoundTrip(0);
    }
  }

  lemma {:induction false} BlankReads(name: string)
    ensures |Blank(name).numbers| == 7 && FromJson(Blank(name)).Some?
  {
    var zeros := seq(20, i => 0);
    HexDigitsLower(zeros);
    PrefixedReads(BytesToHex(zeros));
    HexToBytesRoundTrip(seq(32, i => 0));
    ZerosRead(Blank(name).numbers);
    DataRoundTrip([]);
  }

  /** An unknown type name passes the reader and stops the serializer. */
  lemma {:induction false} UnknownTypePasses(codes: Codes, name: string)
    requires codes(name).None?
    ensures |Blank(name).numbers| == 7 && FromJson(Blank(name)).Some?
    ensures Serialized(Sdk(codes), FromJson(Blank(name)).value).None?
  {
    BlankReads(name);
    ReadIsUsableIff(codes, Blank(name));
  }

  // ---------------------------------------------------------------------
  // Field by field
  // ---------------------------------------------------------------------

  /** The decimal text of an integer. */
  ghost predicate Says(t: Text, v: Numeric) {
    v.Integer? && t == (if v.n < 0 then [45] + DigitText(Digits(-v.n)) else DigitText(Digits(v.n)))
  }

  lemma {:induction false} TextsSay(vs: seq<Numeric>)
    requires TextsOf(vs).Some?
    ensures |TextsOf(vs).value| == |vs|
    ensures forall i :: 0 <= i < |vs| ==> Says(TextsOf(vs).value[i], vs[i])
    decreases |vs|
  {
    if vs != [] {
      TextsSay(vs[1..]);
      var ts := TextsOf(vs).value;
      assert ts == [NumericText(vs[0]).value] + TextsOf(vs[1..]).value;
      forall i | 0 <= i < |vs|
        ensures Says(ts[i], vs[i])
      {
        if i > 0 {
          assert vs[i] == vs[1..][i - 1] && ts[i] == TextsOf(vs[1..]).value[i - 1];
        }
      }
    }
  }

  /** Every field of the JSON form says the field of the transaction. */
  lemma {:induction false} JsonSays(tx: Transaction)
    requires ToJson(tx).Some?
    ensures var j := ToJson(tx).value;
      && j.txType == tx.txType && j.chainId == tx.chainId && j.data == BytesToHex(tx.data)
      && Some(j.sender) == NormalAddress(tx.sender) && Some(j.recipient) == NormalAddress(tx.recipient)
      && Some(j.referenceBlockHash) == NormalHash(tx.referenceBlockHash)
      && |j.numbers| == 7
      && Says(j.numbers[0], tx.amount) && Says(j.numbers[1], tx.fee) && Says(j.numbers[2], tx.maxPriorityFeePerGas)
      && Says(j.numbers[3], tx.nonce) && Says(j.numbers[4], tx.timestamp)
      && Says(j.numbers[5], tx.referenceBlockHeight) && Says(j.numbers[6], tx.maxValidBlockHeight)
  {
    NumbersSay(tx);
  }

  lemma {:induction false} NumbersSay(tx: Transaction)
    requires TextsOf(NumberFields(tx)).Some?
    ensures var t := TextsOf(NumberFields(tx)).value;
      && |t| == 7
      && Says(t[0], tx.amount) && Says(t[1], tx.fee) && Says(t[2], tx.maxPriorityFeePerGas)
      && Says(t[3], tx.nonce) && Says(t[4], tx.timestamp)
      && Says(t[5], tx.referenceBlockHeight) && Says(t[6], tx.maxValidBlockHeight)
  {
    var n := NumberFields(tx);
    TextsSay(n);
    assert n[0] == tx.amount && n[1] == tx.fee && n[2] == tx.maxPriorityFeePerGas && n[3] == tx.nonce;
    assert n[4] == tx.timestamp && n[5] == tx.referenceBlockHeight && n[6] == tx.maxValidBlockHeight;
  }

  /** The number that one to twenty decimal digits spell, if it fits 64 bits. */
  ghost predicate Spells(t: Text, v: Numeric) {
    && 1 <= |t| <= 20 && ReadDigits(t).Some?
    && v == Integer(Value(ReadDigits(t).value)) && v.n <= 0xFFFF_FFFF_FFFF_FFFF
  }

  /** The reader takes every such text, leading zeros and all, and no other. */
  lemma {:induction false} ReadNumberIff(t: Text, v: Numeric)
    ensures ReadNumber(t) == Some(v) <==> Spells(t, v)
  {
  }

  lemma {:induction false} NumbersSpelled(ts: seq<Text>)
    requires ReadNumbers(ts).Some?
    ensures forall i :: 0 <= i < |ts| ==> Spells(ts[i], ReadNumbers(ts).value[i])
    decreases |ts|
  {
    if ts != [] {
      NumbersSpelled(ts[1..]);
      var vs := ReadNumbers(ts).value;
      assert vs == [ReadNumber(ts[0]).value] + ReadNumbers(ts[1..]).value;
      forall i | 0 <= i < |ts|
        ensures Spells(ts[i], vs[i])
      {
        if i > 0 {
          assert ts[i] == ts[1..][i - 1] && vs[i] == ReadNumbers(ts[1..]).value[i - 1];
        }
      }
    }
  }

  /** Every number that is read is what its text spells. */
  lemma {:induction false} ReadNumbersSay(json: TransactionJson)
    requires |json.numbers| == 7 && FromJson(json).Some?
    ensures var tx, t := FromJson(json).value, json.numbers;
      && Spells(t[0], tx.amount) && Spells(t[1], tx.fee) && Spells(t[2], tx.maxPriorityFeePerGas)
      && Spells(t[3], tx.nonce) && Spells(t[4], tx.timestamp)
      && Spells(t[5], tx.referenceBlockHeight) && Spells(t[6], tx.maxValidBlockHeight)
  {
    var n := NumberFields(FromJson(json).value);
    ReadRest(json);
    NumbersSpelled(json.numbers);
    assert n == ReadNumbers(json.numbers).value;
  }

  /** Every other field that is read is what its text says. */
  lemma {:induction false} ReadSays(json: TransactionJson)
    requires |json.numbers| == 7 && FromJson(json).Some?
    ensures var tx := FromJson(json).value;
      && tx.txType == json.txType && tx.chainId == json.chainId && 1 <= |json.chainId| <= 64
      && Some(tx.sender) == NormalAddress(json.sender) && Some(tx.recipient) == NormalAddress(json.recipient)
      && Some(tx.referenceBlockHash) == NormalHash(json.referenceBlockHash)
      && Some(tx.data) == HexBytes(Trim(StripPrefix(json.data)))
  {
  }
}
