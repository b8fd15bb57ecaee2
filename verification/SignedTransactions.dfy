/**
 Signing with an external wallet: the wallet gets the whole transaction and
 hands back a signed one, which is checked before it is used. What it gets is
 the caller's own object, which it may edit before the check. Hashing and
 signatures are parameters.
 */
module SignedTransactions {
  import opened Wrappers
  import opened Ordering
  import opened Characters
  import opened Hex
  import opened Transaction
  import opened Utf16

  /** The SDK's own parsers, over a table of wire codes (`TransactionTypes` has the real one). */
  function Sdk(codes: Codes): Parsers {
    Parsers(codes, a => AddressBytes(a), t => HexToBytes(t, 32))
  }

  lemma {:induction false} SdkSound(codes: Codes)
    requires CodesOk(codes)
    ensures Sound(Sdk(codes))
  {
    var p := Sdk(codes);
    forall a | p.address(a).Some?
      ensures |p.address(a).value| == 20
    {
      AddressText(a);
    }
  }

  /** Equal after normalization: the texts users see, the numbers, the data, the chain identifier. */
  ghost predicate SameNormalized(a: Transaction, b: Transaction) {
    && a.txType == b.txType
    && NormalAddress(a.sender) == NormalAddress(b.sender)
    && NormalAddress(a.recipient) == NormalAddress(b.recipient)
    && a.amount == b.amount && a.fee == b.fee && a.maxPriorityFeePerGas == b.maxPriorityFeePerGas
    && a.nonce == b.nonce && a.timestamp == b.timestamp
    && a.referenceBlockHeight == b.referenceBlockHeight
    && NormalHash(a.referenceBlockHash) == NormalHash(b.referenceBlockHash)
    && a.maxValidBlockHeight == b.maxValidBlockHeight
    && a.data == b.data
    && Scalars(a.chainId) == Scalars(b.chainId)
  }

  lemma {:induction false} SerializableTexts(p: Parsers, tx: Transaction)
    requires Serialized(p, tx).Some?
    ensures p.address(tx.sender).Some? && p.address(tx.recipient).Some? && p.hash(tx.referenceBlockHash).Some?
  {
  }

  lemma {:induction false} SameFieldsNormalized(codes: Codes, a: Transaction, b: Transaction)
    requires Serialized(Sdk(codes), a).Some? && Serialized(Sdk(codes), b).Some?
    ensures SameFields(Sdk(codes), a, b) <==> SameNormalized(a, b)
  {
    SerializableTexts(Sdk(codes), a);
    SerializableTexts(Sdk(codes), b);
    AddressesAgree(a.sender, b.sender);
    AddressesAgree(a.recipient, b.recipient);
    HashesAgree(a.referenceBlockHash, b.referenceBlockHash);
  }

  /** Equal bytes mean equal transactions after normalization, and the reverse. */
  lemma {:induction false} BytesDecideTransactions(codes: Codes, a: Transaction, b: Transaction)
    requires CodesOk(codes)
    requires Serialized(Sdk(codes), a).Some? && Serialized(Sdk(codes), b).Some?
    ensures Serialized(Sdk(codes), a) == Serialized(Sdk(codes), b) <==> SameNormalized(a, b)
  {
    SdkSound(codes);
    SameBytesSameFields(Sdk(codes), a, b);
    SameFieldsNormalized(codes, a, b);
  }

  // ---------------------------------------------------------------------
  // Signing
  // ---------------------------------------------------------------------

  /** The library functions: SHA-256, Ed25519 verification, and the address of a key. */
  datatype Crypto = Crypto(
    sha256: Bytes -> Bytes,
    verify: (Bytes, Bytes, Bytes) -> bool,
    addressOf: Bytes -> Text
  )

  datatype Signed = Signed(transaction: Transaction, signature: Text, publicKey: Text, hash: Text)

  /** What a wallet hands back, or an exception, and what it leaves in the object it was given. */
  datatype Answer = Answer(signed: Option<Signed>, left: Transaction)

  /** A wallet: it may sign whole transactions, with any answer, or only hashes. */
  datatype Signer = Signer(
    address: Text,
    publicKey: Text,
    signTransaction: Option<Transaction -> Answer>,
    sign: Bytes -> Option<Bytes>
  )

  datatype SignError = WrongSender | Throws | DifferentTransaction | DifferentHash | InvalidSignature

  function TransactionHash(codes: Codes, crypto: Crypto, tx: Transaction): Option<Text> {
    var bytes :- Serialized(Sdk(codes), tx);
    Some(BytesToHex(crypto.sha256(bytes)))
  }

  /** Checks a signed transaction against the key inside it; any exception is false. */
  predicate SignatureOk(codes: Codes, crypto: Crypto, s: Signed) {
    var key, hash := HexToBytes(s.publicKey, 32), TransactionHash(codes, crypto, s.transaction);
    && key.Some?
    && Some(crypto.addressOf(key.value)) == NormalAddress(s.transaction.sender)
    && hash.Some?
    && hash == NormalHash(s.hash)
    && var digest, signature := HexToBytes(hash.value, 32), HexToBytes(s.signature, 64);
      digest.Some? && signature.Some? && crypto.verify(key.value, digest.value, signature.value)
  }

  /** assertSignedTransactionMatches. */
  function CheckSigned(
    codes: Codes, crypto: Crypto, s: Signed, tx: Transaction, hash: Text): Result<Signed, SignError> {
    match (Serialized(Sdk(codes), tx), Serialized(Sdk(codes), s.transaction))
    case (Some(expected), Some(actual)) =>
      if BytesToHex(actual) != BytesToHex(expected) then Err(DifferentTransaction)
      else if NormalHash(s.hash).None? then Err(Throws)
      else if NormalHash(s.hash) != Some(hash) then Err(DifferentHash)
      else if !SignatureOk(codes, crypto, s) then Err(InvalidSignature)
      else Ok(s)
    case _ => Err(Throws)
  }

  function SignedHash(signer: Signer, tx: Transaction, hash: Text): Option<Signed> {
    var digest :- HexToBytes(hash, 32);
    var signature :- signer.sign(digest);
    Some(Signed(tx, BytesToHex(signature), signer.publicKey, hash))
  }

  /** The answer for a transaction with this hash; a wallet that signs hashes never sees the transaction. */
  function Obtained(signer: Signer, tx: Transaction, hash: Text): Answer {
    match signer.signTransaction
    case Some(signTransaction) => signTransaction(tx)
    case None => Answer(SignedHash(signer, tx, hash), tx)
  }

  function SignTransactionWith(
    codes: Codes, crypto: Crypto, tx: Transaction, signer: Signer): Result<Signed, SignError> {
    if tx.sender != signer.address then Err(WrongSender)
    else
      var hash := TransactionHash(codes, crypto, tx);
      if hash.None? then Err(Throws)
      else
        var Answer(s, left) := Obtained(signer, tx, hash.value);
        if s.None? then Err(Throws) else CheckSigned(codes, crypto, s.value, left, hash.value)
  }

  lemma {:induction false} CheckedIsRequested(codes: Codes, crypto: Crypto, s: Signed, tx: Transaction, hash: Text)
    requires CheckSigned(codes, crypto, s, tx, hash).Ok?
    ensures CheckSigned(codes, crypto, s, tx, hash) == Ok(s)
    ensures Serialized(Sdk(codes), s.transaction).Some?
      && Serialized(Sdk(codes), s.transaction) == Serialized(Sdk(codes), tx)
    ensures NormalHash(s.hash) == Some(hash) && SignatureOk(codes, crypto, s)
  {
    BytesToHexInjective(Serialized(Sdk(codes), tx).value, Serialized(Sdk(codes), s.transaction).value);
  }

  /** Signing returns nothing that was not checked against the hash of the request. */
  lemma {:induction false} SignedIsChecked(codes: Codes, crypto: Crypto, tx: Transaction, signer: Signer)
    requires SignTransactionWith(codes, crypto, tx, signer).Ok?
    ensures TransactionHash(codes, crypto, tx).Some?
    ensures var hash := TransactionHash(codes, crypto, tx).value;
      && Obtained(signer, tx, hash).signed == Some(SignTransactionWith(codes, crypto, tx, signer).value)
      && var Answer(s, left) := Obtained(signer, tx, hash);
        CheckSigned(codes, crypto, s.value, left, hash) == Ok(s.value)
  {
    var hash := TransactionHash(codes, crypto, tx).value;
    var Answer(s, left) := Obtained(signer, tx, hash);
    CheckedIsRequested(codes, crypto, s.value, left, hash);
  }

  lemma {:induction false} SignatureNamesSender(codes: Codes, crypto: Crypto, s: Signed)
    requires SignatureOk(codes, crypto, s)
    ensures HexToBytes(s.publicKey, 32).Some?
    ensures Some(crypto.addressOf(HexToBytes(s.publicKey, 32).value)) == NormalAddress(s.transaction.sender)
  {
  }

  /** Two different messages with one digest. */
  ghost predicate HashCollision(crypto: Crypto, a: Option<Bytes>, b: Option<Bytes>) {
    a.Some? && b.Some? && a != b && crypto.sha256(a.value) == crypto.sha256(b.value)
  }

  /**
   The requested transaction, field for field after normalization, signed by
   a key that owns the sender's address. A plain chain identifier is the text
   that was requested.
   */
  ghost predicate Requested(codes: Codes, crypto: Crypto, s: Signed, tx: Transaction) {
    && SameNormalized(s.transaction, tx)
    && Serialized(Sdk(codes), s.transaction) == Serialized(Sdk(codes), tx)
    && HexToBytes(s.publicKey, 32).Some?
    && Some(crypto.addressOf(HexToBytes(s.publicKey, 32).value)) == NormalAddress(tx.sender)
    && (Plain(tx.chainId) ==> s.transaction.chainId == tx.chainId)
  }

  lemma {:induction false} SameBytesRequested(codes: Codes, crypto: Crypto, s: Signed, tx: Transaction)
    requires CodesOk(codes) && SignatureOk(codes, crypto, s)
    requires Serialized(Sdk(codes), tx).Some? && Serialized(Sdk(codes), s.transaction) == Serialized(Sdk(codes), tx)
    ensures Requested(codes, crypto, s, tx)
  {
    SignatureNamesSender(codes, crypto, s);
    BytesDecideTransactions(codes, s.transaction, tx);
    if Plain(tx.chainId) {
      SdkSound(codes);
      SameBytesSameChain(Sdk(codes), tx, s.transaction);
    }
  }

  /** What was checked has the digest of the request. */
  lemma {:induction false} SameDigest(codes: Codes, crypto: Crypto, s: Signed, tx: Transaction)
    requires SignatureOk(codes, crypto, s) && TransactionHash(codes, crypto, tx).Some?
    requires NormalHash(s.hash) == TransactionHash(codes, crypto, tx)
    ensures Serialized(Sdk(codes), s.transaction).Some?
    ensures crypto.sha256(Serialized(Sdk(codes), s.transaction).value) ==
      crypto.sha256(Serialized(Sdk(codes), tx).value)
  {
    BytesToHexInjective(
      crypto.sha256(Serialized(Sdk(codes), s.transaction).value), crypto.sha256(Serialized(Sdk(codes), tx).value));
  }

  /** The wallet has not changed what the object it was given stands for. */
  ghost predicate LeavesRequest(codes: Codes, signer: Signer, tx: Transaction) {
    signer.signTransaction.Some? ==>
      Serialized(Sdk(codes), signer.signTransaction.value(tx).left) == Serialized(Sdk(codes), tx)
  }

  /**
   Whatever the wallet does, also to the object it was given: a transaction
   that signing returns carries the hash of the requested bytes and a valid
   signature, and it is the requested one, or here are two messages with one
   digest. A wallet that leaves the object alone needs no such proviso.
   */
  lemma {:induction false} SignedIsRequested(codes: Codes, crypto: Crypto, tx: Transaction, signer: Signer)
    requires CodesOk(codes)
    requires SignTransactionWith(codes, crypto, tx, signer).Ok?
    ensures var s := SignTransactionWith(codes, crypto, tx, signer).value;
      && NormalHash(s.hash) == TransactionHash(codes, crypto, tx)
      && SignatureOk(codes, crypto, s)
      && (Requested(codes, crypto, s, tx)
          || HashCollision(crypto, Serialized(Sdk(codes), s.transaction), Serialized(Sdk(codes), tx)))
      && (LeavesRequest(codes, signer, tx) ==> Requested(codes, crypto, s, tx))
  {
    var s := SignTransactionWith(codes, crypto, tx, signer).value;
    SignedIsChecked(codes, crypto, tx, signer);
    var hash := TransactionHash(codes, crypto, tx).value;
    CheckedIsRequested(codes, crypto, s, Obtained(signer, tx, hash).left, hash);
    SameDigest(codes, crypto, s, tx);
    if Serialized(Sdk(codes), s.transaction) == Serialized(Sdk(codes), tx) {
      SameBytesRequested(codes, crypto, s, tx);
    }
  }

  /** No wallet can get away with another chain identifier, short of a collision. */
  ghost predicate WalletsKeepChain(codes: Codes, crypto: Crypto, tx: Transaction) {
    forall signer: Signer ::
      var r := SignTransactionWith(codes, crypto, tx, signer);
      r.Ok? ==>
        || r.value.transaction.chainId == tx.chainId
        || HashCollision(crypto, Serialized(Sdk(codes), r.value.transaction), Serialized(Sdk(codes), tx))
  }

  /** A wallet that answers with a signed transaction of its own. */
  function Impostor(signer: Signer, s: Signed): Signer {
    signer.(signTransaction := Some((tx: Transaction) => Answer(Some(s), tx)))
  }

  /** The checks see no more of a transaction than its bytes and its sender. */
  lemma {:induction false} SameBytesPass(
    codes: Codes, crypto: Crypto, tx: Transaction, s: Signed, hash: Text, x: Transaction)
    requires CheckSigned(codes, crypto, s, tx, hash).Ok?
    requires Serialized(Sdk(codes), x) == Serialized(Sdk(codes), s.transaction)
    requires NormalAddress(x.sender) == NormalAddress(s.transaction.sender)
    ensures CheckSigned(codes, crypto, s.(transaction := x), tx, hash) == Ok(s.(transaction := x))
  {
    assert TransactionHash(codes, crypto, x) == TransactionHash(codes, crypto, s.transaction);
    assert SignatureOk(codes, crypto, s.(transaction := x)) == SignatureOk(codes, crypto, s);
  }

  lemma {:induction false} ImpostorAccepted(
    codes: Codes, crypto: Crypto, tx: Transaction, signer: Signer, s: Signed, hash: Text)
    requires tx.sender == signer.address && TransactionHash(codes, crypto, tx) == Some(hash)
    requires CheckSigned(codes, crypto, s, tx, hash) == Ok(s)
    ensures SignTransactionWith(codes, crypto, tx, Impostor(signer, s)) == Ok(s)
  {
    assert Obtained(Impostor(signer, s), tx, hash) == Answer(Some(s), tx);
  }

  lemma {:induction false} CheckSeesBytes(
    codes: Codes, crypto: Crypto, s: Signed, a: Transaction, b: Transaction, hash: Text)
    requires Serialized(Sdk(codes), a) == Serialized(Sdk(codes), b)
    ensures CheckSigned(codes, crypto, s, a, hash) == CheckSigned(codes, crypto, s, b, hash)
  {
  }

  /** What a wallet that leaves the object alone gets accepted passes the check against the request. */
  lemma {:induction false} PassesAgainstRequest(codes: Codes, crypto: Crypto, tx: Transaction, signer: Signer)
    requires SignTransactionWith(codes, crypto, tx, signer).Ok? && LeavesRequest(codes, signer, tx)
    ensures tx.sender == signer.address && TransactionHash(codes, crypto, tx).Some?
    ensures var s := SignTransactionWith(codes, crypto, tx, signer).value;
      CheckSigned(codes, crypto, s, tx, TransactionHash(codes, crypto, tx).value) == Ok(s)
  {
    var s := SignTransactionWith(codes, crypto, tx, signer).value;
    SignedIsChecked(codes, crypto, tx, signer);
    var hash := TransactionHash(codes, crypto, tx).value;
    CheckSeesBytes(codes, crypto, s, Obtained(signer, tx, hash).left, tx, hash);
  }

  /** A wallet that gets away with another text of the same scalar values. */
  lemma {:induction false} ForgedChain(
    codes: Codes, crypto: Crypto, tx: Transaction, signer: Signer, other: Text) returns (w: Signer)
    requires CodesOk(codes) && SignTransactionWith(codes, crypto, tx, signer).Ok? && LeavesRequest(codes, signer, tx)
    requires Scalars(other) == Scalars(tx.chainId)
    ensures SignTransactionWith(codes, crypto, tx, w).Ok?
    ensures SignTransactionWith(codes, crypto, tx, w).value.transaction == tx.(chainId := other)
    ensures Serialized(Sdk(codes), tx.(chainId := other)) == Serialized(Sdk(codes), tx)
  {
    var s, forged := SignTransactionWith(codes, crypto, tx, signer).value, tx.(chainId := other);
    var hash := TransactionHash(codes, crypto, tx).value;
    PassesAgainstRequest(codes, crypto, tx, signer);
    CheckedIsRequested(codes, crypto, s, tx, hash);
    BytesDecideTransactions(codes, s.transaction, tx);
    SameScalarsSameBytes(Sdk(codes), tx, other);
    SameBytesPass(codes, crypto, tx, s, hash, forged);
    ImpostorAccepted(codes, crypto, tx, signer, s.(transaction := forged), hash);
    w := Impostor(signer, s.(transaction := forged));
  }

  lemma {:induction false} WalletKeepsChain(codes: Codes, crypto: Crypto, tx: Transaction, signer: Signer)
    requires CodesOk(codes) && SignTransactionWith(codes, crypto, tx, signer).Ok? && Plain(tx.chainId)
    ensures var s := SignTransactionWith(codes, crypto, tx, signer).value;
      || s.transaction.chainId == tx.chainId
      || HashCollision(crypto, Serialized(Sdk(codes), s.transaction), Serialized(Sdk(codes), tx))
  {
    SignedIsRequested(codes, crypto, tx, signer);
  }

  /**
   For a transaction that can be signed at all, wallets are held to its chain
   identifier, short of a collision, if and only if that is plain.
   */
  lemma {:induction false} WalletsKeepChainIff(codes: Codes, crypto: Crypto, tx: Transaction, signer: Signer)
    requires CodesOk(codes) && SignTransactionWith(codes, crypto, tx, signer).Ok? && LeavesRequest(codes, signer, tx)
    ensures WalletsKeepChain(codes, crypto, tx) <==> Plain(tx.chainId)
  {
    OnlyTextIff(tx.chainId);
    if Plain(tx.chainId) {
      forall w: Signer | SignTransactionWith(codes, crypto, tx, w).Ok?
        ensures var s := SignTransactionWith(codes, crypto, tx, w).value;
          || s.transaction.chainId == tx.chainId
          || HashCollision(crypto, Serialized(Sdk(codes), s.transaction), Serialized(Sdk(codes), tx))
      {
        WalletKeepsChain(codes, crypto, tx, w);
      }
    } else {
      var other: Text :| Scalars(other) == Scalars(tx.chainId) && other != tx.chainId;
      var w := ForgedChain(codes, crypto, tx, signer, other);
      var s := SignTransactionWith(codes, crypto, tx, w).value;
      assert s.transaction.chainId == other;
      assert !HashCollision(crypto, Serialized(Sdk(codes), s.transaction), Serialized(Sdk(codes), tx));
    }
  }

  // ---------------------------------------------------------------------
  // Wallets that only sign hashes
  // ---------------------------------------------------------------------

  /** What a key, a digest and a signature must be for a hash-only wallet to be accepted. */
  ghost predicate Honest(codes: Codes, crypto: Crypto, tx: Transaction, signer: Signer) {
    && tx.sender == signer.address
    && var bytes, key := Serialized(Sdk(codes), tx), HexToBytes(signer.publicKey, 32);
      && bytes.Some? && key.Some?
      && var digest := crypto.sha256(bytes.value);
        && |digest| == 32
        && Some(crypto.addressOf(key.value)) == NormalAddress(tx.sender)
        && var signature := signer.sign(digest);
          signature.Some? && |signature.value| == 64 && crypto.verify(key.value, digest, signature.value)
  }

  lemma {:induction false} PrintedReads(b: Bytes, length: nat)
    ensures HexToBytes(BytesToHex(b), length) == if |b| == length then Some(b) else None
  {
    HexToBytesRoundTrip(b);
  }

  lemma {:induction false} HashReads(b: Bytes)
    requires |b| == 32
    ensures NormalHash(BytesToHex(b)) == Some(BytesToHex(b))
  {
    PrintedReads(b, 32);
  }

  /** A hash-only wallet is accepted exactly when its key owns the sender and its signature of the digest is valid. */
  lemma {:induction false} HashWalletIff(codes: Codes, crypto: Crypto, tx: Transaction, signer: Signer)
    requires CodesOk(codes) && signer.signTransaction.None?
    ensures SignTransactionWith(codes, crypto, tx, signer).Ok? <==> Honest(codes, crypto, tx, signer)
  {
    var bytes := Serialized(Sdk(codes), tx);
    if bytes.Some? {
      var digest := crypto.sha256(bytes.value);
      PrintedReads(digest, 32);
      if |digest| == 32 {
        HashReads(digest);
        var signature := signer.sign(digest);
        if signature.Some? {
          PrintedReads(signature.value, 64);
        }
      }
    }
  }

  // ---------------------------------------------------------------------
  // Wallets that sign whole transactions
  // ---------------------------------------------------------------------

  /** A signature of the digest of these bytes by the key named, which owns the sender. */
  ghost predicate ValidFor(crypto: Crypto, s: Signed, bytes: Bytes) {
    var digest, key, signature := crypto.sha256(bytes), HexToBytes(s.publicKey, 32), HexToBytes(s.signature, 64);
    && |digest| == 32 && HexToBytes(s.hash, 32) == Some(digest)
    && key.Some? && Some(crypto.addressOf(key.value)) == NormalAddress(s.transaction.sender)
    && signature.Some? && crypto.verify(key.value, digest, signature.value)
  }

  /** What an answer must be: the bytes of what is left in the object, the digest of the request, and valid. */
  ghost predicate Acceptable(codes: Codes, crypto: Crypto, tx: Transaction, answer: Answer) {
    && answer.signed.Some?
    && var s := answer.signed.value;
      var asked, signed := Serialized(Sdk(codes), tx), Serialized(Sdk(codes), s.transaction);
      && asked.Some? && signed.Some?
      && signed == Serialized(Sdk(codes), answer.left)
      && crypto.sha256(asked.value) == crypto.sha256(signed.value)
      && ValidFor(crypto, s, signed.value)
  }

  lemma {:induction false} DigestTexts(s: Signed, digest: Bytes)
    ensures NormalHash(s.hash) == Some(BytesToHex(digest)) <==> HexToBytes(s.hash, 32) == Some(digest)
  {
    if HexToBytes(s.hash, 32).Some? && BytesToHex(HexToBytes(s.hash, 32).value) == BytesToHex(digest) {
      BytesToHexInjective(HexToBytes(s.hash, 32).value, digest);
    }
  }

  lemma {:induction false} SignatureIff(codes: Codes, crypto: Crypto, s: Signed)
    requires Serialized(Sdk(codes), s.transaction).Some?
    ensures SignatureOk(codes, crypto, s) <==> ValidFor(crypto, s, Serialized(Sdk(codes), s.transaction).value)
  {
    var digest := crypto.sha256(Serialized(Sdk(codes), s.transaction).value);
    DigestTexts(s, digest);
    PrintedReads(digest, 32);
  }

  lemma {:induction false} HexSame(a: Bytes, b: Bytes)
    ensures BytesToHex(a) == BytesToHex(b) <==> a == b
  {
    if BytesToHex(a) == BytesToHex(b) {
      BytesToHexInjective(a, b);
    }
  }

  lemma {:induction false} CheckIff(codes: Codes, crypto: Crypto, s: Signed, left: Transaction, digest: Bytes)
    ensures var r := CheckSigned(codes, crypto, s, left, BytesToHex(digest));
      && (r.Ok? <==> && Serialized(Sdk(codes), s.transaction).Some?
                     && Serialized(Sdk(codes), s.transaction) == Serialized(Sdk(codes), left)
                     && HexToBytes(s.hash, 32) == Some(digest)
                     && SignatureOk(codes, crypto, s))
      && (r.Ok? ==> r == Ok(s))
  {
    var signed, kept := Serialized(Sdk(codes), s.transaction), Serialized(Sdk(codes), left);
    DigestTexts(s, digest);
    if signed.Some? && kept.Some? {
      HexSame(signed.value, kept.value);
    }
  }

  lemma {:induction false} AcceptableIff(codes: Codes, crypto: Crypto, tx: Transaction, s: Signed, left: Transaction)
    requires Serialized(Sdk(codes), tx).Some?
    ensures var hash := BytesToHex(crypto.sha256(Serialized(Sdk(codes), tx).value));
      CheckSigned(codes, crypto, s, left, hash).Ok? <==> Acceptable(codes, crypto, tx, Answer(Some(s), left))
  {
    CheckIff(codes, crypto, s, left, crypto.sha256(Serialized(Sdk(codes), tx).value));
    if Serialized(Sdk(codes), s.transaction).Some? {
      SignatureIff(codes, crypto, s);
    }
  }

  /**
   A wallet that signs transactions is accepted exactly when its answer is
   acceptable, and its answer is what comes back.
  */
  lemma {:induction false} WholeWalletIff(codes: Codes, crypto: Crypto, tx: Transaction, signer: Signer)
    requires signer.signTransaction.Some?
    ensures var r := SignTransactionWith(codes, crypto, tx, signer);
      var answer := signer.signTransaction.value(tx);
      && (r.Ok? <==> tx.sender == signer.address && Acceptable(codes, crypto, tx, answer))
      && (r.Ok? ==> Some(r.value) == answer.signed)
  {
    var answer := signer.signTransaction.value(tx);
    if Serialized(Sdk(codes), tx).Some? && answer.signed.Some? {
      AcceptableIff(codes, crypto, tx, answer.signed.value, answer.left);
      CheckIff(codes, crypto, answer.signed.value, answer.left, crypto.sha256(Serialized(Sdk(codes), tx).value));
    }
  }
}
