/**
 Building an agreement creation: the client's checks, the encoder's checks
 and the bytes, which the chain decodes and accepts.
 */
module AgreementBuilder {
  import opened Wrappers
  import opened Ordering
  import opened Characters
  import opened Bincode
  import opened Numbers
  import opened Agreements
  import opened AgreementWire
  import opened AgreementChecks

  // ---------------------------------------------------------------------
  // Writing
  // ---------------------------------------------------------------------

  function AddressField(read: AddressReader): Callback<Text> {
    t => WriteAddress(read, t)
  }

  function WriteAddress(read: AddressReader, t: Text): Option<Bytes> {
    var a :- read(t);
    Some(EncodeAddress(a))
  }

  function ShareField(read: AddressReader): Callback<PayoutInput> {
    p => WriteShare(read, p)
  }

  function WriteShare(read: AddressReader, p: PayoutInput): Option<Bytes> {
    var share :- ReadShare(read, p);
    Some(EncodeShare(share))
  }

  function WriteMilestone(m: MilestoneInput): Option<Bytes> {
    var milestone :- ReadMilestone(m);
    Some(EncodeMilestone(milestone))
  }

  /** A list written element by element is the encoding of the list it reads as. */
  lemma {:induction false} WrittenAsRead<A, B>(read: A -> Option<B>, write: Callback<A>, encode: Encoder<B>, xs: seq<A>)
    requires ReadAll(read, xs).Some?
    requires forall i :: 0 <= i < |xs| ==> read(xs[i]).Some? && write(xs[i]) == Some(encode(read(xs[i]).value))
    ensures EncodeAll(Total(write), xs) == EncodeAll(encode, ReadAll(read, xs).value)
    decreases |xs|
  {
    if xs != [] {
      var ys := ReadAll(read, xs).value;
      assert forall i :: 0 <= i < |xs[1..]| ==> xs[1..][i] == xs[i + 1];
      WrittenAsRead(read, write, encode, xs[1..]);
      assert ys[0] == read(xs[0]).value;
      assert ReadAll(read, xs[1..]).value == ys[1..];
    }
  }

  method WriteAddresses(read: AddressReader, writer: BincodeWriter, texts: seq<Text>, ghost xs: seq<Address>)
    requires ReadAll(read, texts) == Some(xs) && |xs| <= U64_MAX
    modifies writer
    ensures writer.Written() == old(writer.Written()) + EncodeVec(EncodeAddress, xs)
  {
    WrittenAsRead(read, AddressField(read), EncodeAddress, texts);
    var ok := writer.WriteVec(texts, AddressField(read));
  }

  method WriteMilestones(writer: BincodeWriter, ms: seq<MilestoneInput>, ghost xs: seq<MilestoneDef>)
    requires ReadAll(ReadMilestone, ms) == Some(xs) && |xs| <= U64_MAX
    modifies writer
    ensures writer.Written() == old(writer.Written()) + EncodeVec(EncodeMilestone, xs)
  {
    WrittenAsRead(ReadMilestone, WriteMilestone, EncodeMilestone, ms);
    var ok := writer.WriteVec(ms, WriteMilestone);
  }

  method WriteShares(read: AddressReader, writer: BincodeWriter, ps: seq<PayoutInput>, ghost xs: seq<PayoutShare>)
    requires ReadAll(ShareReader(read), ps) == Some(xs) && |xs| <= U64_MAX
    modifies writer
    ensures writer.Written() == old(writer.Written()) + EncodeVec(EncodeShare, xs)
  {
    WrittenAsRead(ShareReader(read), ShareField(read), EncodeShare, ps);
    var ok := writer.WriteVec(ps, ShareField(read));
  }

  method WriteOptionalAddress(read: AddressReader, writer: BincodeWriter, t: Option<Text>, ghost x: Option<Address>)
    requires ReadOptional(read, t) == Some(x)
    modifies writer
    ensures writer.Written() == old(writer.Written()) + EncodeOption(EncodeAddress, x)
  {
    var ok := writer.WriteOption(t, AddressField(read));
  }

  method WriteU64(writer: BincodeWriter, v: Numeric, ghost n: U64)
    requires InRange(v, U64_MAX) == Some(n)
    modifies writer
    ensures writer.Written() == old(writer.Written()) + EncodeU64(n)
  {
    Widths();
    var ok := writer.WriteInteger(v, 8);
  }

  method WriteFront(read: AddressReader, writer: BincodeWriter, input: AgreementInput, ghost d: AgreementCreateData)
    requires FrontReads(read, input, d) && LengthsFit(d)
    modifies writer
    ensures writer.Written() == old(writer.Written()) + EncodeFront(d)
  {
    ghost var start := writer.Written();
    ghost var p, t, e, x :=
      EncodeVec(EncodeAddress, d.parties), EncodeBytes(d.terms), EncodeU64(d.escrowAmount), EncodeU64(d.expiresAt);
    ghost var a := EncodeOption(EncodeAddress, d.arbitrator);
    WriteAddresses(read, writer, input.parties, d.parties);
    var ok := writer.WriteBytes(input.terms);
    WriteU64(writer, input.escrowAmount, d.escrowAmount);
    WriteU64(writer, input.expiresAt, d.expiresAt);
    WriteOptionalAddress(read, writer, input.arbitrator, d.arbitrator);
    Regroup(start + p + t + e, x, a);
    Regroup(start + p + t, e, x + a);
    Regroup(start + p, t, e + (x + a));
    Regroup(start, p, t + (e + (x + a)));
  }

  method WriteBack(read: AddressReader, writer: BincodeWriter, input: AgreementInput, ghost d: AgreementCreateData)
    requires BackReads(read, input, d) && LengthsFit(d)
    modifies writer
    ensures writer.Written() == old(writer.Written()) + EncodeBack(d)
  {
    ghost var start := writer.Written();
    ghost var m, s, l :=
      EncodeVec(EncodeMilestone, d.milestones), EncodeAddress(d.serviceProvider),
      EncodeVec(EncodeShare, d.settlementAllocations);
    ghost var a := EncodeOption(EncodeAddress, d.settlementApprover);
    WriteMilestones(writer, MilestonesOf(input), d.milestones);
    writer.WriteRaw(read(input.serviceProvider).value);
    WriteShares(read, writer, AllocationsOf(input), d.settlementAllocations);
    WriteOptionalAddress(read, writer, input.settlementApprover, d.settlementApprover);
    Regroup(start + m + s, l, a);
    Regroup(start + m, s, l + a);
    Regroup(start, m, s + (l + a));
  }

  lemma {:induction false} CountWithinSum(ns: seq<nat>)
    requires forall i :: 0 <= i < |ns| ==> ns[i] > 0
    ensures |ns| <= Sum(ns)
    decreases |ns|
  {
    if ns != [] {
      CountWithinSum(ns[1..]);
    }
  }

  lemma {:induction false} AcceptedFits(d: AgreementCreateData)
    requires EncoderOk(d)
    ensures LengthsFit(d)
  {
    if d.settlementAllocations != [] {
      CountWithinSum(Shares(d.settlementAllocations));
    }
  }

  method WriteAgreement(read: AddressReader, input: AgreementInput, ghost d: AgreementCreateData) returns (out: Bytes)
    requires FrontReads(read, input, d) && BackReads(read, input, d) && LengthsFit(d)
    ensures out == EncodeAgreement(d)
  {
    var writer := new BincodeWriter();
    WriteFront(read, writer, input, d);
    WriteBack(read, writer, input, d);
    var buffer := writer.Finish();
    out := buffer[..];
    FromEmpty(EncodeFront(d), EncodeBack(d));
  }

  lemma {:induction false} FromEmpty(a: Bytes, b: Bytes)
    ensures [] + a + b == a + b
  {
  }

  /** encodeAgreementCreateData. */
  method EncodeAgreementCreateData(read: AddressReader, input: AgreementInput) returns (r: Option<Bytes>)
    ensures r.Some? <==> ToData(read, input).Some? && EncoderOk(ToData(read, input).value)
    ensures r.Some? ==> r.value == EncodeAgreement(ToData(read, input).value)
  {
    ghost var data := ToData(read, input);
    if data.Some? {
      DataReads(read, input, data.value);
    }
    var ok := ValidateInput(read, input);
    if !ok || InRange(input.expiresAt, U64_MAX).None? {
      return None;
    }
    AcceptedFits(data.value);
    var out := WriteAgreement(read, input, data.value);
    r := Some(out);
  }

  /** What the chain makes of an input: it stands for an agreement the chain's validator accepts. */
  ghost predicate ChainAccepts(read: AddressReader, signer: Text, input: AgreementInput) {
    && read(signer).Some?
    && ToData(read, input).Some?
    && RustAccepts(read(signer).value, ToData(read, input).value, SameAddress)
  }

  /** The client builds an agreement exactly when the chain accepts what it encodes. */
  method BuildCreateAgreement(read: AddressReader, signer: Text, input: AgreementInput) returns (r: Option<Bytes>)
    ensures r.Some? <==> ChainAccepts(read, signer, input)
    ensures r.Some? ==> DecodeAgreement(r.value) == Some((ToData(read, input).value, []))
  {
    var ok := ClientChecks(read, signer, input);
    r := None;
    if ok {
      r := EncodeAgreementCreateData(read, input);
    }
    ghost var data := ToData(read, input);
    if data.Some? && read(signer).Some? {
      ChecksAgree(read(signer).value, data.value);
      if r.Some? {
        AcceptedFits(data.value);
        AgreementRoundTrip(data.value, []);
        assert r.value + [] == r.value;
      }
    }
  }
}
