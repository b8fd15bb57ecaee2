/** Where every field of a caller's agreement input stands in the bytes built from it. */
module AgreementBytes {
  import opened Wrappers
  import opened Ordering
  import opened Characters
  import opened Numbers
  import opened Bincode
  import opened Agreements
  import opened AgreementWire
  import opened AgreementChecks

  // ---------------------------------------------------------------------
  // What the input says
  // ---------------------------------------------------------------------

  ghost predicate SaysMilestone(m: MilestoneInput, x: MilestoneDef) {
    x.description == Utf8(Scalars(m.description)) && m.amount == Integer(x.amount)
  }

  ghost predicate SaysShare(read: AddressReader, p: PayoutInput, x: PayoutShare) {
    read(p.recipient) == Some(x.recipient) && p.shareBps == Integer(x.shareBps)
  }

  ghost predicate SaysOptional(read: AddressReader, t: Option<Text>, a: Option<Address>) {
    match t
    case None => a.None?
    case Some(text) => a.Some? && read(text) == a
  }

  /** The milestones written, or one for the whole escrow. */
  ghost predicate SaysMilestones(input: AgreementInput, d: AgreementCreateData) {
    if input.milestones.None? || input.milestones.value == [] then
      |d.milestones| == 1
      && SaysMilestone(MilestoneInput(Ascii("Complete agreement"), input.escrowAmount), d.milestones[0])
    else
      && |d.milestones| == |input.milestones.value|
      && forall i :: 0 <= i < |d.milestones| ==> SaysMilestone(input.milestones.value[i], d.milestones[i])
  }

  ghost predicate SaysAllocations(read: AddressReader, input: AgreementInput, d: AgreementCreateData) {
    if input.settlementAllocations.None? then d.settlementAllocations == []
    else
      && |d.settlementAllocations| == |input.settlementAllocations.value|
      && forall i :: 0 <= i < |d.settlementAllocations| ==>
        SaysShare(read, input.settlementAllocations.value[i], d.settlementAllocations[i])
  }

  /** The data is the input, field by field. */
  ghost predicate Says(read: AddressReader, input: AgreementInput, d: AgreementCreateData) {
    && |d.parties| == |input.parties|
    && (forall i :: 0 <= i < |d.parties| ==> read(input.parties[i]) == Some(d.parties[i]))
    && d.terms == input.terms
    && input.escrowAmount == Integer(d.escrowAmount)
    && input.expiresAt == Integer(d.expiresAt)
    && SaysOptional(read, input.arbitrator, d.arbitrator)
    && SaysMilestones(input, d)
    && read(input.serviceProvider) == Some(d.serviceProvider)
    && SaysAllocations(read, input, d)
    && SaysOptional(read, input.settlementApprover, d.settlementApprover)
  }

  lemma {:induction false} MilestonesSaid(ms: seq<MilestoneInput>, xs: seq<MilestoneDef>)
    requires ReadAll(ReadMilestone, ms) == Some(xs)
    ensures |xs| == |ms| && forall i :: 0 <= i < |xs| ==> SaysMilestone(ms[i], xs[i])
  {
    forall i | 0 <= i < |xs|
      ensures SaysMilestone(ms[i], xs[i])
    {
      assert ReadMilestone(ms[i]) == Some(xs[i]);
    }
  }

  lemma {:induction false} SharesSaid(read: AddressReader, ps: seq<PayoutInput>, xs: seq<PayoutShare>)
    requires ReadAll(ShareReader(read), ps) == Some(xs)
    ensures |xs| == |ps| && forall i :: 0 <= i < |xs| ==> SaysShare(read, ps[i], xs[i])
  {
    forall i | 0 <= i < |xs|
      ensures SaysShare(read, ps[i], xs[i])
    {
      assert ShareReader(read)(ps[i]) == Some(xs[i]);
    }
  }

  /** What is built is the input, field by field. */
  lemma {:induction false} InputSays(read: AddressReader, input: AgreementInput)
    requires ToData(read, input).Some?
    ensures Says(read, input, ToData(read, input).value)
  {
    var d := ToData(read, input).value;
    DataReads(read, input, d);
    MilestonesSaid(MilestonesOf(input), d.milestones);
    SharesSaid(read, AllocationsOf(input), d.settlementAllocations);
  }

  // ---------------------------------------------------------------------
  // Where the data stands
  // ---------------------------------------------------------------------

  ghost predicate At(b: Bytes, i: nat, part: Bytes) {
    i + |part| <= |b| && b[i..i + |part|] == part
  }

  lemma {:induction false} AtSplit(b: Bytes, i: nat, x: Bytes, y: Bytes)
    requires At(b, i, x + y)
    ensures At(b, i, x) && At(b, i + |x|, y)
  {
    var t := b[i..i + |x + y|];
    assert t[..|x|] == x && t[|x|..] == y;
  }

  /** Eight bytes that spell a number, lowest byte first (`ByteNumbers.EightBytesSpell`). */
  ghost predicate NumberAt(b: Bytes, i: nat, n: int) {
    i + 8 <= |b| && FromLittleEndian(b[i..i + 8]) == n
  }

  /** A byte string behind its length. */
  ghost predicate StringAt(b: Bytes, i: nat, x: Bytes) {
    NumberAt(b, i, |x|) && At(b, i + 8, x)
  }

  /** A tag of 0, or of 1 and the address. */
  ghost predicate OptionalAt(b: Bytes, i: nat, a: Option<Address>) {
    match a
    case None => At(b, i, [0])
    case Some(v) => At(b, i, [1]) && At(b, i + 1, v)
  }

  function OptionLength(a: Option<Address>): nat {
    if a.None? then 1 else 21
  }

  ghost predicate AddressesAt(b: Bytes, i: nat, xs: seq<Address>)
    decreases |xs|
  {
    xs == [] || (At(b, i, xs[0]) && AddressesAt(b, i + 20, xs[1..]))
  }

  /** The description behind its length, and the amount. */
  ghost predicate MilestoneAt(b: Bytes, i: nat, m: MilestoneDef) {
    StringAt(b, i, m.description) && NumberAt(b, i + 8 + |m.description|, m.amount)
  }

  function MilestonesLength(ms: seq<MilestoneDef>): nat {
    if ms == [] then 0 else 16 + |ms[0].description| + MilestonesLength(ms[1..])
  }

  ghost predicate MilestonesAt(b: Bytes, i: nat, ms: seq<MilestoneDef>)
    decreases |ms|
  {
    ms == [] || (MilestoneAt(b, i, ms[0]) && MilestonesAt(b, i + 16 + |ms[0].description|, ms[1..]))
  }

  /** The recipient, and the share in two bytes. */
  ghost predicate ShareAt(b: Bytes, i: nat, p: PayoutShare) {
    At(b, i, p.recipient) && i + 22 <= |b| && FromLittleEndian(b[i + 20..i + 22]) == p.shareBps
  }

  ghost predicate SharesAt(b: Bytes, i: nat, ps: seq<PayoutShare>)
    decreases |ps|
  {
    ps == [] || (ShareAt(b, i, ps[0]) && SharesAt(b, i + 22, ps[1..]))
  }

  ghost predicate PartyListAt(b: Bytes, i: nat, xs: seq<Address>) {
    NumberAt(b, i, |xs|) && AddressesAt(b, i + 8, xs)
  }

  ghost predicate MilestoneListAt(b: Bytes, i: nat, ms: seq<MilestoneDef>) {
    NumberAt(b, i, |ms|) && MilestonesAt(b, i + 8, ms)
  }

  ghost predicate ShareListAt(b: Bytes, i: nat, ps: seq<PayoutShare>) {
    NumberAt(b, i, |ps|) && SharesAt(b, i + 8, ps)
  }

  function FrontLength(d: AgreementCreateData): nat {
    32 + 20 * |d.parties| + |d.terms| + OptionLength(d.arbitrator)
  }

  /** The parties behind their count, the terms, the escrow, the expiry and the arbitrator. */
  ghost predicate FrontAt(b: Bytes, d: AgreementCreateData) {
    var terms := 8 + 20 * |d.parties|;
    var escrow := terms + 8 + |d.terms|;
    && PartyListAt(b, 0, d.parties)
    && StringAt(b, terms, d.terms)
    && NumberAt(b, escrow, d.escrowAmount) && NumberAt(b, escrow + 8, d.expiresAt)
    && OptionalAt(b, escrow + 16, d.arbitrator)
  }

  /** The milestones behind their count, and the provider. */
  ghost predicate WorkAt(b: Bytes, from: nat, d: AgreementCreateData) {
    && MilestoneListAt(b, from, d.milestones)
    && At(b, from + 8 + MilestonesLength(d.milestones), d.serviceProvider)
  }

  /** The allocations behind their count, the approver, and nothing more. */
  ghost predicate PayeesAt(b: Bytes, from: nat, d: AgreementCreateData) {
    && ShareListAt(b, from, d.settlementAllocations)
    && OptionalAt(b, from + 8 + 22 * |d.settlementAllocations|, d.settlementApprover)
    && |b| == from + 8 + 22 * |d.settlementAllocations| + OptionLength(d.settlementApprover)
  }

  // ---------------------------------------------------------------------
  // Parts
  // ---------------------------------------------------------------------

  lemma {:induction false} IntegerAt(b: Bytes, i: nat, n: nat)
    requires n <= U64_MAX && At(b, i, LittleEndian(n, 8))
    ensures NumberAt(b, i, n)
  {
    Widths();
    LittleEndianRoundTrip(n, 8);
  }

  lemma {:induction false} BytesAt(b: Bytes, i: nat, x: Bytes)
    requires |x| <= U64_MAX && At(b, i, EncodeBytes(x))
    ensures StringAt(b, i, x)
  {
    AtSplit(b, i, LittleEndian(|x|, 8), x);
    IntegerAt(b, i, |x|);
  }

  lemma {:induction false} OptionAt(b: Bytes, i: nat, a: Option<Address>)
    requires At(b, i, EncodeOption(EncodeAddress, a))
    ensures OptionalAt(b, i, a)
  {
    if a.Some? {
      AtSplit(b, i, [1], a.value);
    }
  }

  lemma {:induction false} AllAddressesAt(b: Bytes, i: nat, xs: seq<Address>)
    requires At(b, i, EncodeAll(EncodeAddress, xs))
    ensures AddressesAt(b, i, xs)
    decreases |xs|
  {
    if xs != [] {
      AtSplit(b, i, xs[0], EncodeAll(EncodeAddress, xs[1..]));
      AllAddressesAt(b, i + 20, xs[1..]);
    }
  }

  lemma {:induction false} AddressesLength(xs: seq<Address>)
    ensures |EncodeAll(EncodeAddress, xs)| == 20 * |xs|
    decreases |xs|
  {
    if xs != [] {
      AddressesLength(xs[1..]);
    }
  }

  lemma {:induction false} OneMilestoneAt(b: Bytes, i: nat, m: MilestoneDef)
    requires |m.description| <= U64_MAX && At(b, i, EncodeMilestone(m))
    ensures MilestoneAt(b, i, m)
  {
    AtSplit(b, i, EncodeBytes(m.description), LittleEndian(m.amount, 8));
    BytesAt(b, i, m.description);
    IntegerAt(b, i + 8 + |m.description|, m.amount);
  }

  ghost predicate DescriptionsFit(ms: seq<MilestoneDef>) {
    forall i :: 0 <= i < |ms| ==> |ms[i].description| <= U64_MAX
  }

  lemma {:induction false} AllMilestonesAt(b: Bytes, i: nat, ms: seq<MilestoneDef>)
    requires DescriptionsFit(ms) && At(b, i, EncodeAll(EncodeMilestone, ms))
    ensures MilestonesAt(b, i, ms)
    decreases |ms|
  {
    if ms != [] {
      AtSplit(b, i, EncodeMilestone(ms[0]), EncodeAll(EncodeMilestone, ms[1..]));
      OneMilestoneAt(b, i, ms[0]);
      AllMilestonesAt(b, i + 16 + |ms[0].description|, ms[1..]);
    }
  }

  lemma {:induction false} MilestonesSize(ms: seq<MilestoneDef>)
    ensures |EncodeAll(EncodeMilestone, ms)| == MilestonesLength(ms)
    decreases |ms|
  {
    if ms != [] {
      MilestonesSize(ms[1..]);
    }
  }

  lemma {:induction false} OneShareAt(b: Bytes, i: nat, p: PayoutShare)
    requires At(b, i, EncodeShare(p))
    ensures ShareAt(b, i, p)
  {
    AtSplit(b, i, p.recipient, LittleEndian(p.shareBps, 2));
    Widths();
    LittleEndianRoundTrip(p.shareBps, 2);
  }

  lemma {:induction false} AllSharesAt(b: Bytes, i: nat, ps: seq<PayoutShare>)
    requires At(b, i, EncodeAll(EncodeShare, ps))
    ensures SharesAt(b, i, ps)
    decreases |ps|
  {
    if ps != [] {
      AtSplit(b, i, EncodeShare(ps[0]), EncodeAll(EncodeShare, ps[1..]));
      OneShareAt(b, i, ps[0]);
      AllSharesAt(b, i + 22, ps[1..]);
    }
  }

  lemma {:induction false} SharesSize(ps: seq<PayoutShare>)
    ensures |EncodeAll(EncodeShare, ps)| == 22 * |ps|
    decreases |ps|
  {
    if ps != [] {
      SharesSize(ps[1..]);
    }
  }

  // ---------------------------------------------------------------------
  // The whole
  // ---------------------------------------------------------------------

  lemma {:induction false} FiveParts(b: Bytes, i: nat, x1: Bytes, x2: Bytes, x3: Bytes, x4: Bytes, x5: Bytes)
    requires At(b, i, x1 + (x2 + (x3 + (x4 + x5))))
    ensures At(b, i, x1) && At(b, i + |x1|, x2) && At(b, i + |x1| + |x2|, x3)
    ensures At(b, i + |x1| + |x2| + |x3|, x4) && At(b, i + |x1| + |x2| + |x3| + |x4|, x5)
  {
    AtSplit(b, i, x1, x2 + (x3 + (x4 + x5)));
    AtSplit(b, i + |x1|, x2, x3 + (x4 + x5));
    AtSplit(b, i + |x1| + |x2|, x3, x4 + x5);
    AtSplit(b, i + |x1| + |x2| + |x3|, x4, x5);
  }

  lemma {:induction false} PartiesField(b: Bytes, i: nat, xs: seq<Address>)
    requires |xs| <= U64_MAX && At(b, i, EncodeVec(EncodeAddress, xs))
    ensures |EncodeVec(EncodeAddress, xs)| == 8 + 20 * |xs|
    ensures PartyListAt(b, i, xs)
  {
    AddressesLength(xs);
    AtSplit(b, i, LittleEndian(|xs|, 8), EncodeAll(EncodeAddress, xs));
    IntegerAt(b, i, |xs|);
    AllAddressesAt(b, i + 8, xs);
  }

  lemma {:induction false} MilestonesField(b: Bytes, i: nat, ms: seq<MilestoneDef>)
    requires |ms| <= U64_MAX && DescriptionsFit(ms) && At(b, i, EncodeVec(EncodeMilestone, ms))
    ensures |EncodeVec(EncodeMilestone, ms)| == 8 + MilestonesLength(ms)
    ensures MilestoneListAt(b, i, ms)
  {
    MilestonesSize(ms);
    AtSplit(b, i, LittleEndian(|ms|, 8), EncodeAll(EncodeMilestone, ms));
    IntegerAt(b, i, |ms|);
    AllMilestonesAt(b, i + 8, ms);
  }

  lemma {:induction false} SharesField(b: Bytes, i: nat, ps: seq<PayoutShare>)
    requires |ps| <= U64_MAX && At(b, i, EncodeVec(EncodeShare, ps))
    ensures |EncodeVec(EncodeShare, ps)| == 8 + 22 * |ps|
    ensures ShareListAt(b, i, ps)
  {
    SharesSize(ps);
    AtSplit(b, i, LittleEndian(|ps|, 8), EncodeAll(EncodeShare, ps));
    IntegerAt(b, i, |ps|);
    AllSharesAt(b, i + 8, ps);
  }

  lemma {:induction false} FrontSize(d: AgreementCreateData)
    ensures |EncodeFront(d)| == FrontLength(d)
    ensures |EncodeVec(EncodeAddress, d.parties)| == 8 + 20 * |d.parties| && |EncodeBytes(d.terms)| == 8 + |d.terms|
  {
    AddressesLength(d.parties);
  }

  lemma {:induction false} FrontSplit(b: Bytes, d: AgreementCreateData)
    requires At(b, 0, EncodeFront(d))
    ensures var escrow := 16 + 20 * |d.parties| + |d.terms|;
      && At(b, 0, EncodeVec(EncodeAddress, d.parties))
      && At(b, 8 + 20 * |d.parties|, EncodeBytes(d.terms))
      && At(b, escrow, EncodeU64(d.escrowAmount)) && At(b, escrow + 8, EncodeU64(d.expiresAt))
      && At(b, escrow + 16, EncodeOption(EncodeAddress, d.arbitrator))
  {
    FrontSize(d);
    FiveParts(b, 0, EncodeVec(EncodeAddress, d.parties), EncodeBytes(d.terms), EncodeU64(d.escrowAmount),
              EncodeU64(d.expiresAt), EncodeOption(EncodeAddress, d.arbitrator));
  }

  lemma {:induction false} FrontParties(b: Bytes, d: AgreementCreateData)
    requires LengthsFit(d) && At(b, 0, EncodeFront(d))
    ensures PartyListAt(b, 0, d.parties) && StringAt(b, 8 + 20 * |d.parties|, d.terms)
  {
    FrontSplit(b, d);
    PartiesField(b, 0, d.parties);
    BytesAt(b, 8 + 20 * |d.parties|, d.terms);
  }

  lemma {:induction false} FrontAmounts(b: Bytes, d: AgreementCreateData)
    requires At(b, 0, EncodeFront(d))
    ensures NumberAt(b, 16 + 20 * |d.parties| + |d.terms|, d.escrowAmount)
    ensures NumberAt(b, 24 + 20 * |d.parties| + |d.terms|, d.expiresAt)
  {
    FrontSplit(b, d);
    IntegerAt(b, 16 + 20 * |d.parties| + |d.terms|, d.escrowAmount);
    IntegerAt(b, 24 + 20 * |d.parties| + |d.terms|, d.expiresAt);
  }

  lemma {:induction false} FrontArbitrator(b: Bytes, d: AgreementCreateData)
    requires At(b, 0, EncodeFront(d))
    ensures OptionalAt(b, 32 + 20 * |d.parties| + |d.terms|, d.arbitrator)
  {
    FrontSplit(b, d);
    OptionAt(b, 32 + 20 * |d.parties| + |d.terms|, d.arbitrator);
  }

  lemma {:induction false} FrontFields(b: Bytes, d: AgreementCreateData)
    requires LengthsFit(d) && At(b, 0, EncodeFront(d))
    ensures FrontAt(b, d)
  {
    FrontParties(b, d);
    FrontAmounts(b, d);
    FrontArbitrator(b, d);
  }

  lemma {:induction false} BackSize(d: AgreementCreateData)
    ensures |EncodeVec(EncodeMilestone, d.milestones)| == 8 + MilestonesLength(d.milestones)
    ensures |EncodeVec(EncodeShare, d.settlementAllocations)| == 8 + 22 * |d.settlementAllocations|
    ensures |EncodeBack(d)| ==
      36 + MilestonesLength(d.milestones) + 22 * |d.settlementAllocations| + OptionLength(d.settlementApprover)
  {
    MilestonesSize(d.milestones);
    SharesSize(d.settlementAllocations);
  }

  lemma {:induction false} BackSplit(b: Bytes, from: nat, d: AgreementCreateData)
    requires At(b, from, EncodeBack(d))
    ensures var m, l := EncodeVec(EncodeMilestone, d.milestones), EncodeVec(EncodeShare, d.settlementAllocations);
      && At(b, from, m) && At(b, from + |m|, d.serviceProvider) && At(b, from + |m| + 20, l)
      && At(b, from + |m| + 20 + |l|, EncodeOption(EncodeAddress, d.settlementApprover))
  {
    FourParts(b, from, EncodeVec(EncodeMilestone, d.milestones), EncodeAddress(d.serviceProvider),
              EncodeVec(EncodeShare, d.settlementAllocations), EncodeOption(EncodeAddress, d.settlementApprover));
  }

  lemma {:induction false} BackWork(b: Bytes, from: nat, d: AgreementCreateData)
    requires LengthsFit(d) && At(b, from, EncodeBack(d))
    ensures WorkAt(b, from, d)
  {
    BackSplit(b, from, d);
    MilestonesField(b, from, d.milestones);
  }

  lemma {:induction false} BackPayees(b: Bytes, from: nat, d: AgreementCreateData)
    requires LengthsFit(d) && At(b, from, EncodeBack(d)) && |b| == from + |EncodeBack(d)|
    ensures PayeesAt(b, from + 28 + MilestonesLength(d.milestones), d)
  {
    var payees := from + 28 + MilestonesLength(d.milestones);
    BackSplit(b, from, d);
    BackSize(d);
    SharesField(b, payees, d.settlementAllocations);
    OptionAt(b, payees + 8 + 22 * |d.settlementAllocations|, d.settlementApprover);
  }

  lemma {:induction false} FourParts(b: Bytes, i: nat, x1: Bytes, x2: Bytes, x3: Bytes, x4: Bytes)
    requires At(b, i, x1 + (x2 + (x3 + x4)))
    ensures At(b, i, x1) && At(b, i + |x1|, x2)
    ensures At(b, i + |x1| + |x2|, x3) && At(b, i + |x1| + |x2| + |x3|, x4)
  {
    AtSplit(b, i, x1, x2 + (x3 + x4));
    AtSplit(b, i + |x1|, x2, x3 + x4);
    AtSplit(b, i + |x1| + |x2|, x3, x4);
  }

  /** The bytes of an agreement hold its parties, terms, amounts and arbitrator in their places ... */
  lemma {:induction false} EncodedFront(d: AgreementCreateData)
    requires LengthsFit(d)
    ensures FrontAt(EncodeAgreement(d), d)
  {
    AtWhole(EncodeFront(d), EncodeBack(d));
    FrontFields(EncodeAgreement(d), d);
  }

  /** ... then its milestones and provider ... */
  lemma {:induction false} EncodedWork(d: AgreementCreateData)
    requires LengthsFit(d)
    ensures WorkAt(EncodeAgreement(d), FrontLength(d), d)
  {
    FrontSize(d);
    AtWhole(EncodeFront(d), EncodeBack(d));
    BackWork(EncodeAgreement(d), FrontLength(d), d);
  }

  /** ... then its allocations and approver, and nothing more. */
  lemma {:induction false} EncodedPayees(d: AgreementCreateData)
    requires LengthsFit(d)
    ensures PayeesAt(EncodeAgreement(d), FrontLength(d) + 28 + MilestonesLength(d.milestones), d)
  {
    FrontSize(d);
    AtWhole(EncodeFront(d), EncodeBack(d));
    BackPayees(EncodeAgreement(d), FrontLength(d), d);
  }

  lemma {:induction false} AtWhole(x: Bytes, y: Bytes)
    ensures At(x + y, 0, x) && At(x + y, |x|, y)
  {
  }
}
