/** The wire form of agreement creation data, and that it reads back. */
module AgreementWire {
  import opened Wrappers
  import opened Ordering
  import opened Agreements
  import opened Bincode
  import opened Numbers

  // ---------------------------------------------------------------------
  // The parts
  // ---------------------------------------------------------------------

  function EncodeAddress(a: Address): Bytes {
    a
  }

  function DecodeAddress(input: Bytes): Option<(Address, Bytes)> {
    if |input| < 20 then None else Some((input[..20], input[20..]))
  }

  function EncodeU64(n: U64): Bytes {
    LittleEndian(n, 8)
  }

  lemma {:induction false} LittleEndianBound(b: Bytes)
    ensures FromLittleEndian(b) < Pow256(|b|)
    decreases |b|
  {
    if b != [] {
      LittleEndianBound(b[1..]);
    }
  }

  function DecodeU64(input: Bytes): Option<(U64, Bytes)> {
    if |input| < 8 then None
    else
      LittleEndianBound(input[..8]);
      Widths();
      Some((FromLittleEndian(input[..8]), input[8..]))
  }

  function DecodeU16(input: Bytes): Option<(U16, Bytes)> {
    if |input| < 2 then None
    else
      LittleEndianBound(input[..2]);
      Widths();
      Some((FromLittleEndian(input[..2]), input[2..]))
  }

  function EncodeMilestone(m: MilestoneDef): Bytes {
    EncodeBytes(m.description) + EncodeU64(m.amount)
  }

  function DecodeMilestone(input: Bytes): Option<(MilestoneDef, Bytes)> {
    var (description, r1) :- DecodeBytes(input);
    var (amount, r2) :- DecodeU64(r1);
    Some((MilestoneDef(description, amount), r2))
  }

  function EncodeShare(p: PayoutShare): Bytes {
    p.recipient + LittleEndian(p.shareBps, 2)
  }

  function DecodeShare(input: Bytes): Option<(PayoutShare, Bytes)> {
    var (recipient, r1) :- DecodeAddress(input);
    var (share, r2) :- DecodeU16(r1);
    Some((PayoutShare(recipient, share), r2))
  }

  lemma {:induction false} AddressRecovers(a: Address)
    ensures Recovers(EncodeAddress, DecodeAddress, a)
  {
  }

  lemma {:induction false} U64RoundTrip(n: U64, rest: Bytes)
    ensures DecodeU64(EncodeU64(n) + rest) == Some((n, rest))
  {
    Widths();
    RawRoundTrip(EncodeU64(n), rest);
    LittleEndianRoundTrip(n, 8);
  }

  lemma {:induction false} MilestoneRecovers(m: MilestoneDef)
    requires |m.description| <= U64_MAX
    ensures Recovers(EncodeMilestone, DecodeMilestone, m)
  {
    forall rest: Bytes
      ensures DecodeMilestone(EncodeMilestone(m) + rest) == Some((m, rest))
    {
      Regroup(EncodeBytes(m.description), EncodeU64(m.amount), rest);
      BytesRoundTrip(m.description, EncodeU64(m.amount) + rest);
      U64RoundTrip(m.amount, rest);
    }
  }

  lemma {:induction false} ShareRecovers(p: PayoutShare)
    ensures Recovers(EncodeShare, DecodeShare, p)
  {
    forall rest: Bytes
      ensures DecodeShare(EncodeShare(p) + rest) == Some((p, rest))
    {
      var share := LittleEndian(p.shareBps, 2);
      Regroup(p.recipient, share, rest);
      RawRoundTrip(p.recipient, share + rest);
      Widths();
      RawRoundTrip(share, rest);
      LittleEndianRoundTrip(p.shareBps, 2);
    }
  }

  // ---------------------------------------------------------------------
  // The whole
  // ---------------------------------------------------------------------

  function EncodeFront(d: AgreementCreateData): Bytes {
    EncodeVec(EncodeAddress, d.parties)
    + (EncodeBytes(d.terms)
    + (EncodeU64(d.escrowAmount)
    + (EncodeU64(d.expiresAt)
    + EncodeOption(EncodeAddress, d.arbitrator))))
  }

  function EncodeBack(d: AgreementCreateData): Bytes {
    EncodeVec(EncodeMilestone, d.milestones)
    + (EncodeAddress(d.serviceProvider)
    + (EncodeVec(EncodeShare, d.settlementAllocations)
    + EncodeOption(EncodeAddress, d.settlementApprover)))
  }

  function EncodeAgreement(d: AgreementCreateData): Bytes {
    EncodeFront(d) + EncodeBack(d)
  }

  datatype Front = Front(
    parties: seq<Address>, terms: Bytes, escrowAmount: U64, expiresAt: U64, arbitrator: Option<Address>)

  datatype Back = Back(
    milestones: seq<MilestoneDef>, serviceProvider: Address, allocations: seq<PayoutShare>, approver: Option<Address>)

  function DecodeFront(input: Bytes): Option<(Front, Bytes)> {
    var (parties, r1) :- DecodeVec(DecodeAddress, input);
    var (terms, r2) :- DecodeBytes(r1);
    var (escrow, r3) :- DecodeU64(r2);
    var (expires, r4) :- DecodeU64(r3);
    var (arbitrator, r5) :- DecodeOption(DecodeAddress, r4);
    Some((Front(parties, terms, escrow, expires, arbitrator), r5))
  }

  function DecodeBack(input: Bytes): Option<(Back, Bytes)> {
    var (milestones, r1) :- DecodeVec(DecodeMilestone, input);
    var (provider, r2) :- DecodeAddress(r1);
    var (allocations, r3) :- DecodeVec(DecodeShare, r2);
    var (approver, r4) :- DecodeOption(DecodeAddress, r3);
    Some((Back(milestones, provider, allocations, approver), r4))
  }

  function DecodeAgreement(input: Bytes): Option<(AgreementCreateData, Bytes)> {
    var (f, r1) :- DecodeFront(input);
    var (b, r2) :- DecodeBack(r1);
    Some((AgreementCreateData(f.parties, f.terms, f.escrowAmount, f.expiresAt, f.arbitrator,
                              b.milestones, b.serviceProvider, b.allocations, b.approver), r2))
  }

  /** Lengths that a 64-bit count can carry. */
  ghost predicate LengthsFit(d: AgreementCreateData) {
    && |d.parties| <= U64_MAX
    && |d.terms| <= U64_MAX
    && |d.milestones| <= U64_MAX
    && |d.settlementAllocations| <= U64_MAX
    && forall i :: 0 <= i < |d.milestones| ==> |d.milestones[i].description| <= U64_MAX
  }

  lemma {:induction false} OptionalAddress(a: Option<Address>, rest: Bytes)
    ensures DecodeOption(DecodeAddress, EncodeOption(EncodeAddress, a) + rest) == Some((a, rest))
  {
    if a.Some? {
      AddressRecovers(a.value);
    }
    OptionRoundTrip(EncodeAddress, DecodeAddress, a, rest);
  }

  lemma {:induction false} Parties(parties: seq<Address>, rest: Bytes)
    requires |parties| <= U64_MAX
    ensures DecodeVec(DecodeAddress, EncodeVec(EncodeAddress, parties) + rest) == Some((parties, rest))
  {
    forall i | 0 <= i < |parties|
      ensures Recovers(EncodeAddress, DecodeAddress, parties[i])
    {
      AddressRecovers(parties[i]);
    }
    VecRoundTrip(EncodeAddress, DecodeAddress, parties, rest);
  }

  lemma {:induction false} Milestones(ms: seq<MilestoneDef>, rest: Bytes)
    requires |ms| <= U64_MAX
    requires forall i :: 0 <= i < |ms| ==> |ms[i].description| <= U64_MAX
    ensures DecodeVec(DecodeMilestone, EncodeVec(EncodeMilestone, ms) + rest) == Some((ms, rest))
  {
    forall i | 0 <= i < |ms|
      ensures Recovers(EncodeMilestone, DecodeMilestone, ms[i])
    {
      MilestoneRecovers(ms[i]);
    }
    VecRoundTrip(EncodeMilestone, DecodeMilestone, ms, rest);
  }

  lemma {:induction false} Allocations(ps: seq<PayoutShare>, rest: Bytes)
    requires |ps| <= U64_MAX
    ensures DecodeVec(DecodeShare, EncodeVec(EncodeShare, ps) + rest) == Some((ps, rest))
  {
    forall i | 0 <= i < |ps|
      ensures Recovers(EncodeShare, DecodeShare, ps[i])
    {
      ShareRecovers(ps[i]);
    }
    VecRoundTrip(EncodeShare, DecodeShare, ps, rest);
  }

  lemma {:induction false} FrontRoundTrip(d: AgreementCreateData, rest: Bytes)
    requires LengthsFit(d)
    ensures DecodeFront(EncodeFront(d) + rest)
            == Some((Front(d.parties, d.terms, d.escrowAmount, d.expiresAt, d.arbitrator), rest))
  {
    var p, t, e, x :=
      EncodeVec(EncodeAddress, d.parties), EncodeBytes(d.terms), EncodeU64(d.escrowAmount), EncodeU64(d.expiresAt);
    var a := EncodeOption(EncodeAddress, d.arbitrator);
    Regroup(x, a, rest);
    Regroup(e, x + a, rest);
    Regroup(t, e + (x + a), rest);
    Regroup(p, t + (e + (x + a)), rest);
    Parties(d.parties, t + (e + (x + (a + rest))));
    BytesRoundTrip(d.terms, e + (x + (a + rest)));
    U64RoundTrip(d.escrowAmount, x + (a + rest));
    U64RoundTrip(d.expiresAt, a + rest);
    OptionalAddress(d.arbitrator, rest);
  }

  lemma {:induction false} BackRoundTrip(d: AgreementCreateData, rest: Bytes)
    requires LengthsFit(d)
    ensures DecodeBack(EncodeBack(d) + rest)
            == Some((Back(d.milestones, d.serviceProvider, d.settlementAllocations, d.settlementApprover), rest))
  {
    var m, s, l :=
      EncodeVec(EncodeMilestone, d.milestones), EncodeAddress(d.serviceProvider),
      EncodeVec(EncodeShare, d.settlementAllocations);
    var a := EncodeOption(EncodeAddress, d.settlementApprover);
    Regroup(l, a, rest);
    Regroup(s, l + a, rest);
    Regroup(m, s + (l + a), rest);
    Milestones(d.milestones, s + (l + (a + rest)));
    AddressRecovers(d.serviceProvider);
    assert DecodeAddress(s + (l + (a + rest))) == Some((d.serviceProvider, l + (a + rest)));
    Allocations(d.settlementAllocations, a + rest);
    OptionalAddress(d.settlementApprover, rest);
  }

  /** Agreement data reads back from its encoding, whatever follows it. */
  lemma {:induction false} AgreementRoundTrip(d: AgreementCreateData, rest: Bytes)
    requires LengthsFit(d)
    ensures DecodeAgreement(EncodeAgreement(d) + rest) == Some((d, rest))
  {
    Regroup(EncodeFront(d), EncodeBack(d), rest);
    FrontRoundTrip(d, EncodeBack(d) + rest);
    BackRoundTrip(d, rest);
  }
}
