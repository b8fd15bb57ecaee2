/** Agreement creation data, and what the chain accepts of it. */
module Agreements {
  import opened Wrappers
  import opened Ordering
  import opened Numbers

  const FULL_SHARE: nat := 10000

  type U16 = n: int | 0 <= n < 0x1_0000
  type U64 = n: int | 0 <= n < 0x1_0000_0000_0000_0000
  type Address = a: Bytes | |a| == 20 witness seq(20, i => 0)

  datatype PayoutShare = PayoutShare(recipient: Address, shareBps: U16)

  datatype MilestoneDef = MilestoneDef(description: Bytes, amount: U64)

  datatype AgreementCreateData = AgreementCreateData(
    parties: seq<Address>,
    terms: Bytes,
    escrowAmount: U64,
    expiresAt: U64,
    arbitrator: Option<Address>,
    milestones: seq<MilestoneDef>,
    serviceProvider: Address,
    settlementAllocations: seq<PayoutShare>,
    settlementApprover: Option<Address>
  )

  /** Whether two addresses belong to one entity. */
  type SameEntity = (Address, Address) -> bool

  datatype AgreementError =
    | TooFewParties | TooManyParties | ProposerNotParty | DuplicateParty | NoEscrow | TermsTooLarge
    | NoMilestones | MilestonesOverflow | MilestoneTotal | TooManyMilestones | DescriptionTooLong
    | ArbitratorIsParty | ArbitratorSameEntity
    | ProviderNotParty | ProviderIsProposer
    | ZeroShare | RecipientNotParty | DuplicateRecipient | ShareTotal | NoThirdParty | ProviderUnpaid
    | ApproverNotParty | ApproverMissing | ApproverIsPaid

  // ---------------------------------------------------------------------
  // Sums
  // ---------------------------------------------------------------------

  function Sum(ns: seq<nat>): nat {
    if ns == [] then 0 else ns[0] + Sum(ns[1..])
  }

  lemma {:induction false} SumAppend(xs: seq<nat>, ys: seq<nat>)
    ensures Sum(xs + ys) == Sum(xs) + Sum(ys)
    decreases |xs|
  {
    if xs == [] {
      assert xs + ys == ys;
    } else {
      assert (xs + ys)[0] == xs[0] && (xs + ys)[1..] == xs[1..] + ys;
      SumAppend(xs[1..], ys);
    }
  }

  lemma {:induction false} SumSnoc(xs: seq<nat>, i: nat)
    requires i < |xs|
    ensures Sum(xs[..i + 1]) == Sum(xs[..i]) + xs[i]
  {
    assert xs[..i + 1] == xs[..i] + [xs[i]];
    SumAppend(xs[..i], [xs[i]]);
  }

  lemma {:induction false} SumPrefix(xs: seq<nat>, i: nat)
    requires i <= |xs|
    ensures Sum(xs[..i]) <= Sum(xs)
  {
    assert xs == xs[..i] + xs[i..];
    SumAppend(xs[..i], xs[i..]);
  }

  function Amounts(ms: seq<MilestoneDef>): (ns: seq<nat>)
    ensures |ns| == |ms| && forall i :: 0 <= i < |ms| ==> ns[i] == ms[i].amount
  {
    seq(|ms|, i requires 0 <= i < |ms| => AmountOf(ms[i]))
  }

  function AmountOf(m: MilestoneDef): nat {
    m.amount
  }

  function Shares(ps: seq<PayoutShare>): (ns: seq<nat>)
    ensures |ns| == |ps| && forall i :: 0 <= i < |ps| ==> ns[i] == ps[i].shareBps
  {
    seq(|ps|, i requires 0 <= i < |ps| => ShareOf(ps[i]))
  }

  function ShareOf(p: PayoutShare): nat {
    p.shareBps
  }

  // ---------------------------------------------------------------------
  // What the chain accepts
  // ---------------------------------------------------------------------

  ghost predicate Distinct(xs: seq<Address>) {
    forall i, j :: 0 <= i < j < |xs| ==> xs[i] != xs[j]
  }

  ghost predicate DistinctRecipients(ps: seq<PayoutShare>) {
    forall i, j :: 0 <= i < j < |ps| ==> ps[i].recipient != ps[j].recipient
  }

  /** Milestones add up to the escrow, at most twenty, none empty-handed of bounds. */
  ghost predicate MilestonesOk(ms: seq<MilestoneDef>, escrow: nat) {
    && 0 < |ms| <= 20
    && Sum(Amounts(ms)) == escrow
    && forall i :: 0 <= i < |ms| ==> |ms[i].description| <= 1024
  }

  /** Shares of distinct parties that add up to the whole. */
  ghost predicate SharesOk(ps: seq<PayoutShare>, parties: seq<Address>) {
    && (forall i :: 0 <= i < |ps| ==> ps[i].shareBps > 0 && ps[i].recipient in parties)
    && DistinctRecipients(ps)
    && Sum(Shares(ps)) == FULL_SHARE
  }

  ghost predicate Receives(ps: seq<PayoutShare>, a: Address) {
    exists i :: 0 <= i < |ps| && ps[i].recipient == a
  }

  ghost predicate AllocationsOk(proposer: Address, d: AgreementCreateData, same: SameEntity) {
    d.settlementAllocations == [] ||
    (&& SharesOk(d.settlementAllocations, d.parties)
     && (exists i :: 0 <= i < |d.settlementAllocations| && !same(proposer, d.settlementAllocations[i].recipient))
     && Receives(d.settlementAllocations, d.serviceProvider))
  }

  /** The allocations that settle the agreement: by default everything goes to the service provider. */
  function Effective(provider: Address, ps: seq<PayoutShare>): (e: seq<PayoutShare>)
    ensures e != []
  {
    if ps == [] then [PayoutShare(provider, FULL_SHARE)] else ps
  }

  /** The approver is no recipient, nor one entity with a recipient, apart from the proposer's side. */
  ghost predicate Independent(proposer: Address, approver: Address, ps: seq<PayoutShare>, same: SameEntity) {
    forall i :: 0 <= i < |ps| && !same(proposer, ps[i].recipient) ==> !same(approver, ps[i].recipient)
  }

  ghost predicate ApproverOk(proposer: Address, d: AgreementCreateData, same: SameEntity) {
    var ps := Effective(d.serviceProvider, d.settlementAllocations);
    match d.settlementApprover
    case Some(approver) => approver in d.parties && Independent(proposer, approver, ps, same)
    case None => |d.parties| <= 2 && Independent(proposer, proposer, ps, same)
  }

  ghost predicate ArbitratorOk(d: AgreementCreateData, same: SameEntity) {
    d.arbitrator.Some? ==>
      && d.arbitrator.value !in d.parties
      && forall i :: 0 <= i < |d.parties| ==> !same(d.arbitrator.value, d.parties[i])
  }

  ghost predicate RustAccepts(proposer: Address, d: AgreementCreateData, same: SameEntity) {
    && 2 <= |d.parties| <= 10
    && proposer in d.parties
    && Distinct(d.parties)
    && d.escrowAmount > 0
    && |d.terms| <= 65536
    && MilestonesOk(d.milestones, d.escrowAmount)
    && ArbitratorOk(d, same)
    && d.serviceProvider in d.parties
    && !same(proposer, d.serviceProvider)
    && AllocationsOk(proposer, d, same)
    && ApproverOk(proposer, d, same)
  }

  /** What each error says is wrong. */
  ghost predicate Fault(e: AgreementError, proposer: Address, d: AgreementCreateData, same: SameEntity) {
    match e
    case TooFewParties => |d.parties| < 2
    case TooManyParties => |d.parties| > 10
    case ProposerNotParty => proposer !in d.parties
    case DuplicateParty => !Distinct(d.parties)
    case NoEscrow => d.escrowAmount == 0
    case TermsTooLarge => |d.terms| > 65536
    case NoMilestones => d.milestones == []
    case MilestonesOverflow => Sum(Amounts(d.milestones)) > U64_MAX
    case MilestoneTotal => Sum(Amounts(d.milestones)) != d.escrowAmount
    case TooManyMilestones => |d.milestones| > 20
    case DescriptionTooLong => exists i :: 0 <= i < |d.milestones| && |d.milestones[i].description| > 1024
    case ArbitratorIsParty => d.arbitrator.Some? && d.arbitrator.value in d.parties
    case ArbitratorSameEntity =>
      d.arbitrator.Some? && exists i :: 0 <= i < |d.parties| && same(d.arbitrator.value, d.parties[i])
    case ProviderNotParty => d.serviceProvider !in d.parties
    case ProviderIsProposer => same(proposer, d.serviceProvider)
    case ZeroShare => exists i :: 0 <= i < |d.settlementAllocations| && d.settlementAllocations[i].shareBps == 0
    case RecipientNotParty =>
      exists i :: 0 <= i < |d.settlementAllocations| && d.settlementAllocations[i].recipient !in d.parties
    case DuplicateRecipient => !DistinctRecipients(d.settlementAllocations)
    case ShareTotal => d.settlementAllocations != [] && Sum(Shares(d.settlementAllocations)) != FULL_SHARE
    case NoThirdParty =>
      d.settlementAllocations != []
      && forall i :: 0 <= i < |d.settlementAllocations| ==> same(proposer, d.settlementAllocations[i].recipient)
    case ProviderUnpaid => d.settlementAllocations != [] && !Receives(d.settlementAllocations, d.serviceProvider)
    case ApproverNotParty => d.settlementApprover.Some? && d.settlementApprover.value !in d.parties
    case ApproverMissing => d.settlementApprover.None? && |d.parties| > 2
    case ApproverIsPaid =>
      !Independent(proposer, d.settlementApprover.GetOr(proposer),
        Effective(d.serviceProvider, d.settlementAllocations), same)
  }

  // ---------------------------------------------------------------------
  // The validator
  // ---------------------------------------------------------------------

  /** materialize_agreement_milestones, as far as it can fail. */
  method CheckMilestones(
    proposer: Address, d: AgreementCreateData, same: SameEntity) returns (r: Result<(), AgreementError>)
    ensures r.Ok? <==> MilestonesOk(d.milestones, d.escrowAmount)
    ensures r.Err? ==> Fault(r.error, proposer, d, same)
  {
    var ms, escrow := d.milestones, d.escrowAmount;
    if ms == [] {
      return Err(NoMilestones);
    }
    var total: nat := 0;
    for i := 0 to |ms|
      invariant total == Sum(Amounts(ms)[..i]) <= U64_MAX
    {
      SumSnoc(Amounts(ms), i);
      if total + ms[i].amount > U64_MAX {
        SumPrefix(Amounts(ms), i + 1);
        return Err(MilestonesOverflow);
      }
      total := total + ms[i].amount;
    }
    assert Amounts(ms)[..|ms|] == Amounts(ms);
    if total != escrow {
      return Err(MilestoneTotal);
    }
    if |ms| > 20 {
      return Err(TooManyMilestones);
    }
    for i := 0 to |ms|
      invariant forall k :: 0 <= k < i ==> |ms[k].description| <= 1024
    {
      if |ms[i].description| > 1024 {
        return Err(DescriptionTooLong);
      }
    }
    r := Ok(());
  }

  method CheckDistinct(xs: seq<Address>) returns (ok: bool)
    ensures ok <==> Distinct(xs)
  {
    var seen: set<Address> := {};
    for i := 0 to |xs|
      invariant forall a :: a in seen <==> exists k :: 0 <= k < i && xs[k] == a
      invariant Distinct(xs[..i])
    {
      if xs[i] in seen {
        return false;
      }
      seen := seen + {xs[i]};
    }
    assert xs[..|xs|] == xs;
    ok := true;
  }

  /** u32::saturating_add. */
  function SaturatingAdd(a: nat, b: nat): (c: nat)
    ensures c <= U32_MAX
    ensures a + b <= U32_MAX ==> c == a + b
  {
    if a + b <= U32_MAX then a + b else U32_MAX
  }

  /** Allocations checked so far, with the set of their recipients. */
  ghost predicate PaidSoFar(done: seq<PayoutShare>, recipients: set<Address>, parties: seq<Address>) {
    && (forall a :: a in recipients <==> Receives(done, a))
    && DistinctRecipients(done)
    && (forall k :: 0 <= k < |done| ==> done[k].shareBps > 0 && done[k].recipient in parties)
  }

  lemma {:induction false} Extend(
    done: seq<PayoutShare>, recipients: set<Address>, parties: seq<Address>, p: PayoutShare)
    requires PaidSoFar(done, recipients, parties)
    requires p.recipient !in recipients && p.recipient in parties && p.shareBps > 0
    ensures PaidSoFar(done + [p], recipients + {p.recipient}, parties)
    ensures Sum(Shares(done + [p])) == Sum(Shares(done)) + p.shareBps
  {
    var more := done + [p];
    SumSnoc(Shares(more), |done|);
    assert Shares(more)[..|done|] == Shares(done) && Shares(more)[..|done| + 1] == Shares(more);
    forall a
      ensures Receives(more, a) <==> Receives(done, a) || a == p.recipient
    {
      if Receives(done, a) {
        var k :| 0 <= k < |done| && done[k].recipient == a;
        assert more[k].recipient == a;
      }
      assert more[|done|].recipient == p.recipient;
    }
  }

  /** The share loop of resolve_agreement_settlement_allocations; the running total saturates. */
  method CheckShares(
    proposer: Address, d: AgreementCreateData, same: SameEntity) returns (r: Result<(), AgreementError>)
    requires d.settlementAllocations != []
    ensures r.Ok? <==> SharesOk(d.settlementAllocations, d.parties)
    ensures r.Err? ==> Fault(r.error, proposer, d, same)
  {
    var ps, parties := d.settlementAllocations, d.parties;
    var seen: set<Address> := {};
    var total: nat := 0;
    for i := 0 to |ps|
      invariant PaidSoFar(ps[..i], seen, parties)
      invariant total == SaturatingAdd(0, Sum(Shares(ps[..i])))
    {
      var p := ps[i];
      if p.shareBps == 0 {
        return Err(ZeroShare);
      }
      if p.recipient !in parties {
        return Err(RecipientNotParty);
      }
      if p.recipient in seen {
        assert Receives(ps[..i], p.recipient);
        return Err(DuplicateRecipient);
      }
      Extend(ps[..i], seen, parties, p);
      assert ps[..i + 1] == ps[..i] + [p];
      seen := seen + {p.recipient};
      total := SaturatingAdd(total, p.shareBps);
    }
    assert ps[..|ps|] == ps;
    if total != FULL_SHARE {
      return Err(ShareTotal);
    }
    r := Ok(());
  }

  method ResolveAllocations(proposer: Address, d: AgreementCreateData, same: SameEntity)
    returns (r: Result<seq<PayoutShare>, AgreementError>)
    ensures r.Ok? <==> AllocationsOk(proposer, d, same)
    ensures r.Err? ==> Fault(r.error, proposer, d, same)
    ensures r.Ok? ==> r.value == Effective(d.serviceProvider, d.settlementAllocations)
  {
    var ps := d.settlementAllocations;
    if ps == [] {
      return Ok([PayoutShare(d.serviceProvider, FULL_SHARE)]);
    }
    var shares := CheckShares(proposer, d, same);
    if shares.Err? {
      return Err(shares.error);
    }
    if forall i :: 0 <= i < |ps| ==> same(proposer, ps[i].recipient) {
      return Err(NoThirdParty);
    }
    if forall i :: 0 <= i < |ps| ==> ps[i].recipient != d.serviceProvider {
      return Err(ProviderUnpaid);
    }
    r := Ok(ps);
  }

  method ApproverIsIndependent(
    proposer: Address, approver: Address, ps: seq<PayoutShare>, same: SameEntity) returns (ok: bool)
    ensures ok <==> Independent(proposer, approver, ps, same)
  {
    for i := 0 to |ps|
      invariant forall k :: 0 <= k < i && !same(proposer, ps[k].recipient) ==> !same(approver, ps[k].recipient)
    {
      if same(proposer, ps[i].recipient) {
        continue;
      }
      if same(approver, ps[i].recipient) {
        return false;
      }
    }
    ok := true;
  }

  method ResolveApprover(proposer: Address, d: AgreementCreateData, ps: seq<PayoutShare>, same: SameEntity)
    returns (r: Result<Address, AgreementError>)
    requires ps == Effective(d.serviceProvider, d.settlementAllocations)
    ensures r.Ok? <==> ApproverOk(proposer, d, same)
    ensures r.Ok? ==> r.value == d.settlementApprover.GetOr(proposer)
    ensures r.Err? ==> Fault(r.error, proposer, d, same)
  {
    var approver := proposer;
    if d.settlementApprover.Some? {
      if d.settlementApprover.value !in d.parties {
        return Err(ApproverNotParty);
      }
      approver := d.settlementApprover.value;
    } else if |d.parties| > 2 {
      return Err(ApproverMissing);
    }
    var independent := ApproverIsIndependent(proposer, approver, ps, same);
    r := if independent then Ok(approver) else Err(ApproverIsPaid);
  }

  method ValidateAgreementCreateStateless(proposer: Address, d: AgreementCreateData, same: SameEntity)
    returns (r: Result<(), AgreementError>)
    ensures r.Ok? <==> RustAccepts(proposer, d, same)
    ensures r.Err? ==> Fault(r.error, proposer, d, same)
  {
    if |d.parties| < 2 {
      return Err(TooFewParties);
    }
    if |d.parties| > 10 {
      return Err(TooManyParties);
    }
    if proposer !in d.parties {
      return Err(ProposerNotParty);
    }
    var distinct := CheckDistinct(d.parties);
    if !distinct {
      return Err(DuplicateParty);
    }
    if d.escrowAmount == 0 {
      return Err(NoEscrow);
    }
    if |d.terms| > 65536 {
      return Err(TermsTooLarge);
    }
    var milestones := CheckMilestones(proposer, d, same);
    if milestones.Err? {
      return milestones;
    }
    if d.arbitrator.Some? {
      if d.arbitrator.value in d.parties {
        return Err(ArbitratorIsParty);
      }
      for i := 0 to |d.parties|
        invariant forall k :: 0 <= k < i ==> !same(d.arbitrator.value, d.parties[k])
      {
        if same(d.arbitrator.value, d.parties[i]) {
          return Err(ArbitratorSameEntity);
        }
      }
    }
    if d.serviceProvider !in d.parties {
      return Err(ProviderNotParty);
    }
    if same(proposer, d.serviceProvider) {
      return Err(ProviderIsProposer);
    }
    var allocations := ResolveAllocations(proposer, d, same);
    if allocations.Err? {
      return Err(allocations.error);
    }
    var approver := ResolveApprover(proposer, d, allocations.value, same);
    if approver.Err? {
      return Err(approver.error);
    }
    r := Ok(());
  }
}
