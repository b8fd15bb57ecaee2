/**
 The builder side of agreement creation: it reads loosely typed input,
 validates it in its own way, and accepts exactly what the chain accepts.
 */
module AgreementChecks {
  import opened Wrappers
  import opened Ordering
  import opened Characters
  import opened Numbers
  import opened Agreements

  datatype PayoutInput = PayoutInput(recipient: Text, shareBps: Numeric)

  datatype MilestoneInput = MilestoneInput(description: Text, amount: Numeric)

  datatype AgreementInput = AgreementInput(
    parties: seq<Text>,
    terms: Bytes,
    escrowAmount: Numeric,
    expiresAt: Numeric,
    arbitrator: Option<Text>,
    milestones: Option<seq<MilestoneInput>>,
    serviceProvider: Text,
    settlementAllocations: Option<seq<PayoutInput>>,
    settlementApprover: Option<Text>
  )

  // ---------------------------------------------------------------------
  // Reading the input
  // ---------------------------------------------------------------------

  /**
   rawAddressHex, down to the bytes it names. Its texts are compared where
   the model compares bytes, which comes to the same (`Hex.AddressesAgree`).
   */
  type AddressReader = Text -> Option<Address>

  function ReadShare(read: AddressReader, p: PayoutInput): Option<PayoutShare> {
    var recipient :- read(p.recipient);
    var share :- InRange(p.shareBps, U16_MAX);
    Some(PayoutShare(recipient, share))
  }

  function ShareReader(read: AddressReader): PayoutInput -> Option<PayoutShare> {
    p => ReadShare(read, p)
  }

  function ReadMilestone(m: MilestoneInput): Option<MilestoneDef> {
    var amount :- InRange(m.amount, U64_MAX);
    Some(MilestoneDef(Utf8(Scalars(m.description)), amount))
  }

  function ReadOptional<A, B>(read: A -> Option<B>, x: Option<A>): Option<Option<B>> {
    match x
    case None => Some(None)
    case Some(v) =>
      var y :- read(v);
      Some(Some(y))
  }

  /** The milestones given, or one for the whole escrow. */
  function MilestonesOf(input: AgreementInput): (ms: seq<MilestoneInput>)
    ensures ms != []
  {
    if input.milestones.Some? && input.milestones.value != [] then input.milestones.value
    else [MilestoneInput(Ascii("Complete agreement"), input.escrowAmount)]
  }

  function AllocationsOf(input: AgreementInput): seq<PayoutInput> {
    input.settlementAllocations.GetOr([])
  }

  /** The agreement an input stands for, or None when some field cannot be read. */
  function ToData(read: AddressReader, input: AgreementInput): Option<AgreementCreateData> {
    var parties :- ReadAll(read, input.parties);
    var escrow :- InRange(input.escrowAmount, U64_MAX);
    var expires :- InRange(input.expiresAt, U64_MAX);
    var arbitrator :- ReadOptional(read, input.arbitrator);
    var milestones :- ReadAll(ReadMilestone, MilestonesOf(input));
    var provider :- read(input.serviceProvider);
    var allocations :- ReadAll(ShareReader(read), AllocationsOf(input));
    var approver :- ReadOptional(read, input.settlementApprover);
    Some(AgreementCreateData(
      parties, input.terms, escrow, expires, arbitrator, milestones, provider, allocations, approver))
  }

  ghost predicate FrontReads(read: AddressReader, input: AgreementInput, d: AgreementCreateData) {
    && ReadAll(read, input.parties) == Some(d.parties)
    && input.terms == d.terms
    && InRange(input.escrowAmount, U64_MAX) == Some(d.escrowAmount)
    && InRange(input.expiresAt, U64_MAX) == Some(d.expiresAt)
    && ReadOptional(read, input.arbitrator) == Some(d.arbitrator)
  }

  ghost predicate BackReads(read: AddressReader, input: AgreementInput, d: AgreementCreateData) {
    && ReadAll(ReadMilestone, MilestonesOf(input)) == Some(d.milestones)
    && read(input.serviceProvider) == Some(d.serviceProvider)
    && ReadAll(ShareReader(read), AllocationsOf(input)) == Some(d.settlementAllocations)
    && ReadOptional(read, input.settlementApprover) == Some(d.settlementApprover)
  }

  lemma {:induction false} DataReads(read: AddressReader, input: AgreementInput, d: AgreementCreateData)
    ensures ToData(read, input) == Some(d) <==> FrontReads(read, input, d) && BackReads(read, input, d)
  {
  }

  // ---------------------------------------------------------------------
  // Two ways to say what is accepted
  // ---------------------------------------------------------------------

  function SameAddress(a: Address, b: Address): bool {
    a == b
  }

  ghost predicate RolesOk(d: AgreementCreateData) {
    && d.serviceProvider in d.parties
    && (d.arbitrator.Some? ==> d.arbitrator.value !in d.parties)
    && (d.settlementAllocations == []
        || (SharesOk(d.settlementAllocations, d.parties) && Receives(d.settlementAllocations, d.serviceProvider)))
    && (d.settlementApprover.Some? ==> d.settlementApprover.value in d.parties)
    && (|d.parties| > 2 ==> d.settlementApprover.Some?)
  }

  /** What the encoder checks. */
  ghost predicate EncoderOk(d: AgreementCreateData) {
    && 2 <= |d.parties| <= 10
    && Distinct(d.parties)
    && d.escrowAmount > 0
    && |d.terms| <= 65536
    && MilestonesOk(d.milestones, d.escrowAmount)
    && RolesOk(d)
  }

  ghost predicate OutsideApprover(proposer: Address, d: AgreementCreateData) {
    d.settlementApprover.Some?
    && d.settlementApprover.value != proposer
    && Receives(Effective(d.serviceProvider, d.settlementAllocations), d.settlementApprover.value)
  }

  /** What the client checks before it encodes. */
  ghost predicate ClientOk(proposer: Address, d: AgreementCreateData) {
    && proposer in d.parties
    && d.serviceProvider != proposer
    && !OutsideApprover(proposer, d)
  }

  /** With entities taken as addresses the two validators accept the same agreements. */
  lemma {:induction false} ChecksAgree(proposer: Address, d: AgreementCreateData)
    ensures ClientOk(proposer, d) && EncoderOk(d) <==> RustAccepts(proposer, d, SameAddress)
  {
  }

  /**
   Under any notion of entity, an agreement the chain accepts is refused by
   the client exactly when its approver is another address that is paid.
   */
  lemma {:induction false} AcceptedByChainOnly(proposer: Address, d: AgreementCreateData, same: SameEntity)
    requires forall a: Address :: same(a, a)
    requires RustAccepts(proposer, d, same)
    ensures ClientOk(proposer, d) && EncoderOk(d) <==> !OutsideApprover(proposer, d)
  {
  }

  /** Three parties; the second belongs to the proposer's entity, is paid, and approves. */
  function SiblingAgreement(a: Address, b: Address, c: Address): AgreementCreateData {
    AgreementCreateData([a, b, c], [], 10, 0, None, [MilestoneDef([], 10)], c,
                        [PayoutShare(b, 4000), PayoutShare(c, 6000)], Some(b))
  }

  function Siblings(a: Address, b: Address): SameEntity {
    (x, y) => x == y || (x == a && y == b) || (x == b && y == a)
  }

  /** The chain accepts an approver of the proposer's own entity that is paid; the client refuses it. */
  lemma {:induction false} SiblingApprover(a: Address, b: Address, c: Address)
    requires a != b && b != c && a != c
    ensures RustAccepts(a, SiblingAgreement(a, b, c), Siblings(a, b))
    ensures !ClientOk(a, SiblingAgreement(a, b, c))
  {
    var d := SiblingAgreement(a, b, c);
    var ps := d.settlementAllocations;
    assert Amounts(d.milestones) == [10] && Shares(ps) == [4000, 6000];
    assert Sum([10]) == 10 && Sum([6000]) == 6000 && [4000, 6000][1..] == [6000];
    assert ps[0].recipient == b && ps[1].recipient == c;
    assert Receives(ps, b) && Receives(ps, c);
    assert SharesOk(ps, d.parties);
    assert !Siblings(a, b)(a, ps[1].recipient);
  }

  /**
   Under any notion of entity, an agreement the client builds is accepted by
   the chain exactly when no entity is on two sides: the arbitrator's on a
   party's, the provider's on the proposer's, the approver's on a payee's.
   */
  lemma {:induction false} AcceptedByClientOnly(proposer: Address, d: AgreementCreateData, same: SameEntity)
    requires ClientOk(proposer, d) && EncoderOk(d)
    ensures RustAccepts(proposer, d, same)
        <==> && ArbitratorOk(d, same)
             && !same(proposer, d.serviceProvider)
             && Independent(proposer, d.settlementApprover.GetOr(proposer),
                            Effective(d.serviceProvider, d.settlementAllocations), same)
  {
    if !same(proposer, d.serviceProvider) && d.settlementAllocations != [] {
      var i :| 0 <= i < |d.settlementAllocations| && d.settlementAllocations[i].recipient == d.serviceProvider;
      assert !same(proposer, d.settlementAllocations[i].recipient);
    }
  }

  /** Two parties and an arbitrator. */
  function ArbitratedAgreement(a: Address, b: Address, c: Address): AgreementCreateData {
    AgreementCreateData([a, b], [], 10, 0, Some(c), [MilestoneDef([], 10)], b, [], None)
  }

  /** The client builds an agreement whose arbitrator belongs to the proposer's entity; the chain refuses it. */
  lemma {:induction false} SiblingArbitrator(a: Address, b: Address, c: Address)
    requires a != b && b != c && a != c
    ensures ClientOk(a, ArbitratedAgreement(a, b, c)) && EncoderOk(ArbitratedAgreement(a, b, c))
    ensures !RustAccepts(a, ArbitratedAgreement(a, b, c), Siblings(a, c))
  {
    var d := ArbitratedAgreement(a, b, c);
    assert Amounts(d.milestones) == [10] && Sum([10]) == 10;
    assert d.parties[0] == a;
    assert Siblings(a, c)(c, d.parties[0]);
  }

  // ---------------------------------------------------------------------
  // The encoder's validation
  // ---------------------------------------------------------------------

  lemma {:induction false} DistinctSnoc(xs: seq<Address>, a: Address)
    ensures Distinct(xs + [a]) <==> Distinct(xs) && a !in xs
  {
    var ys := xs + [a];
    assert forall i :: 0 <= i < |xs| ==> ys[i] == xs[i];
    if Distinct(ys) {
      forall i | 0 <= i < |xs|
        ensures xs[i] != a
      {
        assert ys[i] != ys[|xs|];
      }
      forall i, j | 0 <= i < j < |xs|
        ensures xs[i] != xs[j]
      {
        assert ys[i] != ys[j];
      }
    }
  }

  method NormalizedAddressSet(read: AddressReader, texts: seq<Text>) returns (r: Option<set<Address>>)
    ensures r.Some? <==> ReadAll(read, texts).Some?
    ensures r.Some? ==> forall a :: a in r.value <==> a in ReadAll(read, texts).value
    ensures r.Some? ==> (|r.value| == |texts| <==> Distinct(ReadAll(read, texts).value))
  {
    var s: set<Address> := {};
    ghost var done: seq<Address> := [];
    for i := 0 to |texts|
      invariant |done| == i && forall k :: 0 <= k < i ==> read(texts[k]) == Some(done[k])
      invariant forall a :: a in s <==> a in done
      invariant |s| <= i && (|s| == i <==> Distinct(done))
    {
      var a := read(texts[i]);
      if a.None? {
        return None;
      }
      DistinctSnoc(done, a.value);
      assert a.value in s ==> s + {a.value} == s;
      done := done + [a.value];
      s := s + {a.value};
    }
    assert done == ReadAll(read, texts).value;
    r := Some(s);
  }

  lemma {:induction false} ShareWithinSum(ns: seq<nat>, i: nat)
    requires i < |ns|
    ensures ns[i] <= Sum(ns)
  {
    SumSnoc(ns, i);
    SumPrefix(ns, i + 1);
  }

  /** The shares read from the first entries of a payout list. */
  ghost predicate ReadSoFar(read: AddressReader, payouts: seq<PayoutInput>, done: seq<PayoutShare>) {
    |done| <= |payouts| && forall k :: 0 <= k < |done| ==> ReadShare(read, payouts[k]) == Some(done[k])
  }

  function Recipients(ps: seq<PayoutShare>): (r: seq<Address>)
    ensures |r| == |ps| && forall i :: 0 <= i < |ps| ==> r[i] == ps[i].recipient
  {
    seq(|ps|, i requires 0 <= i < |ps| => RecipientOf(ps[i]))
  }

  function RecipientOf(p: PayoutShare): Address {
    p.recipient
  }

  /** The recipients that can be read. */
  ghost function Named(read: AddressReader, payouts: seq<PayoutInput>): (names: seq<Address>)
    ensures forall i :: 0 <= i < |payouts| && read(payouts[i].recipient).Some? ==>
      read(payouts[i].recipient).value in names
  {
    if payouts == [] then []
    else
      var rest := Named(read, payouts[1..]);
      assert forall i :: 0 < i < |payouts| ==> payouts[i] == payouts[1..][i - 1];
      match read(payouts[0].recipient)
      case Some(a) => [a] + rest
      case None => rest
  }

  /** Whoever is paid is among the recipients of the payouts. */
  lemma {:induction false} NamedSharesOk(read: AddressReader, payouts: seq<PayoutInput>)
    ensures var ps := ReadAll(ShareReader(read), payouts);
      ps.Some? ==> (SharesOk(ps.value, Named(read, payouts)) <==> SharesOk(ps.value, Recipients(ps.value)))
  {
    var all := ReadAll(ShareReader(read), payouts);
    forall i | all.Some? && 0 <= i < |all.value|
      ensures all.value[i].recipient in Named(read, payouts) && all.value[i].recipient in Recipients(all.value)
    {
      assert ShareReader(read)(payouts[i]) == Some(all.value[i]);
      assert Recipients(all.value)[i] == all.value[i].recipient;
    }
  }

  /** validateAgreementPayouts, with or without a set of allowed recipients. */
  method ValidateAgreementPayouts(
    read: AddressReader, payouts: seq<PayoutInput>, allowed: Option<set<Address>>, ghost parties: seq<Address>)
    returns (ok: bool)
    requires allowed.Some? ==> forall a :: a in allowed.value <==> a in parties
    ensures ok <==> payouts != [] && ReadAll(ShareReader(read), payouts).Some?
                    && var ps := ReadAll(ShareReader(read), payouts).value;
                      SharesOk(ps, if allowed.Some? then parties else Recipients(ps))
  {
    if payouts == [] {
      return false;
    }
    ok := CheckPayouts(read, payouts, allowed, if allowed.Some? then parties else Named(read, payouts));
    NamedSharesOk(read, payouts);
  }

  method CheckPayouts(
    read: AddressReader, payouts: seq<PayoutInput>, allowed: Option<set<Address>>, ghost parties: seq<Address>)
    returns (ok: bool)
    requires allowed.Some? ==> forall a :: a in allowed.value <==> a in parties
    requires allowed.None? ==>
      forall i :: 0 <= i < |payouts| && read(payouts[i].recipient).Some? ==> read(payouts[i].recipient).value in parties
    ensures ok <==> ReadAll(ShareReader(read), payouts).Some?
                    && SharesOk(ReadAll(ShareReader(read), payouts).value, parties)
  {
    var recipients: set<Address> := {};
    var total: nat := 0;
    ghost var done: seq<PayoutShare> := [];
    for i := 0 to |payouts|
      invariant |done| == i && ReadSoFar(read, payouts, done)
      invariant PaidSoFar(done, recipients, parties)
      invariant total == Sum(Shares(done))
    {
      var payout := payouts[i];
      var recipient := read(payout.recipient);
      if recipient.None? {
        assert ShareReader(read)(payouts[i]).None?;
        return false;
      }
      if recipient.value in recipients {
        PaidTwice(read, payouts, done, recipient.value, parties);
        return false;
      }
      if allowed.Some? && recipient.value !in allowed.value {
        Outsider(read, payouts, i, recipient.value, parties);
        return false;
      }
      if !(payout.shareBps.Integer? && 0 < payout.shareBps.n <= FULL_SHARE) {
        BadShare(read, payouts, i, parties);
        return false;
      }
      ghost var p := ReadShare(read, payout).value;
      Extend(done, recipients, parties, p);
      recipients := recipients + {recipient.value};
      total := total + payout.shareBps.n;
      done := done + [p];
    }
    assert done == ReadAll(ShareReader(read), payouts).value;
    ok := total == FULL_SHARE;
  }

  lemma {:induction false} PaidTwice(
    read: AddressReader, payouts: seq<PayoutInput>, done: seq<PayoutShare>, a: Address, parties: seq<Address>)
    requires ReadSoFar(read, payouts, done) && |done| < |payouts|
    requires read(payouts[|done|].recipient) == Some(a) && Receives(done, a)
    ensures ReadAll(ShareReader(read), payouts).Some? ==> !SharesOk(ReadAll(ShareReader(read), payouts).value, parties)
  {
    var all := ReadAll(ShareReader(read), payouts);
    var k :| 0 <= k < |done| && done[k].recipient == a;
    if all.Some? {
      assert all.value[k] == done[k];
      assert all.value[k].recipient == all.value[|done|].recipient;
    }
  }

  lemma {:induction false} Outsider(
    read: AddressReader, payouts: seq<PayoutInput>, i: nat, a: Address, parties: seq<Address>)
    requires i < |payouts| && read(payouts[i].recipient) == Some(a) && a !in parties
    ensures ReadAll(ShareReader(read), payouts).Some? ==> !SharesOk(ReadAll(ShareReader(read), payouts).value, parties)
  {
  }

  lemma {:induction false} BadShare(read: AddressReader, payouts: seq<PayoutInput>, i: nat, parties: seq<Address>)
    requires i < |payouts| && !(payouts[i].shareBps.Integer? && 0 < payouts[i].shareBps.n <= FULL_SHARE)
    ensures ReadAll(ShareReader(read), payouts).Some? ==> !SharesOk(ReadAll(ShareReader(read), payouts).value, parties)
  {
    var all := ReadAll(ShareReader(read), payouts);
    if all.Some? {
      assert ReadShare(read, payouts[i]) == Some(all.value[i]);
      ShareWithinSum(Shares(all.value), i);
    }
  }

  /** The milestone loop: bounds, descriptions and the running total. */
  method ValidateMilestones(ms: seq<MilestoneInput>, escrow: nat) returns (ok: bool)
    requires ms != [] && escrow <= U64_MAX
    ensures ok <==> ReadAll(ReadMilestone, ms).Some? && MilestonesOk(ReadAll(ReadMilestone, ms).value, escrow)
  {
    if |ms| > 20 {
      return false;
    }
    var total: nat := 0;
    ghost var done: seq<MilestoneDef> := [];
    for i := 0 to |ms|
      invariant |done| == i && forall k :: 0 <= k < i ==> ReadMilestone(ms[k]) == Some(done[k])
      invariant forall k :: 0 <= k < i ==> |done[k].description| <= 1024
      invariant total == Sum(Amounts(done)) <= U64_MAX
    {
      if |Utf8(Scalars(ms[i].description))| > 1024 {
        LongDescription(ms, i, escrow);
        return false;
      }
      var amount := InRange(ms[i].amount, U64_MAX);
      if amount.None? {
        assert ReadMilestone(ms[i]).None?;
        return false;
      }
      ghost var m := ReadMilestone(ms[i]).value;
      AmountsSnoc(done, m);
      total := total + amount.value;
      done := done + [m];
      if total > U64_MAX {
        TooMuch(ms, done, escrow);
        return false;
      }
    }
    assert done == ReadAll(ReadMilestone, ms).value;
    ok := total == escrow;
  }

  lemma {:induction false} AmountsSnoc(done: seq<MilestoneDef>, m: MilestoneDef)
    ensures Sum(Amounts(done + [m])) == Sum(Amounts(done)) + m.amount
  {
    var more := done + [m];
    SumSnoc(Amounts(more), |done|);
    assert Amounts(more)[..|done|] == Amounts(done) && Amounts(more)[..|done| + 1] == Amounts(more);
  }

  lemma {:induction false} LongDescription(ms: seq<MilestoneInput>, i: nat, escrow: nat)
    requires i < |ms| && |Utf8(Scalars(ms[i].description))| > 1024
    ensures ReadAll(ReadMilestone, ms).Some? ==> !MilestonesOk(ReadAll(ReadMilestone, ms).value, escrow)
  {
  }

  lemma {:induction false} TooMuch(ms: seq<MilestoneInput>, done: seq<MilestoneDef>, escrow: nat)
    requires |done| <= |ms| && forall k :: 0 <= k < |done| ==> ReadMilestone(ms[k]) == Some(done[k])
    requires Sum(Amounts(done)) > escrow
    ensures ReadAll(ReadMilestone, ms).Some? ==> !MilestonesOk(ReadAll(ReadMilestone, ms).value, escrow)
  {
    var all := ReadAll(ReadMilestone, ms);
    if all.Some? {
      SumPrefix(Amounts(all.value), |done|);
      assert Amounts(all.value)[..|done|] == Amounts(done);
    }
  }

  // ---------------------------------------------------------------------
  // The checks of the encoder and of the client
  // ---------------------------------------------------------------------

  /** Every field can be read, apart from the expiry, which only writing looks at. */
  ghost predicate ReadsButExpiry(read: AddressReader, input: AgreementInput) {
    && ReadAll(read, input.parties).Some?
    && InRange(input.escrowAmount, U64_MAX).Some?
    && ReadAll(ReadMilestone, MilestonesOf(input)).Some?
    && RolesRead(read, input)
  }

  ghost predicate RolesRead(read: AddressReader, input: AgreementInput) {
    && read(input.serviceProvider).Some?
    && ReadOptional(read, input.arbitrator).Some?
    && ReadAll(ShareReader(read), AllocationsOf(input)).Some?
    && ReadOptional(read, input.settlementApprover).Some?
  }

  /** The checks of encodeAgreementCreateData before it writes anything. */
  method ValidateInput(read: AddressReader, input: AgreementInput) returns (ok: bool)
    ensures ok ==> ReadsButExpiry(read, input)
    ensures forall d :: FrontReads(read, input, d) && BackReads(read, input, d) ==> (ok <==> EncoderOk(d))
  {
    if |input.parties| < 2 || |input.parties| > 10 {
      return false;
    }
    var parties := NormalizedAddressSet(read, input.parties);
    if parties.None? || |parties.value| != |input.parties| {
      return false;
    }
    var escrow := InRange(input.escrowAmount, U64_MAX);
    if escrow.None? || escrow.value == 0 || |input.terms| > 65536 {
      return false;
    }
    ok := ValidateMilestones(MilestonesOf(input), escrow.value);
    if ok {
      ok := ValidateRoles(read, input, parties.value);
    }
  }

  method ValidateRoles(read: AddressReader, input: AgreementInput, parties: set<Address>) returns (ok: bool)
    requires ReadAll(read, input.parties).Some?
    requires forall a :: a in parties <==> a in ReadAll(read, input.parties).value
    ensures ok ==> RolesRead(read, input)
    ensures forall d :: FrontReads(read, input, d) && BackReads(read, input, d) ==> (ok <==> RolesOk(d))
  {
    var provider := read(input.serviceProvider);
    if provider.None? || provider.value !in parties {
      return false;
    }
    var arbitrator := ReadOptional(read, input.arbitrator);
    if arbitrator.None? || (arbitrator.value.Some? && arbitrator.value.value in parties) {
      return false;
    }
    ok := ValidateAllocations(read, AllocationsOf(input), provider.value, parties, ReadAll(read, input.parties).value);
    if !ok {
      return false;
    }
    var approver := ReadOptional(read, input.settlementApprover);
    if approver.None? || (approver.value.Some? && approver.value.value !in parties) {
      return false;
    }
    ok := !(|input.parties| > 2 && input.settlementApprover.None?);
  }

  method ValidateAllocations(
    read: AddressReader, payouts: seq<PayoutInput>, provider: Address,
    allowed: set<Address>, ghost parties: seq<Address>)
    returns (ok: bool)
    requires forall a :: a in allowed <==> a in parties
    ensures var all := ReadAll(ShareReader(read), payouts);
      ok <==> all.Some? && (all.value == [] || (SharesOk(all.value, parties) && Receives(all.value, provider)))
  {
    if payouts == [] {
      return true;
    }
    ok := ValidateAgreementPayouts(read, payouts, Some(allowed), parties);
    if ok {
      ok := exists i :: 0 <= i < |payouts| && read(payouts[i].recipient) == Some(provider);
      PaidAsRead(read, payouts, provider);
    }
  }

  lemma {:induction false} PaidAsRead(read: AddressReader, payouts: seq<PayoutInput>, a: Address)
    requires ReadAll(ShareReader(read), payouts).Some?
    ensures Receives(ReadAll(ShareReader(read), payouts).value, a)
        <==> exists i :: 0 <= i < |payouts| && read(payouts[i].recipient) == Some(a)
  {
  }

  /** Whether a list of addresses names one, reading no further than it must; None where an address throws. */
  method Names(read: AddressReader, texts: seq<Text>, a: Address) returns (r: Option<bool>)
    ensures ReadAll(read, texts).Some? ==> r == Some(a in ReadAll(read, texts).value)
    ensures r.None? ==> ReadAll(read, texts).None?
  {
    for i := 0 to |texts|
      invariant forall k :: 0 <= k < i ==> read(texts[k]).Some? && read(texts[k]) != Some(a)
    {
      var b := read(texts[i]);
      if b.None? {
        return None;
      }
      if b.value == a {
        assert ReadAll(read, texts).Some? ==> ReadAll(read, texts).value[i] == a;
        return Some(true);
      }
    }
    r := Some(false);
  }

  /** The addresses a settlement pays: the allocations, or the provider alone. */
  function PaidTexts(input: AgreementInput): seq<Text> {
    if AllocationsOf(input) == [] then [input.serviceProvider] else RecipientTexts(AllocationsOf(input))
  }

  function RecipientTexts(ps: seq<PayoutInput>): (texts: seq<Text>)
    ensures |texts| == |ps| && forall i :: 0 <= i < |ps| ==> texts[i] == ps[i].recipient
  {
    seq(|ps|, i requires 0 <= i < |ps| => ps[i].recipient)
  }

  lemma {:induction false} PaidTextsRead(read: AddressReader, input: AgreementInput, d: AgreementCreateData, a: Address)
    requires BackReads(read, input, d)
    ensures ReadAll(read, PaidTexts(input)).Some?
    ensures a in ReadAll(read, PaidTexts(input)).value
      <==> Receives(Effective(d.serviceProvider, d.settlementAllocations), a)
  {
    var ps := AllocationsOf(input);
    var texts := PaidTexts(input);
    if ps == [] {
      assert texts == [input.serviceProvider];
      assert Effective(d.serviceProvider, d.settlementAllocations)[0].recipient == d.serviceProvider;
    } else {
      PaidAsRead(read, ps, a);
      assert forall i :: 0 <= i < |ps| ==> ShareReader(read)(ps[i]) == Some(d.settlementAllocations[i]);
      assert forall i :: 0 <= i < |texts| ==> texts[i] == ps[i].recipient && read(texts[i]).Some?;
      var xs := ReadAll(read, texts).value;
      assert a in xs <==> exists i :: 0 <= i < |ps| && read(ps[i].recipient) == Some(a);
    }
  }

  /** The checks of buildCreateAgreement before it encodes. */
  method ClientChecks(read: AddressReader, signer: Text, input: AgreementInput) returns (ok: bool)
    ensures ok ==> read(signer).Some?
    ensures ToData(read, input).Some? ==>
      (ok <==> read(signer).Some? && ClientOk(read(signer).value, ToData(read, input).value))
  {
    var proposer := read(signer);
    if proposer.None? {
      return false;
    }
    ghost var data := ToData(read, input);
    if data.Some? {
      DataReads(read, input, data.value);
    }
    var party := Names(read, input.parties, proposer.value);
    if party != Some(true) {
      return false;
    }
    var provider := read(input.serviceProvider);
    if provider.None? || provider == proposer {
      return false;
    }
    if input.settlementApprover.Some? {
      var approver := read(input.settlementApprover.value);
      if approver.None? {
        return false;
      }
      if data.Some? {
        PaidTextsRead(read, input, data.value, approver.value);
      }
      var paid := ReadAll(read, PaidTexts(input));
      if paid.None? || (approver != proposer && approver.value in paid.value) {
        return false;
      }
    }
    ok := true;
  }
}
