/** Splitting released escrow between recipients, and escrow accounting over whole runs. */
module Settlement {
  import opened Numbers
  import opened Agreements

  datatype Payout = Payout(recipient: Address, amount: nat)

  // ---------------------------------------------------------------------
  // One split
  // ---------------------------------------------------------------------

  /** The exact share, rounded down. */
  function FloorShare(amount: nat, bps: nat): nat {
    amount * bps / FULL_SHARE
  }

  /** The share as the code computes it, cut to 64 bits. */
  function CastShare(amount: nat, bps: nat): nat {
    FloorShare(amount, bps) % (U64_MAX + 1)
  }

  /** Casts of the first `n` shares. */
  function Casts(amount: nat, ps: seq<PayoutShare>): (ns: seq<nat>)
    ensures |ns| == |ps| && forall i :: 0 <= i < |ps| ==> ns[i] == CastShare(amount, ps[i].shareBps)
  {
    seq(|ps|, i requires 0 <= i < |ps| => CastOf(amount, ps[i]))
  }

  function CastOf(amount: nat, p: PayoutShare): nat {
    CastShare(amount, p.shareBps)
  }

  /** What all but the last recipient get together. */
  function Before(amount: nat, ps: seq<PayoutShare>): nat
    requires ps != []
  {
    Sum(Casts(amount, ps[..|ps| - 1]))
  }

  /** The amount of the i-th payout: its share, and what is left for the last. */
  function Part(amount: nat, ps: seq<PayoutShare>, i: nat): nat
    requires i < |ps|
  {
    if i + 1 < |ps| then CastShare(amount, ps[i].shareBps)
    else if Before(amount, ps) <= amount then amount - Before(amount, ps)
    else 0
  }

  /** The split of an amount. */
  function Distribute(amount: nat, ps: seq<PayoutShare>): (r: seq<Payout>)
    ensures |r| == |ps|
    ensures forall i :: 0 <= i < |ps| ==> r[i] == Payout(ps[i].recipient, Part(amount, ps, i))
  {
    seq(|ps|, i requires 0 <= i < |ps| => Payout(ps[i].recipient, Part(amount, ps, i)))
  }

  /** u64::saturating_add. */
  function AddU64(a: nat, b: nat): (c: nat)
    ensures c <= U64_MAX
    ensures c == a + b || (c == U64_MAX && a + b > U64_MAX)
  {
    if a + b <= U64_MAX then a + b else U64_MAX
  }

  /** distribute_amount, with its saturating running total. */
  method DistributeAmount(amount: U64, ps: seq<PayoutShare>) returns (payouts: seq<Payout>)
    ensures payouts == Distribute(amount, ps)
  {
    payouts := [];
    var distributed: nat := 0;
    for i := 0 to |ps|
      invariant |payouts| == i
      invariant forall k :: 0 <= k < i ==> payouts[k] == Payout(ps[k].recipient, Part(amount, ps, k))
      invariant i < |ps| ==> distributed == AddU64(0, Sum(Casts(amount, ps)[..i]))
    {
      var share := amount * ps[i].shareBps / FULL_SHARE % (U64_MAX + 1);
      if i + 1 == |ps| {
        assert Casts(amount, ps)[..i] == Casts(amount, ps[..i]);
        share := if distributed <= amount then amount - distributed else 0;
      } else {
        SumSnoc(Casts(amount, ps), i);
      }
      distributed := AddU64(distributed, share);
      payouts := payouts + [Payout(ps[i].recipient, share)];
    }
  }

  function Paid(payouts: seq<Payout>): (ns: seq<nat>)
    ensures |ns| == |payouts| && forall i :: 0 <= i < |payouts| ==> ns[i] == payouts[i].amount
  {
    seq(|payouts|, i requires 0 <= i < |payouts| => AmountPaid(payouts[i]))
  }

  function AmountPaid(p: Payout): nat {
    p.amount
  }

  function Total(payouts: seq<Payout>): nat {
    Sum(Paid(payouts))
  }

  /** A split pays out exactly the amount if and only if the shares before the last leave something non-negative. */
  lemma {:induction false} ConservedIff(amount: nat, ps: seq<PayoutShare>)
    ensures Total(Distribute(amount, ps)) == amount
        <==> if ps == [] then amount == 0 else Before(amount, ps) <= amount
  {
    var paid := Paid(Distribute(amount, ps));
    if ps != [] {
      var n := |ps| - 1;
      SumSnoc(paid, n);
      assert paid[..n + 1] == paid;
      assert paid[..n] == Casts(amount, ps[..n]);
    } else {
      assert paid == [];
    }
  }

  /** Shares over the whole, before the last, do not conserve. */
  lemma {:induction false} OverAllocatedSplit(a: Address, b: Address)
    ensures Total(Distribute(100, [PayoutShare(a, 10001), PayoutShare(b, 1)])) == 100
    ensures Total(Distribute(10000, [PayoutShare(a, 10001), PayoutShare(b, 1)])) == 10001
  {
    var ps := [PayoutShare(a, 10001), PayoutShare(b, 1)];
    forall amount | amount == 100 || amount == 10000
      ensures Before(amount, ps) == CastShare(amount, 10001)
        && Total(Distribute(amount, ps)) == Part(amount, ps, 0) + Part(amount, ps, 1)
    {
      assert ps[..1] == [ps[0]];
      var before := Casts(amount, ps[..1]);
      assert before[1..] == [] && Sum(before) == before[0];
      var paid := Paid(Distribute(amount, ps));
      assert paid[1..] == [Part(amount, ps, 1)];
      assert Sum(paid[1..]) == Part(amount, ps, 1);
    }
  }

  /** A share of more than the whole of a large amount is cut to its low 64 bits. */
  lemma {:induction false} CutShare(a: Address, b: Address)
    ensures var r := Distribute(0xFFFF_FFFF_FFFF_FFFF, [PayoutShare(a, 65535), PayoutShare(b, 1)]);
      r == [Payout(a, 10_210_272_844_798_236_812), Payout(b, 8_236_471_228_911_314_803)]
  {
    var ps := [PayoutShare(a, 65535), PayoutShare(b, 1)];
    assert FloorShare(0xFFFF_FFFF_FFFF_FFFF, 65535) == 120_890_737_287_055_546_508;
    assert ps[..1] == [ps[0]];
    var before := Casts(0xFFFF_FFFF_FFFF_FFFF, ps[..1]);
    assert before[1..] == [] && Sum(before) == before[0];
  }

  // ---------------------------------------------------------------------
  // Shares that add up to the whole
  // ---------------------------------------------------------------------

  function Floors(amount: nat, ps: seq<PayoutShare>): (ns: seq<nat>)
    ensures |ns| == |ps| && forall i :: 0 <= i < |ps| ==> ns[i] == FloorShare(amount, ps[i].shareBps)
  {
    seq(|ps|, i requires 0 <= i < |ps| => FloorOf(amount, ps[i]))
  }

  function FloorOf(amount: nat, p: PayoutShare): nat {
    FloorShare(amount, p.shareBps)
  }

  lemma {:induction false} FloorBounds(amount: nat, bps: nat)
    ensures FULL_SHARE * FloorShare(amount, bps) <= amount * bps <= FULL_SHARE * FloorShare(amount, bps) + 9999
  {
  }

  /** Rounding down loses less than one unit a recipient. */
  lemma {:induction false} FloorsBounds(amount: nat, ps: seq<PayoutShare>)
    ensures FULL_SHARE * Sum(Floors(amount, ps)) <= amount * Sum(Shares(ps)) <=
      FULL_SHARE * Sum(Floors(amount, ps)) + 9999 * |ps|
    decreases |ps|
  {
    if ps == [] {
    } else {
      FloorsBounds(amount, ps[1..]);
      FloorBounds(amount, ps[0].shareBps);
      assert Floors(amount, ps)[1..] == Floors(amount, ps[1..]);
      assert Shares(ps)[1..] == Shares(ps[1..]);
      Distribution(amount, ps[0].shareBps, Sum(Shares(ps[1..])));
    }
  }

  lemma {:induction false} Distribution(a: nat, b: nat, c: nat)
    ensures a * (b + c) == a * b + a * c
  {
  }

  lemma {:induction false} NoCut(amount: nat, bps: nat)
    requires amount <= U64_MAX && bps <= FULL_SHARE
    ensures FloorShare(amount, bps) <= amount
    ensures CastShare(amount, bps) == FloorShare(amount, bps)
  {
    FloorBounds(amount, bps);
    assert amount * bps <= amount * FULL_SHARE;
  }

  /** Shares of no more than the whole are not cut. */
  lemma {:induction false} SharesUncut(amount: nat, ps: seq<PayoutShare>)
    requires amount <= U64_MAX && Sum(Shares(ps)) <= FULL_SHARE
    ensures Casts(amount, ps) == Floors(amount, ps)
  {
    forall i | 0 <= i < |ps|
      ensures CastShare(amount, ps[i].shareBps) == FloorShare(amount, ps[i].shareBps)
    {
      SumSnoc(Shares(ps), i);
      SumPrefix(Shares(ps), i + 1);
      NoCut(amount, ps[i].shareBps);
    }
  }

  /** Of 10000 units a share of n basis points is n units. */
  lemma {:induction false} SharesOfTenThousand(ps: seq<PayoutShare>)
    ensures Casts(FULL_SHARE, ps) == Shares(ps)
  {
  }

  lemma {:induction false} FloorsWithin(amount: nat, ps: seq<PayoutShare>)
    requires Sum(Shares(ps)) <= FULL_SHARE
    ensures Sum(Floors(amount, ps)) <= amount
  {
    FloorsBounds(amount, ps);
    Distribution(amount, Sum(Shares(ps)), FULL_SHARE - Sum(Shares(ps)));
  }

  /** Splits by these shares pay out exactly the amount, whatever it is. */
  ghost predicate AlwaysConserves(ps: seq<PayoutShare>) {
    forall amount: U64 :: Total(Distribute(amount, ps)) == amount
  }

  /** That is so exactly when there is a recipient and the shares before the last do not exceed the whole. */
  lemma {:induction false} AlwaysConservedIff(ps: seq<PayoutShare>)
    ensures AlwaysConserves(ps) <==> ps != [] && Sum(Shares(ps[..|ps| - 1])) <= FULL_SHARE
  {
    ConservedIff(FULL_SHARE, ps);
    if ps != [] {
      SharesOfTenThousand(ps[..|ps| - 1]);
      if Sum(Shares(ps[..|ps| - 1])) <= FULL_SHARE {
        forall amount: U64
          ensures Total(Distribute(amount, ps)) == amount
        {
          SharesUncut(amount, ps[..|ps| - 1]);
          FloorsWithin(amount, ps[..|ps| - 1]);
          ConservedIff(amount, ps);
        }
      }
    }
    assert AlwaysConserves(ps) ==> Total(Distribute(FULL_SHARE, ps)) == FULL_SHARE;
  }

  /** How far the last payout may exceed its own rounded share. */
  function Dust(amount: nat, ps: seq<PayoutShare>): int {
    amount - Sum(Floors(amount, ps))
  }

  /**
   Shares that add up to the whole are conserved; only the last is more
   than its floor, by at most a unit per other recipient.
   */
  lemma {:induction false} FairSplit(amount: nat, ps: seq<PayoutShare>)
    requires amount <= U64_MAX && ps != [] && Sum(Shares(ps)) == FULL_SHARE
    ensures Total(Distribute(amount, ps)) == amount
    ensures forall i :: 0 <= i < |ps| - 1 ==> Distribute(amount, ps)[i].amount == FloorShare(amount, ps[i].shareBps)
    ensures Distribute(amount, ps)[|ps| - 1].amount == FloorShare(amount, ps[|ps| - 1].shareBps) + Dust(amount, ps)
    ensures 0 <= Dust(amount, ps) <= |ps| - 1
  {
    var n := |ps| - 1;
    FloorsBounds(amount, ps);
    SharesUncut(amount, ps);
    assert Casts(amount, ps[..n]) == Floors(amount, ps)[..n];
    SumSnoc(Floors(amount, ps), n);
    assert Floors(amount, ps)[..n + 1] == Floors(amount, ps);
    ConservedIff(amount, ps);
  }

  /**
   Said without the rounding: every recipient but the last gets the greatest
   amount not above its exact share, the last one all the rest.
   */
  lemma {:induction false} FairShares(amount: nat, ps: seq<PayoutShare>)
    requires amount <= U64_MAX && ps != [] && Sum(Shares(ps)) == FULL_SHARE
    ensures var r := Distribute(amount, ps);
      && |r| == |ps|
      && (forall i :: 0 <= i < |ps| ==> r[i].recipient == ps[i].recipient)
      && (forall i :: 0 <= i < |ps| - 1 ==>
            10000 * r[i].amount <= amount * ps[i].shareBps < 10000 * (r[i].amount + 1))
      && Total(r) == amount
  {
    FairSplit(amount, ps);
    forall i | 0 <= i < |ps| - 1
      ensures 10000 * Distribute(amount, ps)[i].amount <= amount * ps[i].shareBps
      ensures amount * ps[i].shareBps < 10000 * (Distribute(amount, ps)[i].amount + 1)
    {
      FloorBounds(amount, ps[i].shareBps);
    }
  }

  /** payout_amount_for_recipient: the first entry of the recipient, or nothing. */
  function PayoutFor(payouts: seq<Payout>, a: Address): nat {
    if payouts == [] then 0
    else if payouts[0].recipient == a then payouts[0].amount
    else PayoutFor(payouts[1..], a)
  }

  /** With distinct recipients each one finds its own part. */
  lemma {:induction false} EachFindsItsPart(payouts: seq<Payout>, i: nat)
    requires i < |payouts|
    requires forall j, k :: 0 <= j < k < |payouts| ==> payouts[j].recipient != payouts[k].recipient
    ensures PayoutFor(payouts, payouts[i].recipient) == payouts[i].amount
    decreases |payouts|
  {
    if i > 0 {
      EachFindsItsPart(payouts[1..], i - 1);
    }
  }

  /** Who is not listed finds nothing. */
  lemma {:induction false} StrangersFindNothing(payouts: seq<Payout>, a: Address)
    requires forall i :: 0 <= i < |payouts| ==> payouts[i].recipient != a
    ensures PayoutFor(payouts, a) == 0
    decreases |payouts|
  {
    if payouts != [] {
      StrangersFindNothing(payouts[1..], a);
    }
  }

  // ---------------------------------------------------------------------
  // Escrow
  // ---------------------------------------------------------------------

  /** record_escrow_release. */
  function AfterRelease(escrow: nat, released: nat, amount: nat): (r: nat)
    ensures r <= escrow
  {
    var sum := AddU64(released, amount);
    if sum < escrow then sum else escrow
  }

  /** escrow_remaining. */
  function Remaining(escrow: nat, released: nat): nat {
    if released <= escrow then escrow - released else 0
  }

  class Agreement {
    var escrowAmount: U64
    var escrowReleased: U64

    constructor (escrow: U64)
      ensures escrowAmount == escrow && escrowReleased == 0
    {
      escrowAmount := escrow;
      escrowReleased := 0;
    }

    method EscrowRemaining() returns (r: U64)
      ensures r == Remaining(escrowAmount, escrowReleased)
      ensures escrowReleased <= escrowAmount ==> r + escrowReleased == escrowAmount
      ensures escrowReleased > escrowAmount ==> r == 0
    {
      r := if escrowReleased <= escrowAmount then escrowAmount - escrowReleased else 0;
    }

    /** The counter never drifts above the escrow, whatever is released. */
    method RecordEscrowRelease(amount: U64)
      modifies this`escrowReleased
      ensures escrowReleased == AfterRelease(escrowAmount, old(escrowReleased), amount) <= escrowAmount
      ensures old(escrowReleased) + amount <= escrowAmount ==> escrowReleased == old(escrowReleased) + amount
    {
      var released := AddU64(escrowReleased, amount);
      if released > escrowAmount {
        released := escrowAmount;
      }
      escrowReleased := released;
    }

    method ReleaseRemainingEscrow()
      modifies this`escrowReleased
      ensures Remaining(escrowAmount, escrowReleased) == 0 && escrowReleased == escrowAmount
    {
      escrowReleased := escrowAmount;
    }
  }

  // ---------------------------------------------------------------------
  // Whole runs
  // ---------------------------------------------------------------------

  /** The escrow counter and everything paid so far. */
  datatype Ledger = Ledger(released: nat, payouts: seq<Payout>)

  ghost predicate OnceEach(order: seq<nat>, n: nat) {
    && (forall k :: 0 <= k < |order| ==> order[k] < n)
    && (forall j, k :: 0 <= j < k < |order| ==> order[j] != order[k])
  }

  /** Releases milestones in the given order, splitting each. */
  function Run(ms: seq<MilestoneDef>, escrow: nat, ps: seq<PayoutShare>, order: seq<nat>): Ledger
    requires forall k :: 0 <= k < |order| ==> order[k] < |ms|
  {
    if order == [] then Ledger(0, [])
    else
      var before := Run(ms, escrow, ps, order[..|order| - 1]);
      var amount := ms[order[|order| - 1]].amount;
      Ledger(AfterRelease(escrow, before.released, amount), before.payouts + Distribute(amount, ps))
  }

  /** Amounts of the milestones not yet released; zero for the others. */
  function Unreleased(ms: seq<MilestoneDef>, order: seq<nat>): (ns: seq<nat>)
    ensures |ns| == |ms|
    ensures forall i :: 0 <= i < |ms| ==> ns[i] == if i in order then 0 else ms[i].amount
  {
    seq(|ms|, i requires 0 <= i < |ms| => OpenAmount(ms[i], i in order))
  }

  function OpenAmount(m: MilestoneDef, released: bool): nat {
    if released then 0 else m.amount
  }

  lemma {:induction false} SumUpdate(ns: seq<nat>, i: nat, v: nat)
    requires i < |ns|
    ensures Sum(ns[i := v]) + ns[i] == Sum(ns) + v
    decreases |ns|
  {
    if i > 0 {
      SumUpdate(ns[1..], i - 1, v);
      assert ns[i := v][1..] == ns[1..][i - 1 := v];
    } else {
      assert ns[i := v][1..] == ns[1..];
    }
  }

  lemma {:induction false} TotalAppend(a: seq<Payout>, b: seq<Payout>)
    ensures Total(a + b) == Total(a) + Total(b)
  {
    assert Paid(a + b) == Paid(a) + Paid(b);
    SumAppend(Paid(a), Paid(b));
  }

  lemma {:induction false} ReleaseOne(ms: seq<MilestoneDef>, order: seq<nat>, i: nat)
    requires i < |ms| && i !in order
    ensures Sum(Unreleased(ms, order + [i])) + ms[i].amount == Sum(Unreleased(ms, order))
  {
    SumUpdate(Unreleased(ms, order), i, 0);
    assert Unreleased(ms, order + [i]) == Unreleased(ms, order)[i := 0];
  }

  /** The counter, the money paid and the milestones still open add up. */
  ghost predicate Balanced(ms: seq<MilestoneDef>, escrow: nat, l: Ledger, order: seq<nat>) {
    && l.released + Sum(Unreleased(ms, order)) == escrow
    && Remaining(escrow, l.released) == Sum(Unreleased(ms, order))
    && Total(l.payouts) == l.released
  }

  lemma {:induction false} ReleaseBalances(
    ms: seq<MilestoneDef>, escrow: nat, ps: seq<PayoutShare>, l: Ledger, order: seq<nat>, i: nat)
    requires escrow <= U64_MAX && i < |ms| && i !in order
    requires ps != [] && Sum(Shares(ps)) == FULL_SHARE
    requires Balanced(ms, escrow, l, order)
    ensures AfterRelease(escrow, l.released, ms[i].amount) == l.released + ms[i].amount
    ensures Balanced(ms, escrow, Ledger(l.released + ms[i].amount, l.payouts + Distribute(ms[i].amount, ps)),
      order + [i])
  {
    ReleaseOne(ms, order, i);
    FairSplit(ms[i].amount, ps);
    TotalAppend(l.payouts, Distribute(ms[i].amount, ps));
  }

  /**
   So they do at every point of a run over a valid agreement, where the
   counter neither saturates nor is cut.
   */
  lemma {:induction false} RunConserves(ms: seq<MilestoneDef>, escrow: nat, ps: seq<PayoutShare>, order: seq<nat>)
    requires escrow <= U64_MAX && Sum(Amounts(ms)) == escrow
    requires ps != [] && Sum(Shares(ps)) == FULL_SHARE
    requires OnceEach(order, |ms|)
    ensures Balanced(ms, escrow, Run(ms, escrow, ps, order), order)
    decreases |order|
  {
    if order == [] {
      assert Unreleased(ms, order) == Amounts(ms);
    } else {
      var last := |order| - 1;
      RunConserves(ms, escrow, ps, order[..last]);
      assert order == order[..last] + [order[last]];
      ReleaseBalances(ms, escrow, ps, Run(ms, escrow, ps, order[..last]), order[..last], order[last]);
    }
  }

  /** When every milestone has been released nothing is open. */
  lemma {:induction false} AllReleased(ms: seq<MilestoneDef>, order: seq<nat>)
    requires OnceEach(order, |ms|) && |order| == |ms|
    ensures Sum(Unreleased(ms, order)) == 0
  {
    Covers(order, |ms|);
    SumOfZeros(Unreleased(ms, order));
  }

  lemma {:induction false} SumOfZeros(ns: seq<nat>)
    requires forall i :: 0 <= i < |ns| ==> ns[i] == 0
    ensures Sum(ns) == 0
    decreases |ns|
  {
    if ns != [] {
      SumOfZeros(ns[1..]);
    }
  }

  lemma {:induction false} Covers(order: seq<nat>, n: nat)
    requires OnceEach(order, n) && |order| == n
    ensures forall i :: 0 <= i < n ==> i in order
  {
    MembersCount(order);
    Subset(Members(order), Below(n));
  }

  function Members(order: seq<nat>): (s: set<nat>)
    ensures forall i :: i in s <==> i in order
  {
    set k | 0 <= k < |order| :: order[k]
  }

  /** The numbers below `n`. */
  function Below(n: nat): (s: set<nat>)
    ensures |s| == n && forall i: nat :: i in s <==> i < n
  {
    if n == 0 then {} else Below(n - 1) + {n - 1}
  }

  lemma {:induction false} Subset(a: set<nat>, b: set<nat>)
    requires a <= b && |a| == |b|
    ensures a == b
  {
    assert |b - a| == |b| - |a|;
  }

  lemma {:induction false} MembersCount(order: seq<nat>)
    requires forall j, k :: 0 <= j < k < |order| ==> order[j] != order[k]
    ensures |Members(order)| == |order|
    decreases |order|
  {
    if order != [] {
      var last := |order| - 1;
      MembersCount(order[..last]);
      assert order == order[..last] + [order[last]];
      assert Members(order) == Members(order[..last]) + {order[last]};
    }
  }

  /**
   For any agreement the chain accepts: release each milestone at most once,
   in any order, and what was paid, what is open and the escrow always add
   up; releasing all pays out exactly the escrow.
   */
  lemma {:induction false} SettlementConserves(
    proposer: Address, d: AgreementCreateData, same: SameEntity, order: seq<nat>)
    requires RustAccepts(proposer, d, same) && OnceEach(order, |d.milestones|)
    ensures var l := Run(d.milestones, d.escrowAmount, Effective(d.serviceProvider, d.settlementAllocations), order);
      && Remaining(d.escrowAmount, l.released) == Sum(Unreleased(d.milestones, order))
      && Total(l.payouts) == l.released == d.escrowAmount - Remaining(d.escrowAmount, l.released)
      && (|order| == |d.milestones| ==> Total(l.payouts) == d.escrowAmount)
  {
    var ps := Effective(d.serviceProvider, d.settlementAllocations);
    EffectiveWhole(d.serviceProvider, d.settlementAllocations);
    RunConserves(d.milestones, d.escrowAmount, ps, order);
    if |order| == |d.milestones| {
      AllReleased(d.milestones, order);
    }
  }

  lemma {:induction false} EffectiveWhole(provider: Address, ps: seq<PayoutShare>)
    requires ps == [] || Sum(Shares(ps)) == FULL_SHARE
    ensures Sum(Shares(Effective(provider, ps))) == FULL_SHARE
  {
  }

  /** One release on the stored agreement, and the payouts it causes. */
  method SettleMilestone(agreement: Agreement, m: MilestoneDef, ps: seq<PayoutShare>) returns (payouts: seq<Payout>)
    modifies agreement`escrowReleased
    ensures agreement.escrowReleased == AfterRelease(agreement.escrowAmount, old(agreement.escrowReleased), m.amount)
    ensures payouts == Distribute(m.amount, ps)
  {
    payouts := DistributeAmount(m.amount, ps);
    agreement.RecordEscrowRelease(m.amount);
  }

  /** Releasing milestones one by one on the stored agreement follows the run. */
  method SettleInOrder(
    agreement: Agreement, ms: seq<MilestoneDef>, ps: seq<PayoutShare>, order: seq<nat>) returns (payouts: seq<Payout>)
    requires forall k :: 0 <= k < |order| ==> order[k] < |ms|
    requires agreement.escrowReleased == 0
    modifies agreement`escrowReleased
    ensures Ledger(agreement.escrowReleased, payouts) == Run(ms, agreement.escrowAmount, ps, order)
  {
    payouts := [];
    for k := 0 to |order|
      invariant Ledger(agreement.escrowReleased, payouts) == Run(ms, agreement.escrowAmount, ps, order[..k])
    {
      assert order[..k + 1][..k] == order[..k];
      var more := SettleMilestone(agreement, ms[order[k]], ps);
      payouts := payouts + more;
    }
    assert order[..|order|] == order;
  }
}
