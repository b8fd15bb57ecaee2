/** Reputation effects of a dispute: their canonical form, and who opposes whom. */
module DisputeEffects {
  import opened Wrappers
  import opened Ordering
  import Agreements

  type Address = Agreements.Address
  type SameEntity = Agreements.SameEntity

  datatype Outcome = Won | Lost

  datatype Effect = Effect(party: Address, outcome: Outcome)

  datatype EffectError = NotAParty | DuplicateParty | OneSided | SameEntityTwice

  function Rank(o: Outcome): nat {
    if o == Won then 0 else 1
  }

  /** Effects are ordered by party, then by outcome. */
  function Key(e: Effect): (k: seq<int>)
    ensures |k| == 21
  {
    e.party + [Rank(e.outcome)]
  }

  // ---------------------------------------------------------------------
  // What is accepted
  // ---------------------------------------------------------------------

  ghost predicate DistinctParties(es: seq<Effect>) {
    forall i, j :: 0 <= i < j < |es| ==> es[i].party != es[j].party
  }

  /** No effect has the same entity as a later one. */
  ghost predicate DistinctEntities(es: seq<Effect>, same: SameEntity) {
    forall i, j :: 0 <= i < j < |es| ==> !same(es[i].party, es[j].party)
  }

  ghost predicate Saw(es: seq<Effect>, o: Outcome) {
    exists i :: 0 <= i < |es| && es[i].outcome == o
  }

  ghost predicate AllParties(es: seq<Effect>, parties: seq<Address>) {
    forall i :: 0 <= i < |es| ==> es[i].party in parties
  }

  ghost predicate EffectsOk(parties: seq<Address>, es: seq<Effect>, same: SameEntity) {
    && AllParties(es, parties)
    && DistinctParties(es)
    && (es != [] ==> Saw(es, Won) && Saw(es, Lost))
    && DistinctEntities(es, same)
  }

  function Canonical(es: seq<Effect>): seq<Effect> {
    SortBy(Key, es)
  }

  /** Party by party, each below all later ones: smaller at the first byte where they differ. */
  ghost predicate AscendingParties(es: seq<Effect>) {
    forall i, j :: 0 <= i < j < |es| ==> Below(es[i].party, es[j].party)
  }

  lemma {:induction false} PartyDecides(e: Effect, f: Effect)
    requires e.party != f.party
    ensures Below(Key(e), Key(f)) <==> Below(e.party, f.party)
  {
    var x, y := Key(e), Key(f);
    assert x[..20] == e.party && y[..20] == f.party;
    if k: nat :| BelowAt(x, y, k) {
      assert k < 20;
      assert e.party[..k] == x[..k] && f.party[..k] == y[..k];
      assert BelowAt(e.party, f.party, k);
    }
    if k: nat :| BelowAt(e.party, f.party, k) {
      assert k < 20;
      assert e.party[..k] == x[..k] && f.party[..k] == y[..k];
      assert BelowAt(x, y, k);
    }
  }

  /** Effects of one party: a won one comes before a lost one. */
  lemma {:induction false} OutcomeDecides(a: Address)
    ensures Below(Key(Effect(a, Won)), Key(Effect(a, Lost))) && !Below(Key(Effect(a, Lost)), Key(Effect(a, Won)))
  {
    var x, y := Key(Effect(a, Won)), Key(Effect(a, Lost));
    assert x[..20] == a == y[..20];
    assert BelowAt(x, y, 20);
    LexLessIff(x, y);
    LexLessIff(y, x);
    LexTrichotomy(x, y);
  }

  /** Normalizing puts the parties in ascending order, byte by byte. */
  lemma {:induction false} NormalizedAscend(es: seq<Effect>)
    requires DistinctParties(es)
    ensures AscendingParties(Canonical(es))
  {
    var cs := Canonical(es);
    KeysDiffer(es);
    SortByAscends(Key, es);
    SortBySorted(Key, es);
    SameMembers(cs, es);
    forall i, j | 0 <= i < j < |cs|
      ensures Below(cs[i].party, cs[j].party)
    {
      assert cs[i] in es && cs[j] in es;
      LexTrichotomy(Key(cs[i]), Key(cs[j]));
      PartyDecides(cs[i], cs[j]);
    }
  }

  /** What each error says is wrong. */
  ghost predicate Fault(e: EffectError, parties: seq<Address>, es: seq<Effect>, same: SameEntity) {
    match e
    case NotAParty => !AllParties(es, parties)
    case DuplicateParty => !DistinctParties(es)
    case OneSided => es != [] && !(Saw(es, Won) && Saw(es, Lost))
    case SameEntityTwice => !DistinctEntities(es, same)
  }

  /** The first loop of the normalization. */
  method CheckParties(parties: seq<Address>, es: seq<Effect>) returns (r: Result<(bool, bool), EffectError>)
    ensures r.Ok? <==> AllParties(es, parties) && DistinctParties(es)
    ensures r.Ok? ==> r.value == (Saw(es, Won), Saw(es, Lost))
    ensures r.Err? ==>
      if r.error == NotAParty then !AllParties(es, parties) else r.error == DuplicateParty && !DistinctParties(es)
  {
    var seen: set<Address> := {};
    var winner, loser := false, false;
    for i := 0 to |es|
      invariant forall k :: 0 <= k < i ==> es[k].party in seen
      invariant forall a :: a in seen ==> exists k :: 0 <= k < i && es[k].party == a
      invariant AllParties(es[..i], parties) && DistinctParties(es[..i])
      invariant winner <==> Saw(es[..i], Won)
      invariant loser <==> Saw(es[..i], Lost)
    {
      if es[i].party !in parties {
        return Err(NotAParty);
      }
      if es[i].party in seen {
        assert !DistinctParties(es);
        return Err(DuplicateParty);
      }
      assert es[..i + 1] == es[..i] + [es[i]];
      SawSnoc(es[..i], es[i]);
      seen := seen + {es[i].party};
      match es[i].outcome {
        case Won => winner := true;
        case Lost => loser := true;
      }
    }
    assert es[..|es|] == es;
    r := Ok((winner, loser));
  }

  lemma {:induction false} SawSnoc(es: seq<Effect>, e: Effect)
    ensures forall o :: Saw(es + [e], o) <==> Saw(es, o) || e.outcome == o
  {
    forall o
      ensures Saw(es + [e], o) <==> Saw(es, o) || e.outcome == o
    {
      if Saw(es, o) {
        var i :| 0 <= i < |es| && es[i].outcome == o;
        assert (es + [e])[i].outcome == o;
      }
      assert (es + [e])[|es|] == e;
    }
  }

  /** The nested loops over all pairs. */
  method CheckEntities(es: seq<Effect>, same: SameEntity) returns (ok: bool)
    ensures ok <==> DistinctEntities(es, same)
  {
    for i := 0 to |es|
      invariant forall j, k :: 0 <= j < i && j < k < |es| ==> !same(es[j].party, es[k].party)
    {
      for l := i + 1 to |es|
        invariant forall k :: i < k < l ==> !same(es[i].party, es[k].party)
      {
        if same(es[i].party, es[l].party) {
          return false;
        }
      }
    }
    ok := true;
  }

  method NormalizeDisputeReputationEffects(parties: seq<Address>, es: seq<Effect>, same: SameEntity)
    returns (r: Result<seq<Effect>, EffectError>)
    ensures r.Ok? <==> EffectsOk(parties, es, same)
    ensures r.Ok? ==> r.value == Canonical(es) && AscendingParties(r.value) && multiset(r.value) == multiset(es)
    ensures r.Err? ==> Fault(r.error, parties, es, same)
  {
    var sides := CheckParties(parties, es);
    if sides.Err? {
      return Err(sides.error);
    }
    if es != [] && (!sides.value.0 || !sides.value.1) {
      return Err(OneSided);
    }
    var ok := CheckEntities(es, same);
    if !ok {
      return Err(SameEntityTwice);
    }
    NormalizedAscend(es);
    r := Ok(SortBy(Key, es));
  }

  // ---------------------------------------------------------------------
  // Order of the input
  // ---------------------------------------------------------------------

  /** The entity test is symmetric on different parties. */
  ghost predicate SymmetricOn(parties: seq<Address>, same: SameEntity) {
    forall a, b :: a in parties && b in parties && a != b ==> same(a, b) == same(b, a)
  }

  /** Acceptance said of the effects as a multiset. */
  ghost predicate BagOk(parties: seq<Address>, m: multiset<Effect>, same: SameEntity) {
    && (forall e :: e in m ==> m[e] == 1 && e.party in parties)
    && (forall e, f :: e in m && f in m && e != f ==> e.party != f.party && !same(e.party, f.party))
    && (m != multiset{} ==> (exists e :: e in m && e.outcome == Won) && (exists e :: e in m && e.outcome == Lost))
  }

  lemma {:induction false} OnceInBag(es: seq<Effect>)
    requires DistinctParties(es)
    ensures forall e :: e in es ==> multiset(es)[e] == 1
    decreases |es|
  {
    if es != [] {
      OnceInBag(es[1..]);
      assert es == [es[0]] + es[1..];
      forall e | e in es
        ensures multiset(es)[e] == 1
      {
        if e == es[0] {
          assert forall j :: 0 <= j < |es[1..]| ==> es[1..][j] == es[j + 1] && es[1..][j] != e;
          assert e !in es[1..];
        }
      }
    }
  }

  lemma {:induction false} TwiceInBag(es: seq<Effect>, i: nat, j: nat)
    requires i < j < |es| && es[i] == es[j]
    ensures multiset(es)[es[i]] >= 2
  {
    assert es == es[..j] + es[j..];
    assert es[..j][i] in es[..j] && es[j..][0] in es[j..];
  }

  lemma {:induction false} SeqToBag(parties: seq<Address>, es: seq<Effect>, same: SameEntity)
    requires SymmetricOn(parties, same) && EffectsOk(parties, es, same)
    ensures BagOk(parties, multiset(es), same)
  {
    var m := multiset(es);
    OnceInBag(es);
    forall e | e in m
      ensures m[e] == 1 && e.party in parties
    {
      assert e in es;
    }
    forall e, f | e in m && f in m && e != f
      ensures e.party != f.party && !same(e.party, f.party)
    {
      OpposedPair(parties, es, same, e, f);
    }
    if es != [] {
      var w :| 0 <= w < |es| && es[w].outcome == Won;
      var l :| 0 <= l < |es| && es[l].outcome == Lost;
      assert es[w] in m && es[l] in m;
    }
  }

  /** Different listed effects are of different parties and entities, either way round. */
  lemma {:induction false} OpposedPair(parties: seq<Address>, es: seq<Effect>, same: SameEntity, e: Effect, f: Effect)
    requires SymmetricOn(parties, same) && AllParties(es, parties) && DistinctParties(es) && DistinctEntities(es, same)
    requires e in es && f in es && e != f
    ensures e.party != f.party && !same(e.party, f.party)
  {
  }

  lemma {:induction false} BagToSeq(parties: seq<Address>, es: seq<Effect>, same: SameEntity)
    requires BagOk(parties, multiset(es), same)
    ensures EffectsOk(parties, es, same)
  {
    var m := multiset(es);
    forall i | 0 <= i < |es|
      ensures es[i] in m
    {
      assert es[i] in es;
    }
    forall i, j | 0 <= i < j < |es|
      ensures es[i].party != es[j].party && !same(es[i].party, es[j].party)
    {
      if es[i] == es[j] {
        TwiceInBag(es, i, j);
      }
    }
    if es != [] {
      assert es[0] in m;
      var w :| w in m && w.outcome == Won;
      var l :| l in m && l.outcome == Lost;
      assert w in es && l in es;
    }
  }

  lemma {:induction false} KeysDiffer(es: seq<Effect>)
    requires DistinctParties(es)
    ensures DistinctKeys(Key, es)
  {
    forall i, j | 0 <= i < j < |es|
      ensures Key(es[i]) != Key(es[j])
    {
      assert Key(es[i])[..20] == es[i].party && Key(es[j])[..20] == es[j].party;
    }
  }

  /** The order effects are listed in decides nothing: they are accepted alike, and have one canonical form. */
  lemma {:induction false} OrderIsIrrelevant(parties: seq<Address>, es: seq<Effect>, fs: seq<Effect>, same: SameEntity)
    requires SymmetricOn(parties, same) && multiset(es) == multiset(fs)
    ensures EffectsOk(parties, es, same) <==> EffectsOk(parties, fs, same)
    ensures EffectsOk(parties, es, same) ==> Canonical(es) == Canonical(fs)
  {
    if EffectsOk(parties, fs, same) {
      SeqToBag(parties, fs, same);
      BagToSeq(parties, es, same);
    }
    if EffectsOk(parties, es, same) {
      SeqToBag(parties, es, same);
      BagToSeq(parties, fs, same);
      KeysDiffer(es);
      KeysDiffer(fs);
      SameMembers(es, fs);
      SortByPermutation(Key, es, fs);
    }
  }

  // ---------------------------------------------------------------------
  // The stored form
  // ---------------------------------------------------------------------

  /** DisputeResolution::new sorts again, which leaves normalized effects as they are, strictly ascending. */
  lemma {:induction false} CanonicalIsStored(parties: seq<Address>, es: seq<Effect>, same: SameEntity)
    requires EffectsOk(parties, es, same)
    ensures AscendingParties(Canonical(es)) && multiset(Canonical(es)) == multiset(es)
    ensures Canonical(Canonical(es)) == Canonical(es)
  {
    KeysDiffer(es);
    SortBySorted(Key, es);
    SortByIdempotent(Key, Canonical(es));
    NormalizedAscend(es);
  }

  // ---------------------------------------------------------------------
  // Counterparties
  // ---------------------------------------------------------------------

  predicate Opposes(party: Address, outcome: Outcome, e: Effect, same: SameEntity) {
    e.outcome != outcome && !same(party, e.party)
  }

  /** The least opposing party, if any. */
  function Counterparty(party: Address, outcome: Outcome, es: seq<Effect>, same: SameEntity): Option<Address>
    decreases |es|
  {
    if es == [] then None
    else
      var rest := Counterparty(party, outcome, es[1..], same);
      if !Opposes(party, outcome, es[0], same) then rest
      else if rest.Some? && LexLess(rest.value, es[0].party) then rest
      else Some(es[0].party)
  }

  ghost predicate LeastOpposing(c: Address, party: Address, outcome: Outcome, es: seq<Effect>, same: SameEntity) {
    && (exists i :: 0 <= i < |es| && es[i].party == c && Opposes(party, outcome, es[i], same))
    && forall i :: 0 <= i < |es| && Opposes(party, outcome, es[i], same) ==> !LexLess(es[i].party, c)
  }

  /** It opposes, and is below every other party that does: smaller at the first byte where they differ. */
  ghost predicate LowestOpposing(c: Address, party: Address, outcome: Outcome, es: seq<Effect>, same: SameEntity) {
    && (exists e :: e in es && e.party == c && e.outcome != outcome && !same(party, e.party))
    && forall e :: e in es && e.outcome != outcome && !same(party, e.party) ==> e.party == c || Below(c, e.party)
  }

  /** A counterparty exists exactly when someone opposes, and is the lowest of those who do. */
  lemma {:induction false} CounterpartyIsLowest(party: Address, outcome: Outcome, es: seq<Effect>, same: SameEntity)
    ensures var c := Counterparty(party, outcome, es, same);
      && (c.None? <==> forall e :: e in es && e.outcome != outcome ==> same(party, e.party))
      && (c.Some? ==> LowestOpposing(c.value, party, outcome, es, same))
  {
    var c := Counterparty(party, outcome, es, same);
    CounterpartyIsLeast(party, outcome, es, same);
    forall e | c.Some? && e in es && e.outcome != outcome && !same(party, e.party)
      ensures e.party == c.value || Below(c.value, e.party)
    {
      var i :| 0 <= i < |es| && es[i] == e;
      assert Opposes(party, outcome, es[i], same);
      LexTrichotomy(c.value, e.party);
      LexLessIff(c.value, e.party);
    }
    if c.Some? {
      var i :| 0 <= i < |es| && es[i].party == c.value && Opposes(party, outcome, es[i], same);
      assert es[i] in es;
    }
    if c.None? {
      forall e | e in es && e.outcome != outcome
        ensures same(party, e.party)
      {
        var i :| 0 <= i < |es| && es[i] == e;
        assert !Opposes(party, outcome, es[i], same);
      }
    }
  }

  lemma {:induction false} CounterpartyIsLeast(party: Address, outcome: Outcome, es: seq<Effect>, same: SameEntity)
    ensures var c := Counterparty(party, outcome, es, same);
      && (c.None? <==> forall i :: 0 <= i < |es| ==> !Opposes(party, outcome, es[i], same))
      && (c.Some? ==> LeastOpposing(c.value, party, outcome, es, same))
    decreases |es|
  {
    if es != [] {
      var rest := Counterparty(party, outcome, es[1..], same);
      var c := Counterparty(party, outcome, es, same);
      CounterpartyIsLeast(party, outcome, es[1..], same);
      assert forall i :: 0 < i < |es| ==> es[i] == es[1..][i - 1];
      if c.Some? {
        LeastExtends(party, outcome, es, same, rest, c.value);
      }
    }
  }

  lemma {:induction false} LeastExtends(
    party: Address, outcome: Outcome, es: seq<Effect>, same: SameEntity, rest: Option<Address>, c: Address)
    requires es != []
    requires rest.None? ==> forall i :: 0 <= i < |es[1..]| ==> !Opposes(party, outcome, es[1..][i], same)
    requires rest.Some? ==> LeastOpposing(rest.value, party, outcome, es[1..], same)
    requires if !Opposes(party, outcome, es[0], same) then rest == Some(c)
             else if rest.Some? && LexLess(rest.value, es[0].party) then c == rest.value
             else c == es[0].party
    ensures LeastOpposing(c, party, outcome, es, same)
  {
    if rest == Some(c) {
      var k :| 0 <= k < |es[1..]| && es[1..][k].party == c && Opposes(party, outcome, es[1..][k], same);
      assert es[k + 1] == es[1..][k];
    }
    forall i | 0 <= i < |es| && Opposes(party, outcome, es[i], same)
      ensures !LexLess(es[i].party, c)
    {
      LexTrichotomy(es[i].party, c);
      if i > 0 {
        assert es[1..][i - 1] == es[i];
        NotBelow(es[i].party, rest.value, c);
      }
    }
  }

  /** What is not below `b` is not below `c`, when `b` is not below `c` either. */
  lemma {:induction false} NotBelow(a: seq<int>, b: seq<int>, c: seq<int>)
    requires !LexLess(a, b) && !LexLess(b, c)
    ensures !LexLess(a, c)
  {
    LexTrichotomy(a, b);
    LexTrichotomy(b, c);
    LexTrichotomy(a, c);
    if LexLess(a, c) && a != b && b != c {
      LexTransitive(c, b, a);
    }
  }

  /** Everyone listed has a counterparty: the least of all parties with the other outcome. */
  lemma {:induction false} EveryoneIsOpposed(parties: seq<Address>, es: seq<Effect>, same: SameEntity, e: Effect)
    requires SymmetricOn(parties, same) && EffectsOk(parties, es, same) && e in es
    ensures var c := Counterparty(e.party, e.outcome, Canonical(es), same);
      && c.Some?
      && (exists f :: f in es && f.party == c.value && f.outcome != e.outcome)
      && forall f :: f in es && f.outcome != e.outcome ==> f.party == c.value || Below(c.value, f.party)
  {
    var cs := Canonical(es);
    var c := Counterparty(e.party, e.outcome, cs, same);
    SameMembers(cs, es);
    CounterpartyIsLeast(e.party, e.outcome, cs, same);
    forall f | f in es && f.outcome != e.outcome
      ensures c.Some? && !LexLess(f.party, c.value)
    {
      OpposedPair(parties, es, same, e, f);
      assert f in cs;
      var k :| 0 <= k < |cs| && cs[k] == f;
      assert Opposes(e.party, e.outcome, cs[k], same);
    }
    var other := if e.outcome == Won then Lost else Won;
    assert Saw(es, other);
    var k :| 0 <= k < |es| && es[k].outcome == other;
    assert es[k] in es;
    var i :| 0 <= i < |cs| && cs[i].party == c.value && Opposes(e.party, e.outcome, cs[i], same);
    assert cs[i] in cs;
    forall f | f in es && f.outcome != e.outcome
      ensures f.party == c.value || Below(c.value, f.party)
    {
      LexTrichotomy(f.party, c.value);
      LexLessIff(c.value, f.party);
    }
  }
}
