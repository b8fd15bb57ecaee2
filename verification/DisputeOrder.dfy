/** When the order in which dispute effects are listed decides whether they are accepted. */
module DisputeOrder {
  import opened Ordering
  import opened DisputeEffects

  // ---------------------------------------------------------------------
  // All listings
  // ---------------------------------------------------------------------

  /** Which of two opponents is listed first matters exactly where the entity test is not symmetric on them. */
  lemma {:induction false} PairOrderIff(parties: seq<Address>, a: Address, b: Address, same: SameEntity)
    requires a != b && a in parties && b in parties
    ensures same(a, b) == same(b, a)
        <==> (EffectsOk(parties, [Effect(a, Won), Effect(b, Lost)], same)
          <==> EffectsOk(parties, [Effect(b, Lost), Effect(a, Won)], same))
  {
    PairOk(parties, Effect(a, Won), Effect(b, Lost), same);
    PairOk(parties, Effect(b, Lost), Effect(a, Won), same);
  }

  lemma {:induction false} PairOk(parties: seq<Address>, e: Effect, f: Effect, same: SameEntity)
    requires e.party != f.party && e.outcome != f.outcome && e.party in parties && f.party in parties
    ensures EffectsOk(parties, [e, f], same) <==> !same(e.party, f.party)
  {
    var es := [e, f];
    assert es[0] == e && es[1] == f;
    assert Saw(es, e.outcome) && Saw(es, f.outcome);
    assert DistinctEntities(es, same) <==> !same(es[0].party, es[1].party);
  }

  /** Listings of the same effects are accepted or refused together. */
  ghost predicate ListingsAgree(parties: seq<Address>, same: SameEntity) {
    forall es: seq<Effect>, fs: seq<Effect> :: multiset(es) == multiset(fs) ==>
      (EffectsOk(parties, es, same) <==> EffectsOk(parties, fs, same))
  }

  lemma {:induction false} Swapped(e: Effect, f: Effect)
    ensures multiset([e, f]) == multiset([f, e])
  {
  }

  /**
   For every collection of effects the listing order is irrelevant, if and
   only if the entity test is symmetric on different parties.
   */
  lemma {:induction false} OrderIrrelevantIff(parties: seq<Address>, same: SameEntity)
    ensures ListingsAgree(parties, same) <==> SymmetricOn(parties, same)
  {
    if SymmetricOn(parties, same) {
      forall es: seq<Effect>, fs: seq<Effect> | multiset(es) == multiset(fs)
        ensures EffectsOk(parties, es, same) <==> EffectsOk(parties, fs, same)
      {
        OrderIsIrrelevant(parties, es, fs, same);
      }
    }
    if ListingsAgree(parties, same) {
      forall a, b | a in parties && b in parties && a != b
        ensures same(a, b) == same(b, a)
      {
        PairOrderIff(parties, a, b, same);
        Swapped(Effect(a, Won), Effect(b, Lost));
      }
    }
  }

  // ---------------------------------------------------------------------
  // The listings of one collection
  // ---------------------------------------------------------------------

  function Nobody(a: Address, b: Address): bool {
    false
  }

  /** What acceptance asks of the effects apart from entities; no matter of order. */
  ghost predicate BaseOk(parties: seq<Address>, es: seq<Effect>) {
    EffectsOk(parties, es, Nobody)
  }

  lemma {:induction false} BaseAlike(parties: seq<Address>, es: seq<Effect>, fs: seq<Effect>)
    requires multiset(es) == multiset(fs)
    ensures BaseOk(parties, es) <==> BaseOk(parties, fs)
  {
    OrderIsIrrelevant(parties, es, fs, Nobody);
  }

  lemma {:induction false} BaseAndEntities(parties: seq<Address>, es: seq<Effect>, same: SameEntity)
    ensures EffectsOk(parties, es, same) <==> BaseOk(parties, es) && DistinctEntities(es, same)
  {
  }

  /** Nothing in `group` has the same entity as something else in it. */
  ghost predicate CanGoFirst(x: Effect, group: set<Effect>, same: SameEntity) {
    forall y :: y in group && y != x ==> !same(x.party, y.party)
  }

  ghost predicate HasFirst(group: set<Effect>, same: SameEntity) {
    exists x :: x in group && CanGoFirst(x, group, same)
  }

  ghost predicate Within(group: set<Effect>, es: seq<Effect>) {
    forall e :: e in group ==> e in es
  }

  /** The entity test has no cycle among the listed parties: every group of effects has one that can go first. */
  ghost predicate Acyclic(es: seq<Effect>, same: SameEntity) {
    forall group: set<Effect> :: Within(group, es) && group != {} ==> HasFirst(group, same)
  }

  function Members(es: seq<Effect>): (s: set<Effect>)
    ensures forall e :: e in s <==> e in es
  {
    set e | e in es
  }

  function Rest(es: seq<Effect>, i: nat): (rest: seq<Effect>)
    requires i < |es|
    ensures |rest| == |es| - 1
    ensures forall j :: 0 <= j < |rest| ==> rest[j] == es[if j < i then j else j + 1]
  {
    es[..i] + es[i + 1..]
  }

  lemma {:induction false} RestBag(es: seq<Effect>, i: nat)
    requires i < |es|
    ensures multiset([es[i]] + Rest(es, i)) == multiset(es)
  {
    assert es == es[..i] + [es[i]] + es[i + 1..];
  }

  lemma {:induction false} RestDistinct(es: seq<Effect>, i: nat)
    requires i < |es| && DistinctParties(es)
    ensures DistinctParties(Rest(es, i)) && es[i] !in Rest(es, i)
  {
  }

  lemma {:induction false} RestAcyclic(es: seq<Effect>, i: nat, same: SameEntity)
    requires i < |es| && Acyclic(es, same)
    ensures Acyclic(Rest(es, i), same)
  {
    forall group: set<Effect> | Within(group, Rest(es, i)) && group != {}
      ensures HasFirst(group, same)
    {
      assert Within(group, es);
    }
  }

  lemma {:induction false} Prepend(x: Effect, tail: seq<Effect>, same: SameEntity, group: set<Effect>)
    requires CanGoFirst(x, group, same) && DistinctEntities(tail, same)
    requires forall e :: e in tail ==> e in group && e != x
    ensures DistinctEntities([x] + tail, same)
  {
    forall j | 0 <= j < |tail|
      ensures !same(x.party, tail[j].party)
    {
      assert tail[j] in tail;
    }
  }

  /** Without a cycle there is an acceptable listing. */
  lemma {:induction false} GoodListing(es: seq<Effect>, same: SameEntity) returns (fs: seq<Effect>)
    requires DistinctParties(es) && Acyclic(es, same)
    ensures multiset(fs) == multiset(es) && DistinctEntities(fs, same)
    decreases |es|
  {
    if es == [] {
      return [];
    }
    var all := Members(es);
    assert es[0] in all && Within(all, es);
    var x :| x in all && CanGoFirst(x, all, same);
    var i :| 0 <= i < |es| && es[i] == x;
    var rest := Rest(es, i);
    RestBag(es, i);
    RestDistinct(es, i);
    RestAcyclic(es, i, same);
    var tail := GoodListing(rest, same);
    SameMembers(tail, rest);
    Prepend(x, tail, same, all);
    fs := [x] + tail;
    assert multiset(fs) == multiset([x] + rest);
  }

  /** In an acceptable listing the first of any group can go first. */
  lemma {:induction false} ListedFirst(fs: seq<Effect>, same: SameEntity, group: set<Effect>)
    requires DistinctEntities(fs, same) && group != {} && Within(group, fs)
    ensures HasFirst(group, same)
    decreases |fs|
  {
    if fs[0] in group {
      forall y | y in group && y != fs[0]
        ensures !same(fs[0].party, y.party)
      {
        var j :| 0 <= j < |fs| && fs[j] == y;
        assert !same(fs[0].party, fs[j].party);
      }
      assert CanGoFirst(fs[0], group, same);
    } else {
      assert fs == [fs[0]] + fs[1..];
      ListedFirst(fs[1..], same, group);
    }
  }

  ghost predicate SomeListingAccepted(parties: seq<Address>, es: seq<Effect>, same: SameEntity) {
    exists fs: seq<Effect> :: multiset(fs) == multiset(es) && EffectsOk(parties, fs, same)
  }

  ghost predicate SomeListingRefused(parties: seq<Address>, es: seq<Effect>, same: SameEntity) {
    exists fs: seq<Effect> :: multiset(fs) == multiset(es) && !EffectsOk(parties, fs, same)
  }

  /** Two listed effects are of one entity, in some direction. */
  ghost predicate SomePair(es: seq<Effect>, same: SameEntity) {
    exists e, f :: e in es && f in es && e != f && same(e.party, f.party)
  }

  /**
   Effects can be listed acceptably if and only if they are good otherwise
   and the entity test has no cycle on them.
   */
  lemma {:induction false} SomeAcceptedIff(parties: seq<Address>, es: seq<Effect>, same: SameEntity)
    ensures SomeListingAccepted(parties, es, same) <==> BaseOk(parties, es) && Acyclic(es, same)
  {
    if SomeListingAccepted(parties, es, same) {
      var fs: seq<Effect> :| multiset(fs) == multiset(es) && EffectsOk(parties, fs, same);
      BaseAndEntities(parties, fs, same);
      BaseAlike(parties, es, fs);
      SameMembers(fs, es);
      forall group: set<Effect> | Within(group, es) && group != {}
        ensures HasFirst(group, same)
      {
        ListedFirst(fs, same, group);
      }
    }
    if BaseOk(parties, es) && Acyclic(es, same) {
      var fs := GoodListing(es, same);
      BaseAlike(parties, es, fs);
      BaseAndEntities(parties, fs, same);
    }
  }

  lemma {:induction false} BadListing(es: seq<Effect>, same: SameEntity, e: Effect, f: Effect) returns (fs: seq<Effect>)
    requires e in es && f in es && e != f && same(e.party, f.party)
    ensures multiset(fs) == multiset(es) && !DistinctEntities(fs, same)
  {
    var i :| 0 <= i < |es| && es[i] == e;
    RestBag(es, i);
    fs := [e] + Rest(es, i);
    SameMembers(es, fs);
    assert f in fs;
    var j :| 0 <= j < |fs| && fs[j] == f;
    assert same(fs[0].party, fs[j].party);
  }

  /** A listing that is refused for its entities shows a pair. */
  lemma {:induction false} RefusedPair(fs: seq<Effect>, same: SameEntity)
    requires DistinctParties(fs) && !DistinctEntities(fs, same)
    ensures SomePair(fs, same)
  {
    var i: nat, j: nat :| 0 <= i < j < |fs| && same(fs[i].party, fs[j].party);
    assert fs[i] in fs && fs[j] in fs && fs[i] != fs[j];
  }

  /** Effects that are good otherwise are refused in some order if and only if two of them are of one entity. */
  lemma {:induction false} SomeRefusedIff(parties: seq<Address>, es: seq<Effect>, same: SameEntity)
    requires BaseOk(parties, es)
    ensures SomeListingRefused(parties, es, same) <==> SomePair(es, same)
  {
    if SomePair(es, same) {
      var e, f :| e in es && f in es && e != f && same(e.party, f.party);
      var fs := BadListing(es, same, e, f);
      BaseAndEntities(parties, fs, same);
    }
    if SomeListingRefused(parties, es, same) {
      var fs: seq<Effect> :| multiset(fs) == multiset(es) && !EffectsOk(parties, fs, same);
      BaseAlike(parties, es, fs);
      BaseAndEntities(parties, fs, same);
      SameMembers(fs, es);
      RefusedPair(fs, same);
    }
  }

  /**
   For one collection of effects the order they are listed in matters if and
   only if they are good otherwise, the entity test relates two of them, and
   it has no cycle on them.
   */
  lemma {:induction false} ListingMattersIff(parties: seq<Address>, es: seq<Effect>, same: SameEntity)
    ensures SomeListingAccepted(parties, es, same) && SomeListingRefused(parties, es, same)
        <==> BaseOk(parties, es) && SomePair(es, same) && Acyclic(es, same)
  {
    SomeAcceptedIff(parties, es, same);
    if BaseOk(parties, es) {
      SomeRefusedIff(parties, es, same);
    }
  }
}
