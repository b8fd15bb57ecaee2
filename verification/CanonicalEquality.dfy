/** Two values have one canonical text exactly when they are the same JSON value. */
module CanonicalEquality {
  import opened Wrappers
  import opened Ordering
  import opened Characters
  import opened CanonicalJson
  import opened UniqueReading

  // ---------------------------------------------------------------------
  // The text is the print of the tree
  // ---------------------------------------------------------------------

  function PrintAll(ts: seq<TreeSlot>): (texts: seq<Text>)
    ensures |texts| == |ts| && forall i :: 0 <= i < |ts| ==> texts[i] == PrintSlot(ts[i])
  {
    seq(|ts|, i requires 0 <= i < |ts| => PrintSlot(ts[i]))
  }

  function MemberOf(b: Branch): Member {
    Member(b.key, Print(b.tree))
  }

  function MembersOf(bs: seq<Branch>): (ms: seq<Member>)
    ensures |ms| == |bs| && forall i :: 0 <= i < |bs| ==> ms[i] == MemberOf(bs[i])
  {
    seq(|bs|, i requires 0 <= i < |bs| => MemberOf(bs[i]))
  }

  lemma {:induction false} MembersOfCons(b: Branch, bs: seq<Branch>)
    ensures MembersOf([b] + bs) == [MemberOf(b)] + MembersOf(bs)
  {
  }

  lemma {:induction false} JoinedIsPrintItems(ts: seq<TreeSlot>)
    ensures Joined(PrintAll(ts)) == PrintItems(ts)
    decreases |ts|
  {
    if |ts| > 1 {
      assert PrintAll(ts)[1..] == PrintAll(ts[1..]);
      JoinedIsPrintItems(ts[1..]);
    }
  }

  lemma {:induction false} JoinedIsPrintBranches(bs: seq<Branch>)
    ensures Joined(MemberTexts(MembersOf(bs))) == PrintBranches(bs)
    decreases |bs|
  {
    if bs != [] {
      assert MemberTexts(MembersOf(bs))[0] == PrintBranch(bs[0]);
      if |bs| > 1 {
        assert MemberTexts(MembersOf(bs))[1..] == MemberTexts(MembersOf(bs[1..]));
        JoinedIsPrintBranches(bs[1..]);
      }
    }
  }

  /** Sorting by key does not look at the values. */
  lemma {:induction false} InsertMember(b: Branch, bs: seq<Branch>)
    ensures Insert(MemberKey, MemberOf(b), MembersOf(bs)) == MembersOf(Insert(BranchKey, b, bs))
    decreases |bs|
  {
    if bs == [] || !LexLess(BranchKey(bs[0]), BranchKey(b)) {
      assert [MemberOf(b)] + MembersOf(bs) == MembersOf([b] + bs);
    } else {
      assert MembersOf(bs)[1..] == MembersOf(bs[1..]);
      InsertMember(b, bs[1..]);
      MembersOfCons(bs[0], Insert(BranchKey, b, bs[1..]));
    }
  }

  lemma {:induction false} SortMembers(bs: seq<Branch>)
    ensures SortBy(MemberKey, MembersOf(bs)) == MembersOf(SortBy(BranchKey, bs))
    decreases |bs|
  {
    if bs != [] {
      assert MembersOf(bs)[1..] == MembersOf(bs[1..]);
      SortMembers(bs[1..]);
      InsertMember(bs[0], SortBy(BranchKey, bs[1..]));
    }
  }

  lemma {:induction false} CanonicalIsPrint(v: Json)
    ensures Canonical(v) == if Normal(v).Some? then Some(Print(Normal(v).value)) else None
    decreases v
  {
    match v
    case Array(items) =>
      CanonicalItemsArePrints(items);
      ArrayPrint(items);
    case Object(fields) =>
      CanonicalFieldsArePrints(fields);
      ObjectPrint(fields);
    case _ =>
  }

  lemma {:induction false} ArrayPrint(items: seq<Slot>)
    requires CanonicalItems(items) ==
      if NormalItems(items).Some? then Some(PrintAll(NormalItems(items).value)) else None
    ensures var v := Array(items);
      Canonical(v) == if Normal(v).Some? then Some(Print(Normal(v).value)) else None
  {
    if NormalItems(items).Some? {
      JoinedIsPrintItems(NormalItems(items).value);
    }
  }

  lemma {:induction false} ObjectPrint(fields: seq<Field>)
    requires CanonicalFields(fields) ==
      if NormalFields(fields).Some? then Some(MembersOf(NormalFields(fields).value)) else None
    ensures var v := Object(fields);
      Canonical(v) == if Normal(v).Some? then Some(Print(Normal(v).value)) else None
  {
    if NormalFields(fields).Some? {
      SortMembers(NormalFields(fields).value);
      JoinedIsPrintBranches(SortBy(BranchKey, NormalFields(fields).value));
    }
  }

  lemma {:induction false} CanonicalSlotIsPrint(slot: Slot)
    ensures CanonicalSlot(slot) == if NormalSlot(slot).Some? then Some(PrintSlot(NormalSlot(slot).value)) else None
    decreases slot
  {
    match slot
    case Hole =>
    case Filled(v) => CanonicalIsPrint(v);
  }

  lemma {:induction false} CanonicalItemsArePrints(items: seq<Slot>)
    ensures CanonicalItems(items) == if NormalItems(items).Some? then Some(PrintAll(NormalItems(items).value)) else None
    decreases items
  {
    if items != [] {
      CanonicalSlotIsPrint(items[0]);
      CanonicalItemsArePrints(items[1..]);
      if NormalSlot(items[0]).Some? && NormalItems(items[1..]).Some? {
        var t, ts := NormalSlot(items[0]).value, NormalItems(items[1..]).value;
        assert PrintAll([t] + ts) == [PrintSlot(t)] + PrintAll(ts);
      }
    }
  }

  lemma {:induction false} CanonicalFieldsArePrints(fields: seq<Field>)
    ensures CanonicalFields(fields) ==
      if NormalFields(fields).Some? then Some(MembersOf(NormalFields(fields).value)) else None
    decreases fields
  {
    if fields != [] {
      CanonicalFieldsArePrints(fields[1..]);
      if Kept(fields[0]) {
        CanonicalIsPrint(fields[0].value);
        if Normal(fields[0].value).Some? && NormalFields(fields[1..]).Some? {
          MembersOfCons(Branch(fields[0].key, Normal(fields[0].value).value), NormalFields(fields[1..]).value);
        }
      }
    }
  }

  // ---------------------------------------------------------------------
  // Which values have a text
  // ---------------------------------------------------------------------

  lemma {:induction false} NormalIffSerializable(v: Json)
    ensures Normal(v).Some? <==> Serializable(v)
    decreases v
  {
    match v
    case Array(items) => NormalItemsAt(items);
      forall i | 0 <= i < |items| && items[i].Filled?
        ensures Normal(items[i].value).Some? <==> Serializable(items[i].value)
      {
        NormalIffSerializable(items[i].value);
      }
    case Object(fields) => NormalFieldsAt(fields);
      forall i | 0 <= i < |fields|
        ensures Normal(fields[i].value).Some? <==> Serializable(fields[i].value)
      {
        NormalIffSerializable(fields[i].value);
      }
    case _ =>
  }

  lemma {:induction false} NormalItemsAt(items: seq<Slot>)
    ensures NormalItems(items).Some? <==> forall i :: 0 <= i < |items| ==> NormalSlot(items[i]).Some?
    ensures NormalItems(items).Some? ==>
      (|NormalItems(items).value| == |items|
       && forall i :: 0 <= i < |items| ==> Some(NormalItems(items).value[i]) == NormalSlot(items[i]))
    decreases items
  {
    if items != [] {
      NormalItemsAt(items[1..]);
      assert forall i :: 0 < i < |items| ==> items[i] == items[1..][i - 1];
      assert forall i :: 0 <= i < |items[1..]| ==> items[1..][i] == items[i + 1];
    }
  }

  /** The branch a kept property becomes. */
  ghost predicate Becomes(f: Field, b: Branch) {
    Kept(f) && f.key == b.key && Normal(f.value) == Some(b.tree)
  }

  lemma {:induction false} NormalFieldsAt(fields: seq<Field>)
    ensures NormalFields(fields).Some?
      <==> forall i :: 0 <= i < |fields| && Kept(fields[i]) ==> Normal(fields[i].value).Some?
    ensures NormalFields(fields).Some? ==>
      forall b :: b in NormalFields(fields).value <==> exists i :: 0 <= i < |fields| && Becomes(fields[i], b)
    decreases fields
  {
    if fields != [] {
      var rest := fields[1..];
      NormalFieldsAt(rest);
      assert forall i :: 0 < i < |fields| ==> fields[i] == rest[i - 1];
      assert forall i :: 0 <= i < |rest| ==> rest[i] == fields[i + 1];
      if NormalFields(fields).Some? {
        forall b
          ensures b in NormalFields(fields).value <==> exists i :: 0 <= i < |fields| && Becomes(fields[i], b)
        {
          BecomesCons(fields, b);
          if Kept(fields[0]) {
            var b0 := Branch(fields[0].key, Normal(fields[0].value).value);
            assert NormalFields(fields).value == [b0] + NormalFields(rest).value;
            assert b in NormalFields(fields).value <==> b == b0 || b in NormalFields(rest).value;
          }
        }
      }
    }
  }

  lemma {:induction false} BecomesCons(fields: seq<Field>, b: Branch)
    requires fields != []
    ensures (exists i :: 0 <= i < |fields| && Becomes(fields[i], b))
      <==> (Becomes(fields[0], b) || exists i :: 0 <= i < |fields[1..]| && Becomes(fields[1..][i], b))
  {
    if i :| 0 <= i < |fields| && Becomes(fields[i], b) {
      assert i > 0 ==> fields[1..][i - 1] == fields[i];
    }
    if i :| 0 <= i < |fields[1..]| && Becomes(fields[1..][i], b) {
      assert fields[1..][i] == fields[i + 1];
    }
  }

  lemma {:induction false} NormalFieldsDistinct(fields: seq<Field>)
    requires DistinctFields(fields) && NormalFields(fields).Some?
    ensures DistinctKeys(BranchKey, NormalFields(fields).value)
    decreases fields
  {
    if fields != [] {
      var rest := fields[1..];
      NormalFieldsDistinct(rest);
      NormalFieldsAt(rest);
      if Kept(fields[0]) {
        var bs := NormalFields(rest).value;
        forall j | 0 <= j < |bs|
          ensures bs[j].key != fields[0].key
        {
          assert bs[j] in bs;
          var i :| 0 <= i < |rest| && Becomes(rest[i], bs[j]);
          assert rest[i] == fields[i + 1];
        }
      }
    }
  }

  // ---------------------------------------------------------------------
  // Equal trees are the same value
  // ---------------------------------------------------------------------

  lemma {:induction false} NormalIffSame(v: Json, w: Json)
    requires WellFormed(v) && WellFormed(w) && Normal(v).Some? && Normal(w).Some?
    ensures Normal(v) == Normal(w) <==> Same(v, w)
    decreases v, 3
  {
    if v.Array? && w.Array? {
      ItemsIffSame(v, w);
    } else if v.Object? && w.Object? {
      if Same(v, w) {
        SameObjectsNormal(v, w);
      }
      if Normal(v) == Normal(w) {
        NormalObjectsSame(v, w);
      }
    }
  }

  lemma {:induction false} BlankIff(items: seq<Slot>)
    requires NormalItems(items).Some?
    ensures Blank(items) <==> NormalItems(items).value == [] || NormalItems(items).value == [HoleTree]
  {
    NormalItemsAt(items);
    var ts := NormalItems(items).value;
    if |items| == 1 {
      assert items == [items[0]] && ts == [ts[0]];
    }
  }

  lemma {:induction false} ItemsIffSame(v: Json, w: Json)
    requires v.Array? && w.Array?
    requires WellFormed(v) && WellFormed(w) && Normal(v).Some? && Normal(w).Some?
    ensures Normal(v) == Normal(w) <==> Same(v, w)
    decreases v, 2
  {
    NormalItemsAt(v.items);
    NormalItemsAt(w.items);
    var ts, us := NormalItems(v.items).value, NormalItems(w.items).value;
    BlankIff(v.items);
    BlankIff(w.items);
    if |v.items| == |w.items| {
      forall i | 0 <= i < |v.items|
        ensures NormalSlot(v.items[i]) == NormalSlot(w.items[i]) <==> SameSlot(v.items[i], w.items[i])
      {
        if v.items[i].Filled? && w.items[i].Filled? {
          NormalIffSame(v.items[i].value, w.items[i].value);
        }
      }
      assert ts == us <==> forall i :: 0 <= i < |ts| ==> ts[i] == us[i];
    }
  }

  lemma {:induction false} SameObjectsNormal(v: Json, w: Json)
    requires v.Object? && w.Object?
    requires WellFormed(v) && WellFormed(w) && Normal(v).Some? && Normal(w).Some? && Same(v, w)
    ensures Normal(v) == Normal(w)
    decreases v, 2
  {
    var bs, cs := NormalFields(v.fields).value, NormalFields(w.fields).value;
    forall b
      ensures b in bs <==> b in cs
    {
      SameBranches(v, w, b);
    }
    NormalFieldsDistinct(v.fields);
    NormalFieldsDistinct(w.fields);
    SortByPermutation(BranchKey, bs, cs);
  }

  lemma {:induction false} LookupFound(fields: seq<Field>, key: Text) returns (i: nat)
    requires Lookup(fields, key) != Undefined
    ensures i < |fields| && fields[i].key == key && fields[i].value == Lookup(fields, key)
    decreases |fields|
  {
    if fields[0].key == key {
      i := 0;
    } else {
      i := LookupFound(fields[1..], key);
      i := i + 1;
    }
  }

  lemma {:induction false} LookupAt(fields: seq<Field>, i: nat)
    requires DistinctFields(fields) && i < |fields|
    ensures Lookup(fields, fields[i].key) == fields[i].value
    decreases |fields|
  {
    if i > 0 {
      assert fields[1..][i - 1] == fields[i];
      LookupAt(fields[1..], i - 1);
    }
  }

  lemma {:induction false} SameKept(v: Json, w: Json)
    requires v != Undefined && Same(v, w)
    ensures w != Undefined
  {
  }

  /** The property of the other object that agrees with property `i`. */
  lemma {:induction false} Partner(v: Json, w: Json, i: nat) returns (j: nat)
    requires v.Object? && w.Object? && i < |v.fields| && Kept(v.fields[i]) && Same(v, w)
    ensures j < |w.fields| && Kept(w.fields[j]) && w.fields[j].key == v.fields[i].key
    ensures Same(v.fields[i].value, w.fields[j].value)
  {
    SameKept(v.fields[i].value, Lookup(w.fields, v.fields[i].key));
    j := LookupFound(w.fields, v.fields[i].key);
  }

  lemma {:induction false} PartnerBack(v: Json, w: Json, j: nat) returns (i: nat)
    requires v.Object? && w.Object? && j < |w.fields| && Kept(w.fields[j]) && Same(v, w) && DistinctFields(w.fields)
    ensures i < |v.fields| && Kept(v.fields[i]) && w.fields[j].key == v.fields[i].key
    ensures Same(v.fields[i].value, w.fields[j].value)
  {
    i := LookupFound(v.fields, w.fields[j].key);
    LookupAt(w.fields, j);
  }

  lemma {:induction false} SameFieldsBecome(f: Field, g: Field, b: Branch)
    requires WellFormed(f.value) && WellFormed(g.value) && Normal(f.value).Some? && Normal(g.value).Some?
    requires Kept(f) && Kept(g) && f.key == g.key && Same(f.value, g.value)
    ensures Becomes(f, b) <==> Becomes(g, b)
    decreases f.value, 4
  {
    NormalIffSame(f.value, g.value);
  }

  lemma {:induction false} SameBranches(v: Json, w: Json, b: Branch)
    requires v.Object? && w.Object?
    requires WellFormed(v) && WellFormed(w) && Normal(v).Some? && Normal(w).Some? && Same(v, w)
    ensures b in NormalFields(v.fields).value <==> b in NormalFields(w.fields).value
    decreases v, 1
  {
    NormalFieldsAt(v.fields);
    NormalFieldsAt(w.fields);
    if b in NormalFields(v.fields).value {
      var i :| 0 <= i < |v.fields| && Becomes(v.fields[i], b);
      var j := Partner(v, w, i);
      SameFieldsBecome(v.fields[i], w.fields[j], b);
    }
    if b in NormalFields(w.fields).value {
      var j :| 0 <= j < |w.fields| && Becomes(w.fields[j], b);
      var i := PartnerBack(v, w, j);
      SameFieldsBecome(v.fields[i], w.fields[j], b);
    }
  }

  /** With equal trees every branch of one object is a branch of the other. */
  lemma {:induction false} SharedBranch(v: Json, w: Json, f: Field) returns (j: nat)
    requires v.Object? && w.Object? && f in v.fields && Kept(f)
    requires Normal(v).Some? && Normal(v) == Normal(w)
    ensures j < |w.fields| && Kept(w.fields[j]) && w.fields[j].key == f.key
    ensures Normal(f.value).Some? && Normal(w.fields[j].value) == Normal(f.value)
  {
    var bs, cs := NormalFields(v.fields).value, NormalFields(w.fields).value;
    NormalFieldsAt(v.fields);
    NormalFieldsAt(w.fields);
    SameMembers(SortBy(BranchKey, bs), bs);
    SameMembers(SortBy(BranchKey, cs), cs);
    var i :| 0 <= i < |v.fields| && v.fields[i] == f;
    var b := Branch(f.key, Normal(f.value).value);
    assert Becomes(v.fields[i], b);
    assert b in bs && b in cs;
    j :| 0 <= j < |w.fields| && Becomes(w.fields[j], b);
  }

  lemma {:induction false} NormalObjectsSame(v: Json, w: Json)
    requires v.Object? && w.Object?
    requires WellFormed(v) && WellFormed(w) && Normal(v).Some? && Normal(v) == Normal(w)
    ensures Same(v, w)
    decreases v, 0
  {
    forall i | 0 <= i < |v.fields| && Kept(v.fields[i])
      ensures Same(v.fields[i].value, Lookup(w.fields, v.fields[i].key))
    {
      var j := SharedBranch(v, w, v.fields[i]);
      LookupAt(w.fields, j);
      NormalIffSame(v.fields[i].value, w.fields[j].value);
    }
    forall j | 0 <= j < |w.fields| && Kept(w.fields[j])
      ensures Lookup(v.fields, w.fields[j].key) != Undefined
    {
      var i := SharedBranch(w, v, w.fields[j]);
      LookupAt(v.fields, i);
    }
  }

  lemma {:induction false} NormalIsProper(v: Json)
    requires Normal(v).Some?
    ensures Proper(Normal(v).value)
    decreases v
  {
    match v
    case Array(items) =>
      NormalItemsAt(items);
      forall i | 0 <= i < |items| && items[i].Filled?
        ensures Proper(Normal(items[i].value).value)
      {
        NormalIsProper(items[i].value);
      }
    case Object(fields) => BranchesProper(fields);
    case _ =>
  }

  lemma {:induction false} BranchesProper(fields: seq<Field>)
    requires NormalFields(fields).Some?
    ensures ProperBranches(SortBy(BranchKey, NormalFields(fields).value))
    decreases fields
  {
    var bs := NormalFields(fields).value;
    NormalFieldsAt(fields);
    SameMembers(SortBy(BranchKey, bs), bs);
    forall b | b in SortBy(BranchKey, bs)
      ensures Proper(b.tree)
    {
      assert b in bs;
      var i :| 0 <= i < |fields| && Becomes(fields[i], b);
      NormalIsProper(fields[i].value);
    }
  }

  // ---------------------------------------------------------------------
  // Main results
  // ---------------------------------------------------------------------

  /** canonicalJson throws exactly on what JSON cannot carry. */
  lemma {:induction false} CanonicalIffSerializable(v: Json)
    ensures Canonical(v).Some? <==> Serializable(v)
  {
    CanonicalIsPrint(v);
    NormalIffSerializable(v);
  }

  /**
   Equal canonical texts are texts of the same value: key order and undefined
   properties do not matter, an array of one hole is an array of nothing, and
   nothing else is lost.
   */
  lemma {:induction false} CanonicalDecidesEquality(v: Json, w: Json)
    requires WellFormed(v) && WellFormed(w) && Serializable(v) && Serializable(w)
    ensures Canonical(v) == Canonical(w) <==> Same(v, w)
  {
    CanonicalIsPrint(v);
    CanonicalIsPrint(w);
    NormalIffSerializable(v);
    NormalIffSerializable(w);
    NormalIffSame(v, w);
    NormalIsProper(v);
    NormalIsProper(w);
    var t, u := Normal(v).value, Normal(w).value;
    assert Print(t) + [] == Print(t) && Print(u) + [] == Print(u);
    if Print(t) == Print(u) {
      PrintUnique(t, u, [], []);
    }
  }

  lemma {:induction false} SameReflexive(v: Json)
    requires WellFormed(v)
    ensures Same(v, v)
    decreases v
  {
    match v
    case Array(items) =>
      forall i | 0 <= i < |items| && items[i].Filled?
        ensures Same(items[i].value, items[i].value)
      {
        SameReflexive(items[i].value);
      }
    case Object(fields) =>
      forall i | 0 <= i < |fields|
        ensures Same(fields[i].value, Lookup(fields, fields[i].key)) && Lookup(fields, fields[i].key) == fields[i].value
      {
        LookupAt(fields, i);
        SameReflexive(fields[i].value);
      }
    case _ =>
  }

  /** Objects with the same kept properties, in any order, have one text. */
  lemma {:induction false} OrderAndUndefinedDoNotMatter(fs: seq<Field>, gs: seq<Field>)
    requires WellFormed(Object(fs)) && WellFormed(Object(gs))
    requires forall f :: Kept(f) ==> (f in fs <==> f in gs)
    requires Serializable(Object(fs))
    ensures Canonical(Object(fs)) == Canonical(Object(gs))
  {
    forall j | 0 <= j < |gs| && Kept(gs[j])
      ensures Serializable(gs[j].value) && Lookup(fs, gs[j].key) != Undefined
    {
      assert gs[j] in fs;
      var i :| 0 <= i < |fs| && fs[i] == gs[j];
      LookupAt(fs, i);
    }
    forall i | 0 <= i < |fs| && Kept(fs[i])
      ensures Same(fs[i].value, Lookup(gs, fs[i].key))
    {
      assert fs[i] in gs;
      var j :| 0 <= j < |gs| && gs[j] == fs[i];
      LookupAt(gs, j);
      SameReflexive(fs[i].value);
    }
    CanonicalDecidesEquality(Object(fs), Object(gs));
  }

  /** One hole is lost: the text of an array of it is that of the empty array. */
  lemma {:induction false} HoleIsLost()
    ensures Canonical(Array([Hole])) == Canonical(Array([])) == Some([OPEN_ARRAY, CLOSE_ARRAY])
  {
    var nothing: Text := [];
    assert [nothing] + [] == [nothing];
    assert CanonicalItems([Hole][1..]) == Some([]);
    assert CanonicalItems([Hole]) == Some([nothing]);
    assert Joined([nothing]) == Joined([]) == nothing;
    assert [OPEN_ARRAY] + nothing + [CLOSE_ARRAY] == [OPEN_ARRAY, CLOSE_ARRAY];
  }
}
