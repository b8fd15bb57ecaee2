/**
 A reader for canonical JSON, written from the grammar of RFC 8259 and the
 string form of section 3.2.2.2 of RFC 8785, and that every canonical text
 reads back as the value it was printed from, its keys in ascending order.
 */
module JsonReader {
  import opened Wrappers
  import opened Ordering
  import opened Characters
  import opened NumberFormat
  import opened CanonicalJson
  import opened UniqueReading
  import opened CanonicalEquality

  // ---------------------------------------------------------------------
  // Strings
  // ---------------------------------------------------------------------

  /** A lower-case hexadecimal digit. */
  function HexUnit(u: CodeUnit): Option<int> {
    if 48 <= u <= 57 then Some(u - 48) else if 97 <= u <= 102 then Some(u - 87) else None
  }

  /** What a letter after a backslash stands for. */
  function Named(u: CodeUnit): Option<CodeUnit> {
    if u == 34 || u == 92 then Some(u)
    else if u == 98 then Some(8)
    else if u == 102 then Some(12)
    else if u == 110 then Some(10)
    else if u == 114 then Some(13)
    else if u == 116 then Some(9)
    else None
  }

  function ReadHex4(t: Text): Option<int>
    requires |t| == 4
  {
    var a :- HexUnit(t[0]);
    var b :- HexUnit(t[1]);
    var c :- HexUnit(t[2]);
    var d :- HexUnit(t[3]);
    Some(4096 * a + 256 * b + 16 * c + d)
  }

  /** Only control characters without a letter, and surrogates, are spelled by number. */
  predicate SpelledByNumber(u: int) {
    (0 <= u < 32 && u !in {8, 9, 10, 12, 13}) || 0xD800 <= u < 0xE000
  }

  /**
   The rest of a string up to its closing quote, and what follows. Surrogate
   pairs stand for themselves; a surrogate spelled by number is alone.
   */
  function ReadBody(t: Text): (r: Option<(Text, Text)>)
    ensures r.Some? ==> |r.value.1| < |t|
    decreases |t|
  {
    if t == [] then None
    else if t[0] == 34 then Some(([], t[1..]))
    else if t[0] == 92 then
      if |t| < 2 then None
      else if t[1] == 117 then
        if |t| < 6 then None
        else
          var u :- ReadHex4(t[2..6]);
          var (s, rest) :- ReadBody(t[6..]);
          if !SpelledByNumber(u) || (0xD800 <= u < 0xDC00 && s != [] && 0xDC00 <= s[0] < 0xE000) then None
          else Some(([u] + s, rest))
      else
        var u :- Named(t[1]);
        var (s, rest) :- ReadBody(t[2..]);
        Some(([u] + s, rest))
    else if t[0] < 32 || 0xDC00 <= t[0] < 0xE000 then None
    else if 0xD800 <= t[0] < 0xDC00 then
      if |t| < 2 || !(0xDC00 <= t[1] < 0xE000) then None
      else
        var (s, rest) :- ReadBody(t[2..]);
        Some((t[..2] + s, rest))
    else
      var (s, rest) :- ReadBody(t[1..]);
      Some(([t[0]] + s, rest))
  }

  function ReadString(t: Text): (r: Option<(Text, Text)>)
    ensures r.Some? ==> |r.value.1| < |t|
  {
    if t == [] || t[0] != 34 then None else ReadBody(t[1..])
  }

  // ---------------------------------------------------------------------
  // Values
  // ---------------------------------------------------------------------

  predicate StartsWith(t: Text, word: Text) {
    |word| <= |t| && t[..|word|] == word
  }

  function RunOfNumber(t: Text): (n: nat)
    ensures n <= |t|
  {
    if t == [] || !NumberUnit(t[0]) then 0 else 1 + RunOfNumber(t[1..])
  }

  /** The longest run of number characters, read as a number. */
  function ReadNumber(t: Text): (r: Option<(Tree, Text)>)
    requires t != [] && (t[0] == 45 || 48 <= t[0] <= 57)
    ensures r.Some? ==> |r.value.1| < |t|
  {
    var n := RunOfNumber(t);
    var negative := t[0] == 45;
    var numeral := NumeralOf(negative, ReadMagnitude(t[if negative then 1 else 0..n]));
    if Shortest(numeral) then Some((NumberTree(numeral), t[n..])) else None
  }

  /** One value off the front. */
  function Read(t: Text): (r: Option<(Tree, Text)>)
    ensures r.Some? ==> |r.value.1| < |t|
    decreases |t|, 3
  {
    if StartsWith(t, [110, 117, 108, 108]) then Some((NullTree, t[4..]))
    else if StartsWith(t, [116, 114, 117, 101]) then Some((BoolTree(true), t[4..]))
    else if StartsWith(t, [102, 97, 108, 115, 101]) then Some((BoolTree(false), t[5..]))
    else if t == [] then None
    else if t[0] == 34 then
      var (s, rest) :- ReadString(t);
      Some((StringTree(s), rest))
    else if t[0] == 91 then
      if StartsWith(t[1..], [93]) then Some((ArrayTree([]), t[2..]))
      else
        var (items, rest) :- ReadSlots(t[1..]);
        Some((ArrayTree(items), rest))
    else if t[0] == 123 then
      if StartsWith(t[1..], [125]) then Some((ObjectTree([]), t[2..]))
      else
        var (branches, rest) :- ReadBranches(t[1..]);
        Some((ObjectTree(branches), rest))
    else if t[0] == 45 || 48 <= t[0] <= 57 then ReadNumber(t)
    else None
  }

  /** A place of an array: nothing before a comma or the closing bracket is a hole. */
  function ReadSlot(t: Text): (r: Option<(TreeSlot, Text)>)
    ensures r.Some? ==> |r.value.1| <= |t|
    decreases |t|, 4
  {
    if StartsWith(t, [44]) || StartsWith(t, [93]) then Some((HoleTree, t))
    else
      var (tree, rest) :- Read(t);
      Some((FilledTree(tree), rest))
  }

  /** The places of an array up to its closing bracket. */
  function ReadSlots(t: Text): (r: Option<(seq<TreeSlot>, Text)>)
    ensures r.Some? ==> |r.value.1| < |t|
    decreases |t|, 5
  {
    var (slot, rest) :- ReadSlot(t);
    if StartsWith(rest, [93]) then Some(([slot], rest[1..]))
    else if StartsWith(rest, [44]) then
      var (more, end) :- ReadSlots(rest[1..]);
      Some(([slot] + more, end))
    else None
  }

  function ReadBranch(t: Text): (r: Option<(Branch, Text)>)
    ensures r.Some? ==> |r.value.1| < |t|
    decreases |t|, 4
  {
    var (key, rest) :- ReadString(t);
    if !StartsWith(rest, [58]) then None
    else
      var (tree, rest') :- Read(rest[1..]);
      Some((Branch(key, tree), rest'))
  }

  /** The members of an object up to its closing brace. */
  function ReadBranches(t: Text): (r: Option<(seq<Branch>, Text)>)
    ensures r.Some? ==> |r.value.1| < |t|
    decreases |t|, 5
  {
    var (branch, rest) :- ReadBranch(t);
    if StartsWith(rest, [125]) then Some(([branch], rest[1..]))
    else if StartsWith(rest, [44]) then
      var (more, end) :- ReadBranches(rest[1..]);
      Some(([branch] + more, end))
    else None
  }

  // ---------------------------------------------------------------------
  // Strings read back
  // ---------------------------------------------------------------------

  lemma {:induction false} HexReads(u: CodeUnit)
    ensures ReadHex4(Hex4(u)) == Some(u)
  {
    HexValue(u);
  }

  lemma {:induction false} ShortReads(u: CodeUnit, more: Text)
    requires ShortEscape(u).Some?
    ensures ReadBody(EscapeUnit(u) + more) ==
      match ReadBody(more) case None => None case Some((s, rest)) => Some(([u] + s, rest))
  {
    var t := EscapeUnit(u) + more;
    assert t[0] == 92 && t[1] == ShortEscape(u).value && t[2..] == more;
  }

  lemma {:induction false} NumberedReads(u: CodeUnit, more: Text, s: Text, rest: Text)
    requires ShortEscape(u).None? && (u < 32 || High(u) || Low(u))
    requires ReadBody(more) == Some((s, rest)) && !(High(u) && s != [] && Low(s[0]))
    ensures ReadBody(EscapeUnit(u) + more) == Some(([u] + s, rest))
  {
    var t := EscapeUnit(u) + more;
    HexReads(u);
    assert t[0] == 92 && t[1] == 117 && t[2..6] == Hex4(u) && t[6..] == more;
  }

  lemma {:induction false} PlainUnitReads(u: CodeUnit, more: Text, s: Text, rest: Text)
    requires ShortEscape(u).None? && !(u < 32 || High(u) || Low(u))
    requires ReadBody(more) == Some((s, rest))
    ensures ReadBody(EscapeUnit(u) + more) == Some(([u] + s, rest))
  {
    var t := EscapeUnit(u) + more;
    assert t[0] == u && t[1..] == more;
  }

  lemma {:induction false} PairReads(step: Text, more: Text, s: Text, rest: Text)
    requires |step| == 2 && High(step[0]) && Low(step[1])
    requires ReadBody(more) == Some((s, rest))
    ensures ReadBody(EscapeStep(step) + more) == Some((step + s, rest))
  {
    var t := step + more;
    assert t[0] == step[0] && t[1] == step[1] && t[..2] == step && t[2..] == more;
  }

  lemma {:induction false} StepReads(s: Text, more: Text, rest: Text)
    requires s != [] && ReadBody(more) == Some((s[StepLength(s)..], rest))
    ensures ReadBody(EscapeStep(s[..StepLength(s)]) + more) == Some((s, rest))
  {
    var n := StepLength(s);
    var step, later := s[..n], s[n..];
    assert s == step + later;
    if n == 2 {
      PairReads(step, more, later, rest);
    } else {
      assert step == [s[0]];
      if ShortEscape(s[0]).Some? {
        ShortReads(s[0], more);
      } else if s[0] < 32 || High(s[0]) || Low(s[0]) {
        assert later != [] ==> later[0] == s[1];
        NumberedReads(s[0], more, later, rest);
      } else {
        PlainUnitReads(s[0], more, later, rest);
      }
    }
  }

  lemma {:induction false} BodyReads(s: Text, r: Text)
    ensures ReadBody(Body(s, r)) == Some((s, r))
    decreases |s|
  {
    BodyUnfolds(s, r);
    if s == [] {
      assert ([QUOTE] + r)[1..] == r;
    } else {
      BodyReads(s[StepLength(s)..], r);
      StepReads(s, Body(s[StepLength(s)..], r), r);
    }
  }

  /** A quoted string reads back, whatever follows. */
  lemma {:induction false} QuotedReads(s: Text, r: Text)
    ensures ReadString(Quoted(s) + r) == Some((s, r))
  {
    QuotedIsBody(s, r);
    assert ([QUOTE] + Body(s, r))[1..] == Body(s, r);
    BodyReads(s, r);
  }

  // ---------------------------------------------------------------------
  // Numbers read back
  // ---------------------------------------------------------------------

  lemma {:induction false} NumberRun(t: Text, r: Text)
    requires AllNumberUnits(t) && EndsNumber(r)
    ensures RunOfNumber(t + r) == |t|
    decreases |t|
  {
    if t == [] {
      assert t + r == r;
    } else {
      assert (t + r)[1..] == t[1..] + r;
      NumberRun(t[1..], r);
    }
  }

  lemma {:induction false} NumberReads(n: Finite, r: Text)
    requires EndsNumber(r)
    ensures var t := NumberText(n) + r;
      && t != [] && (t[0] == 45 || 48 <= t[0] <= 57)
      && ReadNumber(t) == Some((NumberTree(n), r))
  {
    var x := NumberText(n);
    var t := x + r;
    NumberHead(n);
    NumberUnits(n);
    NumberRun(x, r);
    Front(x, r);
    LayoutKeeps(n);
    ReadMagnitudeText(LayoutOf(n));
    assert t[if n.negative then 1 else 0..|x|] == MagnitudeText(LayoutOf(n));
    assert t[|x|..] == r;
  }

  // ---------------------------------------------------------------------
  // Values read back
  // ---------------------------------------------------------------------

  lemma {:induction false} FirstUnit(t: Text, u: CodeUnit)
    ensures StartsWith(t, [u]) <==> t != [] && t[0] == u
  {
    if t != [] {
      assert t[..1] == [t[0]];
    }
  }

  lemma {:induction false} After(word: Text, r: Text)
    ensures StartsWith(word + r, word) && (word + r)[|word|..] == r
  {
  }

  lemma {:induction false} NullReads(r: Text)
    ensures Read(Ascii("null") + r) == Some((NullTree, r))
  {
    assert Ascii("null") == [110, 117, 108, 108];
    After([110, 117, 108, 108], r);
  }

  lemma {:induction false} TrueReads(r: Text)
    ensures Read(Ascii("true") + r) == Some((BoolTree(true), r))
  {
    var t := Ascii("true") + r;
    assert Ascii("true") == [116, 114, 117, 101];
    After([116, 114, 117, 101], r);
    assert t[..4][0] == 116;
  }

  lemma {:induction false} FalseReads(r: Text)
    ensures Read(Ascii("false") + r) == Some((BoolTree(false), r))
  {
    var t := Ascii("false") + r;
    assert Ascii("false") == [102, 97, 108, 115, 101];
    After([102, 97, 108, 115, 101], r);
    assert t[..4][0] == 102;
  }

  /** A text that begins otherwise is no word. */
  lemma {:induction false} NoWord(t: Text)
    requires t != [] && t[0] != 110 && t[0] != 116 && t[0] != 102
    ensures !StartsWith(t, [110, 117, 108, 108]) && !StartsWith(t, [116, 114, 117, 101])
    ensures !StartsWith(t, [102, 97, 108, 115, 101])
  {
    assert |t| >= 4 ==> t[..4][0] == t[0];
    assert |t| >= 5 ==> t[..5][0] == t[0];
  }

  lemma {:induction false} StringReads(s: Text, r: Text)
    ensures Read(Quoted(s) + r) == Some((StringTree(s), r))
  {
    QuotedReads(s, r);
    assert (Quoted(s) + r)[0] == 34;
    NoWord(Quoted(s) + r);
  }

  lemma {:induction false} FiniteReads(n: Finite, r: Text)
    requires EndsNumber(r)
    ensures Read(NumberText(n) + r) == Some((NumberTree(n), r))
  {
    NumberReads(n, r);
    ReadsNumber(NumberText(n) + r);
  }

  lemma {:induction false} ReadsNumber(t: Text)
    requires t != [] && (t[0] == 45 || 48 <= t[0] <= 57)
    ensures Read(t) == ReadNumber(t)
  {
    NoWord(t);
  }

  /** Every proper tree is read from its text, whatever follows it in a larger one. */
  lemma {:induction false} PrintReads(t: Tree, r: Text)
    requires Proper(t) && Follows(r)
    ensures Read(Print(t) + r) == Some((t, r))
    decreases t
  {
    match t
    case NullTree => NullReads(r);
    case BoolTree(b) =>
      if b {
        TrueReads(r);
      } else {
        FalseReads(r);
      }
    case NumberTree(n) => FiniteReads(n, r);
    case StringTree(s) => StringReads(s, r);
    case ArrayTree(items) =>
      Opened(OPEN_ARRAY, PrintItems(items), CLOSE_ARRAY, r);
      BlankHead(items, r);
      if items != [] {
        ItemsRead(items, r);
      }
      ArrayReads(items, r);
    case ObjectTree(branches) =>
      Opened(OPEN_OBJECT, PrintBranches(branches), CLOSE_OBJECT, r);
      BranchesUnfold(branches, r);
      if branches != [] {
        BranchesRead(branches, r);
      }
      ObjectReads(branches, r);
  }

  lemma {:induction false} Opened(open: CodeUnit, x: Text, close: CodeUnit, r: Text)
    ensures var t := [open] + x + [close] + r;
      t != [] && t[0] == open && t[1..] == x + ([close] + r)
  {
    Regroup([open] + x, [close], r);
    Regroup([open], x, [close] + r);
  }

  lemma {:induction false} ArrayReads(items: seq<TreeSlot>, r: Text)
    requires items != [] ==> ReadSlots(PrintItems(items) + ([CLOSE_ARRAY] + r)) == Some((items, r))
    requires (PrintItems(items) + ([CLOSE_ARRAY] + r))[0] == CLOSE_ARRAY <==> items == []
    ensures Read(Print(ArrayTree(items)) + r) == Some((ArrayTree(items), r))
  {
    var t := Print(ArrayTree(items)) + r;
    Opened(OPEN_ARRAY, PrintItems(items), CLOSE_ARRAY, r);
    NoWord(t);
    FirstUnit(t[1..], 93);
    if items == [] {
      assert PrintItems(items) + ([CLOSE_ARRAY] + r) == [CLOSE_ARRAY] + r;
      assert t[2..] == t[1..][1..] == r;
    }
  }

  lemma {:induction false} ObjectReads(branches: seq<Branch>, r: Text)
    requires branches != [] ==> ReadBranches(PrintBranches(branches) + ([CLOSE_OBJECT] + r)) == Some((branches, r))
    requires (PrintBranches(branches) + ([CLOSE_OBJECT] + r))[0] == CLOSE_OBJECT <==> branches == []
    ensures Read(Print(ObjectTree(branches)) + r) == Some((ObjectTree(branches), r))
  {
    var t := Print(ObjectTree(branches)) + r;
    Opened(OPEN_OBJECT, PrintBranches(branches), CLOSE_OBJECT, r);
    NoWord(t);
    FirstUnit(t[1..], 125);
    if branches == [] {
      assert PrintBranches(branches) + ([CLOSE_OBJECT] + r) == [CLOSE_OBJECT] + r;
      assert t[2..] == t[1..][1..] == r;
    }
  }

  lemma {:induction false} SlotReads(slot: TreeSlot, after: Text)
    requires ProperSlot(slot) && Follows(after) && after != [] && (after[0] == 44 || after[0] == 93)
    ensures ReadSlot(PrintSlot(slot) + after) == Some((slot, after))
    decreases slot
  {
    var t := PrintSlot(slot) + after;
    SlotHead(slot, after);
    FirstUnit(t, 44);
    FirstUnit(t, 93);
    if slot.FilledTree? {
      PrintReads(slot.tree, after);
    }
  }

  lemma {:induction false} ItemsRead(items: seq<TreeSlot>, r: Text)
    requires items != [] && ProperItems(items)
    ensures ReadSlots(PrintItems(items) + ([CLOSE_ARRAY] + r)) == Some((items, r))
    decreases items
  {
    var after := AfterItem(items, r);
    ItemsUnfold(items, r);
    SlotReads(items[0], after);
    FirstUnit(after, 44);
    FirstUnit(after, 93);
    assert items == [items[0]] + items[1..];
    if |items| == 1 {
      assert items == [items[0]] && after[1..] == r;
    } else {
      assert after[1..] == PrintItems(items[1..]) + ([CLOSE_ARRAY] + r);
      ItemsRead(items[1..], r);
    }
  }

  lemma {:induction false} BranchReads(b: Branch, after: Text)
    requires Proper(b.tree) && Follows(after)
    ensures ReadBranch(PrintBranch(b) + after) == Some((b, after))
    decreases b
  {
    var rest := [COLON] + (Print(b.tree) + after);
    BranchText(b, after);
    QuotedReads(b.key, rest);
    FirstUnit(rest, 58);
    assert rest[1..] == Print(b.tree) + after;
    PrintReads(b.tree, after);
  }

  lemma {:induction false} BranchesRead(bs: seq<Branch>, r: Text)
    requires bs != [] && ProperBranches(bs)
    ensures ReadBranches(PrintBranches(bs) + ([CLOSE_OBJECT] + r)) == Some((bs, r))
    decreases bs
  {
    var after := AfterBranch(bs, r);
    BranchesUnfold(bs, r);
    BranchReads(bs[0], after);
    FirstUnit(after, 44);
    FirstUnit(after, 125);
    assert bs == [bs[0]] + bs[1..];
    if |bs| == 1 {
      assert bs == [bs[0]] && after[1..] == r;
    } else {
      assert after[1..] == PrintBranches(bs[1..]) + ([CLOSE_OBJECT] + r);
      BranchesRead(bs[1..], r);
    }
  }

  // ---------------------------------------------------------------------
  // The value in the tree
  // ---------------------------------------------------------------------

  /** The tree is the value: field by field, place by place, its keys ascending by code unit. */
  ghost predicate Stands(v: Json, t: Tree)
    decreases v, 0
  {
    match v
    case Null => t.NullTree?
    case Bool(b) => t == BoolTree(b)
    case Number(n) => t == NumberTree(n)
    case String(s) => t == StringTree(s)
    case Array(items) =>
      t.ArrayTree? && if items == [Hole] then t.items == [] else SlotsStand(items, t.items)
    case Object(fields) =>
      && t.ObjectTree?
      && Ascending(BranchKey, t.branches)
      && (forall i :: 0 <= i < |fields| && Kept(fields[i]) ==> Listed(fields[i], t.branches))
      && (forall j :: 0 <= j < |t.branches| ==> FromField(fields, t.branches[j]))
    case _ => false
  }

  ghost predicate SlotsStand(items: seq<Slot>, slots: seq<TreeSlot>)
    decreases items
  {
    |slots| == |items| && forall i :: 0 <= i < |items| ==> SlotStands(items[i], slots[i])
  }

  ghost predicate SlotStands(slot: Slot, s: TreeSlot)
    decreases slot
  {
    match slot
    case Hole => s.HoleTree?
    case Filled(v) => s.FilledTree? && Stands(v, s.tree)
  }

  ghost predicate FieldStands(f: Field, b: Branch)
    decreases f, 0
  {
    Kept(f) && f.key == b.key && Stands(f.value, b.tree)
  }

  ghost predicate Listed(f: Field, branches: seq<Branch>)
    decreases f, 1
  {
    exists j :: 0 <= j < |branches| && FieldStands(f, branches[j])
  }

  ghost predicate FromField(fields: seq<Field>, b: Branch)
    decreases fields
  {
    exists i :: 0 <= i < |fields| && FieldStands(fields[i], b)
  }

  lemma {:induction false} NormalStands(v: Json)
    requires WellFormed(v) && Normal(v).Some?
    ensures Stands(v, Normal(v).value)
    decreases v
  {
    match v
    case Array(items) => ItemsStand(items);
    case Object(fields) => FieldsStand(fields);
    case _ =>
  }

  lemma {:induction false} NormalSlotStands(slot: Slot)
    requires slot.Filled? ==> WellFormed(slot.value)
    requires NormalSlot(slot).Some?
    ensures SlotStands(slot, NormalSlot(slot).value)
    decreases slot
  {
    if slot.Filled? {
      NormalStands(slot.value);
    }
  }

  lemma {:induction false} ItemsStand(items: seq<Slot>)
    requires NormalItems(items).Some?
    requires forall i :: 0 <= i < |items| && items[i].Filled? ==> WellFormed(items[i].value)
    ensures SlotsStand(items, NormalItems(items).value)
    ensures NormalItems(items).value == [HoleTree] <==> items == [Hole]
    decreases items
  {
    var ts := NormalItems(items).value;
    NormalItemsAt(items);
    forall i | 0 <= i < |items|
      ensures SlotStands(items[i], ts[i])
    {
      NormalSlotStands(items[i]);
    }
    if |items| == 1 {
      assert items == [items[0]] && ts == [ts[0]];
    }
  }

  lemma {:induction false} BecomesStands(f: Field, b: Branch)
    requires WellFormed(f.value) && Becomes(f, b)
    ensures FieldStands(f, b)
    decreases f
  {
    NormalStands(f.value);
  }

  lemma {:induction false} FieldsStand(fields: seq<Field>)
    requires WellFormed(Object(fields)) && NormalFields(fields).Some?
    ensures Stands(Object(fields), Normal(Object(fields)).value)
    decreases fields
  {
    var bs := NormalFields(fields).value;
    var sorted := SortBy(BranchKey, bs);
    NormalFieldsAt(fields);
    NormalFieldsDistinct(fields);
    SortByAscends(BranchKey, bs);
    SameMembers(sorted, bs);
    forall i | 0 <= i < |fields| && Kept(fields[i])
      ensures Listed(fields[i], sorted)
    {
      var b := Branch(fields[i].key, Normal(fields[i].value).value);
      assert Becomes(fields[i], b);
      BecomesStands(fields[i], b);
      assert b in sorted;
      var j :| 0 <= j < |sorted| && sorted[j] == b;
    }
    forall j | 0 <= j < |sorted|
      ensures FromField(fields, sorted[j])
    {
      assert sorted[j] in bs;
      var i :| 0 <= i < |fields| && Becomes(fields[i], sorted[j]);
      BecomesStands(fields[i], sorted[j]);
    }
  }

  /** The canonical text of a value is read as that value, with nothing left over and keys in ascending order. */
  lemma {:induction false} CanonicalReads(v: Json)
    requires WellFormed(v) && Serializable(v)
    ensures Canonical(v).Some? && Read(Canonical(v).value).Some?
    ensures var (t, rest) := Read(Canonical(v).value).value; rest == [] && Stands(v, t)
  {
    CanonicalIsPrint(v);
    NormalIffSerializable(v);
    NormalIsProper(v);
    NormalStands(v);
    var t := Normal(v).value;
    assert Print(t) + [] == Print(t);
    PrintReads(t, []);
  }
}
