/** Canonical texts can be read back in one way only. */
module UniqueReading {
  import opened Characters
  import opened NumberFormat
  import opened CanonicalJson

  // ---------------------------------------------------------------------
  // Strings
  // ---------------------------------------------------------------------

  /** What one escape step takes: a surrogate pair or any single unit. */
  ghost predicate IsStep(step: Text) {
    |step| == 1 || (|step| == 2 && High(step[0]) && Low(step[1]))
  }

  lemma {:induction false} HexDigitInjective(a: int, b: int)
    requires 0 <= a < 16 && 0 <= b < 16 && HexDigit(a) == HexDigit(b)
    ensures a == b
  {
  }

  lemma {:induction false} HexValue(u: int)
    requires 0 <= u < 0x10000
    ensures u == 4096 * (u / 4096) + 256 * (u / 256 % 16) + 16 * (u / 16 % 16) + u % 16
  {
    assert u / 256 == u / 16 / 16 && u / 4096 == u / 256 / 16;
  }

  lemma {:induction false} Hex4Injective(u: CodeUnit, v: CodeUnit)
    requires Hex4(u) == Hex4(v)
    ensures u == v
  {
    var a, b := Hex4(u), Hex4(v);
    assert a[0] == b[0] && a[1] == b[1] && a[2] == b[2] && a[3] == b[3];
    HexDigitInjective(u / 4096, v / 4096);
    HexDigitInjective(u / 256 % 16, v / 256 % 16);
    HexDigitInjective(u / 16 % 16, v / 16 % 16);
    HexDigitInjective(u % 16, v % 16);
    HexValue(u);
    HexValue(v);
  }

  lemma {:induction false} Cancel(a: Text, x: Text, y: Text)
    requires a + x == a + y
    ensures x == y
  {
    assert x == (a + x)[|a|..] && y == (a + y)[|a|..];
  }

  lemma {:induction false} Regroup(a: Text, b: Text, c: Text)
    ensures a + b + c == a + (b + c)
  {
  }

  lemma {:induction false} Front(a: Text, x: Text)
    requires a != []
    ensures (a + x)[0] == a[0]
  {
  }

  lemma {:induction false} EscapeStepHead(step: Text)
    requires IsStep(step)
    ensures EscapeStep(step) != [] && EscapeStep(step)[0] != QUOTE
    ensures EscapeStep(step)[0] != BACKSLASH ==> EscapeStep(step) == step
    ensures EscapeStep(step)[0] != BACKSLASH && High(step[0]) ==> |step| == 2
    ensures EscapeStep(step)[0] == BACKSLASH ==> |step| == 1 && |EscapeStep(step)| >= 2
  {
  }

  lemma {:induction false} EscapedUnitInjective(u: CodeUnit, v: CodeUnit, x: Text, y: Text)
    requires EscapeUnit(u)[0] == BACKSLASH && EscapeUnit(v)[0] == BACKSLASH
    requires EscapeUnit(u) + x == EscapeUnit(v) + y
    ensures u == v && x == y
  {
    var a, b := EscapeUnit(u), EscapeUnit(v);
    assert a[1] == (a + x)[1] && b[1] == (b + y)[1];
    assert a[1] == 117 <==> ShortEscape(u).None?;
    assert b[1] == 117 <==> ShortEscape(v).None?;
    if ShortEscape(u).None? {
      assert (a + x)[2..6] == Hex4(u) && (b + y)[2..6] == Hex4(v);
      Hex4Injective(u, v);
    }
    assert a == b;
    assert x == (a + x)[|a|..] && y == (b + y)[|b|..];
  }

  /** Escape steps are prefix-free. */
  lemma {:induction false} EscapeStepPrefixFree(s: Text, t: Text, x: Text, y: Text)
    requires IsStep(s) && IsStep(t)
    requires EscapeStep(s) + x == EscapeStep(t) + y
    ensures s == t && x == y
  {
    EscapeStepHead(s);
    EscapeStepHead(t);
    var a, b := EscapeStep(s), EscapeStep(t);
    assert a[0] == (a + x)[0] && b[0] == (b + y)[0];
    if a[0] == BACKSLASH {
      EscapedUnitInjective(s[0], t[0], x, y);
    } else {
      assert |s| == |t|;
      assert (a + x)[..|a|] == a && (b + y)[..|b|] == b;
      assert x == (a + x)[|a|..] && y == (b + y)[|b|..];
    }
  }

  lemma {:induction false} FirstStep(s: Text)
    requires s != []
    ensures IsStep(s[..StepLength(s)])
    ensures Escaped(s) == EscapeStep(s[..StepLength(s)]) + Escaped(s[StepLength(s)..])
  {
  }

  /** A string body up to its closing quote, and what follows. */
  function Body(s: Text, r: Text): Text {
    Escaped(s) + ([QUOTE] + r)
  }

  lemma {:induction false} BodyUnfolds(s: Text, r: Text)
    ensures s == [] ==> Body(s, r) == [QUOTE] + r
    ensures s != [] ==> Body(s, r) == EscapeStep(s[..StepLength(s)]) + Body(s[StepLength(s)..], r)
    ensures Body(s, r) != [] && (Body(s, r)[0] == QUOTE <==> s == [])
  {
  }

  /** The closing quote of a quoted string is where it seems to be. */
  lemma {:induction false} BodyUnique(s: Text, t: Text, r: Text, q: Text)
    requires Body(s, r) == Body(t, q)
    ensures s == t && r == q
    decreases |s|
  {
    BodyUnfolds(s, r);
    BodyUnfolds(t, q);
    if s == [] {
      Cancel([QUOTE], r, q);
    } else {
      var m, n := StepLength(s), StepLength(t);
      FirstStep(s);
      FirstStep(t);
      EscapeStepPrefixFree(s[..m], t[..n], Body(s[m..], r), Body(t[n..], q));
      BodyUnique(s[m..], t[n..], r, q);
      assert s == s[..m] + s[m..] && t == t[..n] + t[n..];
    }
  }

  lemma {:induction false} QuotedIsBody(s: Text, r: Text)
    ensures Quoted(s) + r == [QUOTE] + Body(s, r)
  {
  }

  lemma {:induction false} QuotedUnique(s: Text, t: Text, r: Text, q: Text)
    requires Quoted(s) + r == Quoted(t) + q
    ensures s == t && r == q
  {
    QuotedIsBody(s, r);
    QuotedIsBody(t, q);
    Cancel([QUOTE], Body(s, r), Body(t, q));
    BodyUnique(s, t, r, q);
  }

  // ---------------------------------------------------------------------
  // Trees
  // ---------------------------------------------------------------------

  /** What stands after a value inside a larger text, or nothing. */
  ghost predicate Follows(r: Text) {
    r == [] || r[0] == COMMA || r[0] == CLOSE_ARRAY || r[0] == CLOSE_OBJECT
  }

  /** The first character tells the kind of a value. */
  function HeadKind(t: Tree): nat {
    match t
    case NullTree => 0
    case BoolTree(b) => if b then 1 else 2
    case NumberTree(_) => 3
    case StringTree(_) => 4
    case ArrayTree(_) => 5
    case ObjectTree(_) => 6
  }

  function KindOf(u: CodeUnit): nat {
    if u == 110 then 0 else if u == 116 then 1 else if u == 102 then 2
    else if u == MINUS || IsDigit(u) then 3
    else if u == QUOTE then 4 else if u == OPEN_ARRAY then 5 else if u == OPEN_OBJECT then 6 else 7
  }

  lemma {:induction false} PrintHead(t: Tree)
    ensures Print(t) != [] && KindOf(Print(t)[0]) == HeadKind(t)
  {
    if t.NumberTree? {
      NumberHead(t.n);
    }
  }

  lemma {:induction false} SameKind(t: Tree, u: Tree, r: Text, q: Text)
    requires Print(t) + r == Print(u) + q
    ensures HeadKind(t) == HeadKind(u)
  {
    PrintHead(t);
    PrintHead(u);
    Front(Print(t), r);
    Front(Print(u), q);
  }

  /** Takes the brackets off two bracketed texts. */
  lemma {:induction false} Unbracket(open: CodeUnit, close: CodeUnit, x: Text, y: Text, r: Text, q: Text)
    requires [open] + x + [close] + r == [open] + y + [close] + q
    ensures x + ([close] + r) == y + ([close] + q)
  {
    Regroup([open] + x, [close], r);
    Regroup([open], x, [close] + r);
    Regroup([open] + y, [close], q);
    Regroup([open], y, [close] + q);
    Cancel([open], x + ([close] + r), y + ([close] + q));
  }

  /** Proper trees whose texts have equal beginnings are equal. */
  lemma {:induction false} PrintUnique(t: Tree, u: Tree, r: Text, q: Text)
    requires Proper(t) && Proper(u)
    requires Print(t) + r == Print(u) + q && Follows(r) && Follows(q)
    ensures t == u && r == q
    decreases t
  {
    SameKind(t, u, r, q);
    match t
    case NullTree => Cancel(Print(t), r, q);
    case BoolTree(_) => Cancel(Print(t), r, q);
    case NumberTree(m) => NumberUnique(m, u.n, r, q);
    case StringTree(s) => QuotedUnique(s, u.s, r, q);
    case ArrayTree(items) =>
      Unbracket(OPEN_ARRAY, CLOSE_ARRAY, PrintItems(items), PrintItems(u.items), r, q);
      ArraysUnique(items, u.items, r, q);
    case ObjectTree(branches) =>
      Unbracket(OPEN_OBJECT, CLOSE_OBJECT, PrintBranches(branches), PrintBranches(u.branches), r, q);
      BranchesUnique(branches, u.branches, r, q);
  }

  /** What follows the first item: the closing bracket, or a comma and the other items. */
  ghost function AfterItem(items: seq<TreeSlot>, r: Text): Text
    requires items != []
  {
    if |items| == 1 then [CLOSE_ARRAY] + r else [COMMA] + (PrintItems(items[1..]) + ([CLOSE_ARRAY] + r))
  }

  lemma {:induction false} ItemsUnfold(items: seq<TreeSlot>, r: Text)
    requires items != []
    ensures PrintItems(items) + ([CLOSE_ARRAY] + r) == PrintSlot(items[0]) + AfterItem(items, r)
    ensures Follows(AfterItem(items, r)) && AfterItem(items, r) != []
  {
    var end := [CLOSE_ARRAY] + r;
    if |items| > 1 {
      Regroup(PrintSlot(items[0]) + [COMMA], PrintItems(items[1..]), end);
      Regroup(PrintSlot(items[0]), [COMMA], PrintItems(items[1..]) + end);
    }
  }

  /** Whether the first place is filled can be seen from the first character. */
  lemma {:induction false} SlotHead(slot: TreeSlot, after: Text)
    requires Follows(after) && after != []
    ensures var text := PrintSlot(slot) + after;
      && text != [] && (KindOf(text[0]) < 7 <==> slot.FilledTree?)
      && (slot.HoleTree? ==> text == after)
  {
    match slot
    case HoleTree => assert [] + after == after;
    case FilledTree(t) =>
      PrintHead(t);
      Front(Print(t), after);
  }

  lemma {:induction false} SlotUnique(a: TreeSlot, b: TreeSlot, x: Text, y: Text)
    requires ProperSlot(a) && ProperSlot(b)
    requires Follows(x) && Follows(y) && x != [] && y != []
    requires PrintSlot(a) + x == PrintSlot(b) + y
    ensures a == b && x == y
    decreases a
  {
    SlotHead(a, x);
    SlotHead(b, y);
    if a.FilledTree? {
      PrintUnique(a.tree, b.tree, x, y);
    }
  }

  lemma {:induction false} ItemsUnique(ts: seq<TreeSlot>, us: seq<TreeSlot>, r: Text, q: Text)
    requires ts != [] && us != [] && ProperItems(ts) && ProperItems(us)
    requires PrintItems(ts) + ([CLOSE_ARRAY] + r) == PrintItems(us) + ([CLOSE_ARRAY] + q)
    ensures ts == us && r == q
    decreases ts, 0
  {
    ItemsUnfold(ts, r);
    ItemsUnfold(us, q);
    SlotUnique(ts[0], us[0], AfterItem(ts, r), AfterItem(us, q));
    assert ts == [ts[0]] + ts[1..] && us == [us[0]] + us[1..];
    if |ts| == 1 {
      Cancel([CLOSE_ARRAY], r, q);
    } else {
      Cancel([COMMA], PrintItems(ts[1..]) + ([CLOSE_ARRAY] + r), PrintItems(us[1..]) + ([CLOSE_ARRAY] + q));
      ItemsUnique(ts[1..], us[1..], r, q);
    }
  }

  /** Only the array of one hole begins with its closing bracket although it has a place. */
  lemma {:induction false} BlankHead(items: seq<TreeSlot>, r: Text)
    requires items != [HoleTree]
    ensures (PrintItems(items) + ([CLOSE_ARRAY] + r))[0] == CLOSE_ARRAY <==> items == []
  {
    var end := [CLOSE_ARRAY] + r;
    if items == [] {
      assert PrintItems(items) + end == end;
    } else {
      ItemsUnfold(items, r);
      SlotHead(items[0], AfterItem(items, r));
      if items[0].HoleTree? {
        assert items == [items[0]] + items[1..];
        assert AfterItem(items, r)[0] == COMMA;
      }
    }
  }

  lemma {:induction false} ArraysUnique(ts: seq<TreeSlot>, us: seq<TreeSlot>, r: Text, q: Text)
    requires ProperItems(ts) && ProperItems(us) && ts != [HoleTree] && us != [HoleTree]
    requires PrintItems(ts) + ([CLOSE_ARRAY] + r) == PrintItems(us) + ([CLOSE_ARRAY] + q)
    ensures ts == us && r == q
    decreases ts, 1
  {
    BlankHead(ts, r);
    BlankHead(us, q);
    if ts == [] {
      assert PrintItems(ts) + ([CLOSE_ARRAY] + r) == [CLOSE_ARRAY] + r;
      assert PrintItems(us) + ([CLOSE_ARRAY] + q) == [CLOSE_ARRAY] + q;
      Cancel([CLOSE_ARRAY], r, q);
    } else {
      ItemsUnique(ts, us, r, q);
    }
  }

  ghost function AfterBranch(bs: seq<Branch>, r: Text): Text
    requires bs != []
  {
    if |bs| == 1 then [CLOSE_OBJECT] + r else [COMMA] + (PrintBranches(bs[1..]) + ([CLOSE_OBJECT] + r))
  }

  lemma {:induction false} BranchesUnfold(bs: seq<Branch>, r: Text)
    ensures var text := PrintBranches(bs) + ([CLOSE_OBJECT] + r);
      if bs == [] then text == [CLOSE_OBJECT] + r
      else text == PrintBranch(bs[0]) + AfterBranch(bs, r) && text[0] == QUOTE
  {
    var end := [CLOSE_OBJECT] + r;
    if bs != [] {
      assert PrintBranch(bs[0])[0] == QUOTE;
      Front(PrintBranch(bs[0]), AfterBranch(bs, r));
      if |bs| > 1 {
        Regroup(PrintBranch(bs[0]) + [COMMA], PrintBranches(bs[1..]), end);
        Regroup(PrintBranch(bs[0]), [COMMA], PrintBranches(bs[1..]) + end);
      }
    }
  }

  lemma {:induction false} BranchesUnique(bs: seq<Branch>, cs: seq<Branch>, r: Text, q: Text)
    requires ProperBranches(bs) && ProperBranches(cs)
    requires PrintBranches(bs) + ([CLOSE_OBJECT] + r) == PrintBranches(cs) + ([CLOSE_OBJECT] + q)
    ensures bs == cs && r == q
    decreases bs
  {
    BranchesUnfold(bs, r);
    BranchesUnfold(cs, q);
    if bs == [] {
      Cancel([CLOSE_OBJECT], r, q);
    } else {
      BranchUnique(bs[0], cs[0], AfterBranch(bs, r), AfterBranch(cs, q));
      assert bs == [bs[0]] + bs[1..] && cs == [cs[0]] + cs[1..];
      if |bs| == 1 {
        Cancel([CLOSE_OBJECT], r, q);
      } else {
        Cancel([COMMA], PrintBranches(bs[1..]) + ([CLOSE_OBJECT] + r), PrintBranches(cs[1..]) + ([CLOSE_OBJECT] + q));
        BranchesUnique(bs[1..], cs[1..], r, q);
      }
    }
  }

  lemma {:induction false} BranchText(b: Branch, r: Text)
    ensures PrintBranch(b) + r == Quoted(b.key) + ([COLON] + (Print(b.tree) + r))
  {
  }

  lemma {:induction false} BranchUnique(b: Branch, c: Branch, r: Text, q: Text)
    requires Proper(b.tree) && Proper(c.tree)
    requires PrintBranch(b) + r == PrintBranch(c) + q && Follows(r) && Follows(q)
    ensures b == c && r == q
    decreases b
  {
    BranchText(b, r);
    BranchText(c, q);
    QuotedUnique(b.key, c.key, [COLON] + (Print(b.tree) + r), [COLON] + (Print(c.tree) + q));
    Cancel([COLON], Print(b.tree) + r, Print(c.tree) + q);
    PrintUnique(b.tree, c.tree, r, q);
  }
}
