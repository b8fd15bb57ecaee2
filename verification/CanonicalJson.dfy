/**
 Canonical JSON text: the string that decides whether two requests, or two
 service profiles, are the same.

 Strings are UTF-16, as the language has them. Arrays may have holes, which
 mapping skips and joining writes as nothing.
 */
module CanonicalJson {
  import opened Wrappers
  import opened Ordering
  import opened Characters
  import opened NumberFormat

  /** A value of the language. `Foreign` is a function, symbol or big integer. */
  datatype Json =
    | Null
    | Bool(b: bool)
    | Number(n: Finite)
    | NonFinite
    | String(s: Text)
    | Array(items: seq<Slot>)
    | Object(fields: seq<Field>)
    | Undefined
    | Foreign

  /** A place of an array. */
  datatype Slot = Hole | Filled(value: Json)

  /** An own property; `fields` lists them in insertion order. */
  datatype Field = Field(key: Text, value: Json)

  /** The language keeps one property for each key. */
  ghost predicate DistinctFields(fields: seq<Field>) {
    forall i, j :: 0 <= i < j < |fields| ==> fields[i].key != fields[j].key
  }

  ghost predicate WellFormed(v: Json) {
    match v
    case Array(items) => forall i :: 0 <= i < |items| && items[i].Filled? ==> WellFormed(items[i].value)
    case Object(fields) => DistinctFields(fields) && forall i :: 0 <= i < |fields| ==> WellFormed(fields[i].value)
    case _ => true
  }

  // ---------------------------------------------------------------------
  // Strings
  // ---------------------------------------------------------------------

  const QUOTE: CodeUnit := 34
  const BACKSLASH: CodeUnit := 92
  const COMMA: CodeUnit := 44
  const COLON: CodeUnit := 58
  const OPEN_ARRAY: CodeUnit := 91
  const CLOSE_ARRAY: CodeUnit := 93
  const OPEN_OBJECT: CodeUnit := 123
  const CLOSE_OBJECT: CodeUnit := 125

  function HexDigit(d: int): CodeUnit
    requires 0 <= d < 16
  {
    if d < 10 then 48 + d else 87 + d
  }

  function Hex4(u: CodeUnit): Text {
    [HexDigit(u / 4096), HexDigit(u / 256 % 16), HexDigit(u / 16 % 16), HexDigit(u % 16)]
  }

  /** The letter after the backslash for the units with a short escape. */
  function ShortEscape(u: CodeUnit): Option<CodeUnit> {
    match u
    case 8 => Some(98)
    case 9 => Some(116)
    case 10 => Some(110)
    case 12 => Some(102)
    case 13 => Some(114)
    case 34 => Some(QUOTE)
    case 92 => Some(BACKSLASH)
    case _ => None
  }

  /** One unit that is not half of a surrogate pair; control units and lone surrogates are escaped. */
  function EscapeUnit(u: CodeUnit): Text {
    if ShortEscape(u).Some? then [BACKSLASH, ShortEscape(u).value]
    else if u < 32 || High(u) || Low(u) then [BACKSLASH, 117] + Hex4(u)
    else [u]
  }

  /** How many units the next escape step takes. */
  function StepLength(s: Text): (n: nat)
    requires s != []
    ensures 1 <= n <= 2 && n <= |s|
  {
    if |s| >= 2 && High(s[0]) && Low(s[1]) then 2 else 1
  }

  function EscapeStep(step: Text): Text
    requires step != []
  {
    if |step| == 1 then EscapeUnit(step[0]) else step
  }

  function Escaped(s: Text): Text {
    if s == [] then []
    else EscapeStep(s[..StepLength(s)]) + Escaped(s[StepLength(s)..])
  }

  function Quoted(s: Text): Text {
    [QUOTE] + Escaped(s) + [QUOTE]
  }

  // ---------------------------------------------------------------------
  // canonicalJson
  // ---------------------------------------------------------------------

  function Joined(parts: seq<Text>): Text {
    if parts == [] then [] else if |parts| == 1 then parts[0] else parts[0] + [COMMA] + Joined(parts[1..])
  }

  /** A property that is kept: its key and the canonical text of its value. */
  datatype Member = Member(key: Text, text: Text)

  function MemberKey(m: Member): seq<int> {
    m.key
  }

  function MemberText(m: Member): Text {
    Quoted(m.key) + [COLON] + m.text
  }

  function MemberTexts(ms: seq<Member>): (ts: seq<Text>)
    ensures |ts| == |ms| && forall i :: 0 <= i < |ms| ==> ts[i] == MemberText(ms[i])
  {
    seq(|ms|, i requires 0 <= i < |ms| => MemberText(ms[i]))
  }

  /** The canonical text, or None where the code throws. */
  function Canonical(v: Json): Option<Text>
    decreases v
  {
    match v
    case Null => Some(Ascii("null"))
    case Bool(b) => Some(if b then Ascii("true") else Ascii("false"))
    case Number(n) => Some(NumberText(n))
    case String(s) => Some(Quoted(s))
    case Array(items) =>
      var texts :- CanonicalItems(items);
      Some([OPEN_ARRAY] + Joined(texts) + [CLOSE_ARRAY])
    case Object(fields) =>
      var members :- CanonicalFields(fields);
      Some([OPEN_OBJECT] + Joined(MemberTexts(SortBy(MemberKey, members))) + [CLOSE_OBJECT])
    case NonFinite => None
    case Undefined => None
    case Foreign => None
  }

  function CanonicalSlot(slot: Slot): Option<Text>
    decreases slot
  {
    match slot
    case Hole => Some([])
    case Filled(v) => Canonical(v)
  }

  function CanonicalItems(items: seq<Slot>): Option<seq<Text>>
    decreases items
  {
    if items == [] then Some([])
    else
      var text :- CanonicalSlot(items[0]);
      var texts :- CanonicalItems(items[1..]);
      Some([text] + texts)
  }

  /** The kept properties, undefined ones left out. */
  function CanonicalFields(fields: seq<Field>): Option<seq<Member>>
    decreases fields
  {
    if fields == [] then Some([])
    else if fields[0].value == Undefined then CanonicalFields(fields[1..])
    else
      var text :- Canonical(fields[0].value);
      var members :- CanonicalFields(fields[1..]);
      Some([Member(fields[0].key, text)] + members)
  }

  // ---------------------------------------------------------------------
  // Equal values, defined without any text or order
  // ---------------------------------------------------------------------

  predicate Kept(f: Field) {
    f.value != Undefined
  }

  /** The property value, undefined when there is none. */
  function Lookup(fields: seq<Field>, key: Text): Json {
    if fields == [] then Undefined
    else if fields[0].key == key then fields[0].value
    else Lookup(fields[1..], key)
  }

  /** An array without items; one hole is no item. */
  predicate Blank(items: seq<Slot>) {
    items == [] || items == [Hole]
  }

  ghost predicate SameSlot(a: Slot, b: Slot)
    decreases a
  {
    match a
    case Hole => b.Hole?
    case Filled(v) => b.Filled? && Same(v, b.value)
  }

  /**
   The same JSON value: objects agree key by key, undefined meaning absent;
   arrays agree place by place, and all blank ones agree.
   */
  ghost predicate Same(v: Json, w: Json)
    decreases v
  {
    match v
    case Array(items) =>
      && w.Array?
      && (|| (Blank(items) && Blank(w.items))
          || (|w.items| == |items| && forall i :: 0 <= i < |items| ==> SameSlot(items[i], w.items[i])))
    case Object(fields) =>
      && w.Object?
      && (forall i :: 0 <= i < |fields| && Kept(fields[i]) ==> Same(fields[i].value, Lookup(w.fields, fields[i].key)))
      && (forall j :: 0 <= j < |w.fields| && Kept(w.fields[j]) ==> Lookup(fields, w.fields[j].key) != Undefined)
    case _ => v == w
  }

  /** The values JSON can carry: no undefined outside a property, nothing non-finite or foreign. */
  ghost predicate Serializable(v: Json) {
    match v
    case Array(items) => forall i :: 0 <= i < |items| && items[i].Filled? ==> Serializable(items[i].value)
    case Object(fields) => forall i :: 0 <= i < |fields| && Kept(fields[i]) ==> Serializable(fields[i].value)
    case NonFinite => false
    case Undefined => false
    case Foreign => false
    case _ => true
  }

  // ---------------------------------------------------------------------
  // Trees: values with their properties in key order
  // ---------------------------------------------------------------------

  datatype Tree =
    | NullTree
    | BoolTree(b: bool)
    | NumberTree(n: Finite)
    | StringTree(s: Text)
    | ArrayTree(items: seq<TreeSlot>)
    | ObjectTree(branches: seq<Branch>)

  datatype TreeSlot = HoleTree | FilledTree(tree: Tree)

  datatype Branch = Branch(key: Text, tree: Tree)

  function BranchKey(b: Branch): seq<int> {
    b.key
  }

  function Normal(v: Json): Option<Tree>
    decreases v
  {
    match v
    case Null => Some(NullTree)
    case Bool(b) => Some(BoolTree(b))
    case Number(n) => Some(NumberTree(n))
    case String(s) => Some(StringTree(s))
    case Array(items) =>
      var trees :- NormalItems(items);
      Some(ArrayTree(if trees == [HoleTree] then [] else trees))
    case Object(fields) =>
      var branches :- NormalFields(fields);
      Some(ObjectTree(SortBy(BranchKey, branches)))
    case NonFinite => None
    case Undefined => None
    case Foreign => None
  }

  function NormalSlot(slot: Slot): Option<TreeSlot>
    decreases slot
  {
    match slot
    case Hole => Some(HoleTree)
    case Filled(v) =>
      var tree :- Normal(v);
      Some(FilledTree(tree))
  }

  function NormalItems(items: seq<Slot>): Option<seq<TreeSlot>>
    decreases items
  {
    if items == [] then Some([])
    else
      var tree :- NormalSlot(items[0]);
      var trees :- NormalItems(items[1..]);
      Some([tree] + trees)
  }

  function NormalFields(fields: seq<Field>): Option<seq<Branch>>
    decreases fields
  {
    if fields == [] then Some([])
    else if fields[0].value == Undefined then NormalFields(fields[1..])
    else
      var tree :- Normal(fields[0].value);
      var branches :- NormalFields(fields[1..]);
      Some([Branch(fields[0].key, tree)] + branches)
  }

  /** No array is one hole: such trees are the normal ones. */
  ghost predicate Proper(t: Tree)
    decreases t
  {
    match t
    case ArrayTree(items) => items != [HoleTree] && ProperItems(items)
    case ObjectTree(branches) => ProperBranches(branches)
    case _ => true
  }

  ghost predicate ProperSlot(slot: TreeSlot)
    decreases slot
  {
    slot.FilledTree? ==> Proper(slot.tree)
  }

  ghost predicate ProperItems(items: seq<TreeSlot>)
    decreases items
  {
    forall i :: 0 <= i < |items| ==> ProperSlot(items[i])
  }

  ghost predicate ProperBranches(branches: seq<Branch>)
    decreases branches
  {
    forall i :: 0 <= i < |branches| ==> Proper(branches[i].tree)
  }

  function Print(t: Tree): Text
    decreases t
  {
    match t
    case NullTree => Ascii("null")
    case BoolTree(b) => if b then Ascii("true") else Ascii("false")
    case NumberTree(n) => NumberText(n)
    case StringTree(s) => Quoted(s)
    case ArrayTree(items) => [OPEN_ARRAY] + PrintItems(items) + [CLOSE_ARRAY]
    case ObjectTree(branches) => [OPEN_OBJECT] + PrintBranches(branches) + [CLOSE_OBJECT]
  }

  function PrintSlot(slot: TreeSlot): Text
    decreases slot
  {
    match slot
    case HoleTree => []
    case FilledTree(t) => Print(t)
  }

  function PrintItems(items: seq<TreeSlot>): Text
    decreases items
  {
    if items == [] then []
    else if |items| == 1 then PrintSlot(items[0])
    else PrintSlot(items[0]) + [COMMA] + PrintItems(items[1..])
  }

  function PrintBranch(b: Branch): Text
    decreases b
  {
    Quoted(b.key) + [COLON] + Print(b.tree)
  }

  function PrintBranches(branches: seq<Branch>): Text
    decreases branches
  {
    if branches == [] then []
    else if |branches| == 1 then PrintBranch(branches[0])
    else PrintBranch(branches[0]) + [COMMA] + PrintBranches(branches[1..])
  }
}
