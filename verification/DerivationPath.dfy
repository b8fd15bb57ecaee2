/** Derivation paths: the parser, the printer and the normal form. */
module DerivationPath {
  import opened Wrappers
  import opened Ordering
  import opened Characters
  import opened Decimal
  import opened Numbers

  type Str = seq<Scalar>

  const SLASH: Scalar := 47
  const PLUS: Scalar := 43
  const QUOTE: Scalar := 39
  const ROOT: Str := [109]
  const HARDENED_OFFSET: nat := 0x8000_0000

  // ---------------------------------------------------------------------
  // Splitting
  // ---------------------------------------------------------------------

  /** The pieces between slashes; always at least one. */
  function Split(t: Str): (parts: seq<Str>)
    ensures parts != []
  {
    if t == [] then [[]]
    else
      var rest := Split(t[1..]);
      if t[0] == SLASH then [[]] + rest else [[t[0]] + rest[0]] + rest[1..]
  }

  function Join(parts: seq<Str>): Str
    requires parts != []
  {
    if |parts| == 1 then parts[0] else parts[0] + [SLASH] + Join(parts[1..])
  }

  ghost predicate Solid(t: Str) {
    SLASH !in t
  }

  lemma {:induction false} SplitPiece(piece: Str, rest: Str)
    requires Solid(piece)
    ensures Split(piece + [SLASH] + rest) == [piece] + Split(rest)
    decreases |piece|
  {
    var t := piece + [SLASH] + rest;
    if piece == [] {
      assert t[1..] == rest;
    } else {
      assert t[1..] == piece[1..] + [SLASH] + rest;
      assert forall i :: 0 <= i < |piece[1..]| ==> piece[1..][i] == piece[i + 1];
      assert t[0] == piece[0] && piece[0] in piece;
      SplitPiece(piece[1..], rest);
      assert [piece[0]] + piece[1..] == piece;
      assert ([piece[1..]] + Split(rest))[1..] == Split(rest);
    }
  }

  lemma {:induction false} SplitSolid(piece: Str)
    requires Solid(piece)
    ensures Split(piece) == [piece]
    decreases |piece|
  {
    if piece != [] {
      assert forall i :: 0 <= i < |piece[1..]| ==> piece[1..][i] == piece[i + 1];
      assert piece[0] in piece;
      SplitSolid(piece[1..]);
      assert [piece[0]] + piece[1..] == piece;
    }
  }

  ghost predicate AllSolid(parts: seq<Str>) {
    forall i :: 0 <= i < |parts| ==> Solid(parts[i])
  }

  lemma {:induction false} SplitJoin(parts: seq<Str>)
    requires parts != [] && AllSolid(parts)
    ensures Split(Join(parts)) == parts
    decreases |parts|
  {
    if |parts| == 1 {
      SplitSolid(parts[0]);
      assert parts == [parts[0]];
    } else {
      var rest := parts[1..];
      assert AllSolid(rest) by {
        assert forall i :: 0 <= i < |rest| ==> rest[i] == parts[i + 1];
      }
      SplitJoin(rest);
      SplitPiece(parts[0], Join(rest));
      assert parts == [parts[0]] + rest;
    }
  }

  // ---------------------------------------------------------------------
  // One segment
  // ---------------------------------------------------------------------

  predicate IsMark(c: Scalar) {
    c == QUOTE || c == 104 || c == 72
  }

  /** u32::from_str: an optional plus sign and at least one decimal digit, within 32 bits. */
  function ReadU32(t: Str): Option<nat> {
    var body := if t != [] && t[0] == PLUS then t[1..] else t;
    var ds :- ReadDigits(body);
    if ds != [] && Value(ds) <= U32_MAX then Some(Value(ds)) else None
  }

  /** A hardened segment. */
  function ReadSegment(t: Str): Option<nat> {
    if t == [] || !IsMark(t[|t| - 1]) then None
    else
      var index :- ReadU32(t[..|t| - 1]);
      if index < HARDENED_OFFSET then Some(index) else None
  }

  function Parse(t: Str): Option<seq<nat>> {
    var parts := Split(t);
    if parts[0] != ROOT then None else ReadAll(ReadSegment, parts[1..])
  }

  /** Leading zeros. */
  function Zeros(k: nat): (ds: seq<Digit>)
    ensures |ds| == k && forall i :: 0 <= i < k ==> ds[i] == 0
  {
    if k == 0 then [] else [0] + Zeros(k - 1)
  }

  function AsStr(b: Bytes): (t: Str)
    ensures |t| == |b| && forall i :: 0 <= i < |b| ==> t[i] == b[i]
  {
    seq(|b|, i requires 0 <= i < |b| => b[i])
  }

  function Numeral(ds: seq<Digit>): Str {
    AsStr(DigitText(ds))
  }

  /** How an index may be written. */
  datatype Spelling = Spelling(plus: bool, zeros: nat, mark: Scalar)

  function Spell(s: Spelling, index: nat): Str {
    (if s.plus then [PLUS] else []) + Numeral(Zeros(s.zeros) + Digits(index)) + [s.mark]
  }

  lemma {:induction false} ValueSnoc(ds: seq<Digit>, d: Digit)
    ensures Value(ds + [d]) == 10 * Value(ds) + d
  {
  }

  lemma {:induction false} DigitsSnoc(v: nat, d: Digit)
    requires v > 0
    ensures Digits(10 * v + d) == Digits(v) + [d]
  {
  }

  lemma {:induction false} AppendDigit(a: seq<Digit>, b: seq<Digit>, d: Digit)
    ensures a + b + [d] == a + (b + [d])
  {
  }

  /** Digits with value `n` are the numeral of `n` after some zeros. */
  lemma {:induction false} LeadingZeros(ds: seq<Digit>) returns (k: nat)
    requires ds != []
    ensures ds == Zeros(k) + Digits(Value(ds))
    decreases |ds|
  {
    var front, d := ds[..|ds| - 1], ds[|ds| - 1];
    var v := Value(front);
    assert ds == front + [d];
    ValueSnoc(front, d);
    if front == [] {
      k := 0;
      assert Zeros(0) + [d] == [d];
    } else {
      var j := LeadingZeros(front);
      if v == 0 {
        k := j + 1;
        ZerosSnoc(j);
      } else {
        k := j;
        DigitsSnoc(v, d);
        AppendDigit(Zeros(j), Digits(v), d);
      }
    }
  }

  lemma {:induction false} ZerosSnoc(k: nat)
    ensures Zeros(k + 1) == Zeros(k) + [0]
    decreases k
  {
  }

  lemma {:induction false} ValueAfterZeros(k: nat, n: nat)
    ensures Value(Zeros(k) + Digits(n)) == n
    decreases k, n
  {
    if n >= 10 {
      ValueAfterZeros(k, n / 10);
      assert Zeros(k) + Digits(n) == (Zeros(k) + Digits(n / 10)) + [n % 10];
      ValueSnoc(Zeros(k) + Digits(n / 10), n % 10);
    } else {
      ValueOfZeros(k);
      ValueSnoc(Zeros(k), n);
    }
  }

  lemma {:induction false} ValueOfZeros(k: nat)
    ensures Value(Zeros(k)) == 0
    decreases k
  {
    if k > 0 {
      ValueOfZeros(k - 1);
      ZerosSnoc(k - 1);
      ValueSnoc(Zeros(k - 1), 0);
    }
  }

  lemma {:induction false} NumeralReads(ds: seq<Digit>)
    ensures ReadDigits(Numeral(ds)) == Some(ds)
  {
    ReadDigitText(ds);
    assert Numeral(ds) == DigitText(ds);
  }

  lemma {:induction false} DigitsSpell(t: seq<int>)
    requires ReadDigits(t).Some?
    ensures t == DigitText(ReadDigits(t).value)
    decreases |t|
  {
    if t != [] {
      DigitsSpell(t[1..]);
      var ds := ReadDigits(t).value;
      assert ds[1..] == ReadDigits(t[1..]).value;
      assert DigitText(ds) == [DigitUnit(ds[0])] + DigitText(ds[1..]);
    }
  }

  lemma {:induction false} PlainReads(ds: seq<Digit>)
    requires ds != [] && Value(ds) <= U32_MAX
    ensures ReadU32(Numeral(ds)) == Some(Value(ds))
  {
    NumeralReads(ds);
    assert Numeral(ds)[0] == DigitUnit(ds[0]);
  }

  lemma {:induction false} SignedReads(ds: seq<Digit>)
    requires ds != [] && Value(ds) <= U32_MAX
    ensures ReadU32([PLUS] + Numeral(ds)) == Some(Value(ds))
  {
    NumeralReads(ds);
    assert ([PLUS] + Numeral(ds))[1..] == Numeral(ds);
  }

  /** A 32-bit number is read from its spellings. */
  lemma {:induction false} SpellingReads(plus: bool, zeros: nat, n: nat)
    requires n <= U32_MAX
    ensures ReadU32((if plus then [PLUS] else []) + Numeral(Zeros(zeros) + Digits(n))) == Some(n)
  {
    var ds := Zeros(zeros) + Digits(n);
    ValueAfterZeros(zeros, n);
    if plus {
      SignedReads(ds);
    } else {
      PlainReads(ds);
      assert [] + Numeral(ds) == Numeral(ds);
    }
  }

  lemma {:induction false} ReadIsSpelled(t: Str) returns (plus: bool, zeros: nat)
    requires ReadU32(t).Some?
    ensures t == (if plus then [PLUS] else []) + Numeral(Zeros(zeros) + Digits(ReadU32(t).value))
  {
    plus := t[0] == PLUS;
    var body := if plus then t[1..] else t;
    var ds := ReadDigits(body).value;
    DigitsSpell(body);
    zeros := LeadingZeros(ds);
    assert body == Numeral(ds);
  }

  /** A segment stands for an index exactly when it is a spelling of it. */
  lemma {:induction false} SegmentIff(t: Str, index: nat)
    ensures ReadSegment(t) == Some(index)
        <==> index < 0x8000_0000 && exists s: Spelling :: s.mark in {39, 72, 104} && t == Spell(s, index)
  {
    if ReadSegment(t) == Some(index) {
      var plus, zeros := ReadIsSpelled(t[..|t| - 1]);
      assert t == Spell(Spelling(plus, zeros, t[|t| - 1]), index);
    }
    if index < HARDENED_OFFSET && exists s: Spelling :: IsMark(s.mark) && t == Spell(s, index) {
      var s: Spelling :| IsMark(s.mark) && t == Spell(s, index);
      SpelledSegment(s, index);
    }
  }

  lemma {:induction false} SpelledSegment(s: Spelling, index: nat)
    requires IsMark(s.mark) && index < HARDENED_OFFSET
    ensures ReadSegment(Spell(s, index)) == Some(index)
  {
    var t := Spell(s, index);
    SpellingReads(s.plus, s.zeros, index);
    assert t[..|t| - 1] == (if s.plus then [PLUS] else []) + Numeral(Zeros(s.zeros) + Digits(index));
  }

  // ---------------------------------------------------------------------
  // Printing
  // ---------------------------------------------------------------------

  function PrintSegment(index: nat): (t: Str)
    ensures t != []
  {
    Numeral(Digits(index)) + [QUOTE]
  }

  function Segments(indices: seq<nat>): (parts: seq<Str>)
    ensures |parts| == |indices| && forall i :: 0 <= i < |indices| ==> parts[i] == PrintSegment(indices[i])
  {
    seq(|indices|, i requires 0 <= i < |indices| => PrintSegment(indices[i]))
  }

  function Print(indices: seq<nat>): Str {
    Join([ROOT] + Segments(indices))
  }

  ghost predicate Indices(indices: seq<nat>) {
    forall i :: 0 <= i < |indices| ==> indices[i] < HARDENED_OFFSET
  }

  lemma {:induction false} PrintedSegment(index: nat)
    requires index < HARDENED_OFFSET
    ensures Solid(PrintSegment(index)) && ReadSegment(PrintSegment(index)) == Some(index)
  {
    SpelledSegment(Spelling(false, 0, QUOTE), index);
    assert [] + Digits(index) == Digits(index);
    assert [] + Numeral(Digits(index)) + [QUOTE] == PrintSegment(index);
  }

  /** Printed indices read back. */
  lemma {:induction false} ParsePrint(indices: seq<nat>)
    requires Indices(indices)
    ensures Parse(Print(indices)) == Some(indices)
  {
    var parts := [ROOT] + Segments(indices);
    forall i | 0 <= i < |indices|
      ensures Solid(Segments(indices)[i]) && ReadSegment(Segments(indices)[i]) == Some(indices[i])
    {
      PrintedSegment(indices[i]);
    }
    assert AllSolid(parts);
    SplitJoin(parts);
    assert parts[1..] == Segments(indices);
    assert ReadAll(ReadSegment, Segments(indices)).value == indices;
  }

  lemma {:induction false} ParsedIndices(t: Str)
    requires Parse(t).Some?
    ensures Indices(Parse(t).value)
  {
  }

  // ---------------------------------------------------------------------
  // The normal form
  // ---------------------------------------------------------------------

  /** Unicode white space, which str::trim removes. */
  predicate IsSpace(c: Scalar) {
    9 <= c <= 13 || c == 32 || c == 0x85 || c == 0xA0 || c == 0x1680 || 0x2000 <= c <= 0x200A
    || c == 0x2028 || c == 0x2029 || c == 0x202F || c == 0x205F || c == 0x3000
  }

  function TrimStart(t: Str): Str {
    if t != [] && IsSpace(t[0]) then TrimStart(t[1..]) else t
  }

  function TrimEnd(t: Str): Str {
    if t != [] && IsSpace(t[|t| - 1]) then TrimEnd(t[..|t| - 1]) else t
  }

  function Trim(t: Str): Str {
    TrimEnd(TrimStart(t))
  }

  /** The path meant: trimmed, and the root when nothing is given. */
  function Meant(path: Option<Str>): Str {
    if path.None? || Trim(path.value) == [] then ROOT else Trim(path.value)
  }

  /** normalize_derivation_path. */
  function Normalize(path: Option<Str>): Option<Str> {
    var t := Meant(path);
    var indices :- Parse(t);
    Some(if t == ROOT then ROOT else Print(indices))
  }

  /** The normal form is the print of the indices. */
  lemma {:induction false} NormalIsPrint(path: Option<Str>)
    requires Normalize(path).Some?
    ensures Parse(Meant(path)).Some? && Normalize(path).value == Print(Parse(Meant(path)).value)
  {
  }

  lemma {:induction false} PrintEnds(indices: seq<nat>)
    ensures var t := Print(indices); t != [] && t[0] == 109 && (t[|t| - 1] == 109 || t[|t| - 1] == QUOTE)
  {
    var parts := [ROOT] + Segments(indices);
    if indices != [] {
      assert parts[1..] == Segments(indices);
      JoinEnds(indices);
    }
  }

  lemma {:induction false} JoinEnds(indices: seq<nat>)
    requires indices != []
    ensures var t := Join(Segments(indices)); t != [] && t[|t| - 1] == QUOTE
    decreases |indices|
  {
    var parts := Segments(indices);
    if |indices| > 1 {
      assert parts[1..] == Segments(indices[1..]);
      JoinEnds(indices[1..]);
    } else {
      assert parts[0] == PrintSegment(indices[0]);
    }
  }

  lemma {:induction false} MeantPrint(indices: seq<nat>)
    ensures Meant(Some(Print(indices))) == Print(indices)
  {
    PrintEnds(indices);
  }

  /** Normalizing keeps the indices and is idempotent. */
  lemma {:induction false} NormalizeKeeps(path: Option<Str>)
    requires Normalize(path).Some?
    ensures Parse(Normalize(path).value) == Parse(Meant(path))
    ensures Normalize(Some(Normalize(path).value)) == Normalize(path)
  {
    NormalIsPrint(path);
    var indices := Parse(Meant(path)).value;
    ParsedIndices(Meant(path));
    ParsePrint(indices);
    MeantPrint(indices);
    NormalIsPrint(Some(Print(indices)));
  }

  /** Accepted paths normalize alike exactly when they mean the same indices. */
  lemma {:induction false} NormalizeAlikeIff(a: Option<Str>, b: Option<Str>)
    requires Normalize(a).Some? && Normalize(b).Some?
    ensures Normalize(a) == Normalize(b) <==> Parse(Meant(a)) == Parse(Meant(b))
  {
    NormalizeKeeps(a);
    NormalizeKeeps(b);
    NormalIsPrint(a);
    NormalIsPrint(b);
  }

  // ---------------------------------------------------------------------
  // The loops
  // ---------------------------------------------------------------------

  datatype PathError = MustStartWithRoot | EmptySegment | NotHardened | NotAnIndex | IndexTooLarge

  /** What each error says is wrong, with `i` the segment it is about. */
  ghost predicate Fault(e: PathError, parts: seq<Str>, i: nat)
    requires i < |parts|
  {
    var t := parts[i];
    match e
    case MustStartWithRoot => i == 0 && t != ROOT
    case EmptySegment => i > 0 && t == []
    case NotHardened => i > 0 && t != [] && !IsMark(t[|t| - 1])
    case NotAnIndex => i > 0 && t != [] && ReadU32(t[..|t| - 1]).None?
    case IndexTooLarge =>
      && i > 0 && t != []
      && ReadU32(t[..|t| - 1]).Some? && ReadU32(t[..|t| - 1]).value >= HARDENED_OFFSET
  }

  /** The error is about the first part that is wrong. */
  ghost predicate FirstFault(e: PathError, parts: seq<Str>) {
    exists i :: 0 <= i < |parts| && Fault(e, parts, i)
                && forall k :: 0 < k < i ==> ReadSegment(parts[k]).Some?
  }

  method ParseDerivationPath(path: Str) returns (r: Result<seq<nat>, PathError>)
    ensures r.Ok? <==> Parse(path).Some?
    ensures r.Err? ==> FirstFault(r.error, Split(path))
    ensures r.Ok? ==> Parse(path) == Some(r.value)
  {
    var parts := Split(path);
    if parts[0] != ROOT {
      assert Fault(MustStartWithRoot, parts, 0);
      return Err(MustStartWithRoot);
    }
    var segments := parts[1..];
    var indices: seq<nat> := [];
    for i := 0 to |segments|
      invariant |indices| == i
      invariant forall k :: 0 <= k < i ==> ReadSegment(segments[k]) == Some(indices[k])
    {
      var segment := segments[i];
      assert forall k :: 0 < k < i + 1 ==> parts[k] == segments[k - 1];
      assert parts[i + 1] == segment;
      if segment == [] {
        assert Fault(EmptySegment, parts, i + 1);
        return Err(EmptySegment);
      }
      if !IsMark(segment[|segment| - 1]) {
        assert Fault(NotHardened, parts, i + 1);
        return Err(NotHardened);
      }
      var index := ReadU32(segment[..|segment| - 1]);
      if index.None? {
        assert Fault(NotAnIndex, parts, i + 1);
        return Err(NotAnIndex);
      }
      if index.value >= HARDENED_OFFSET {
        assert Fault(IndexTooLarge, parts, i + 1);
        return Err(IndexTooLarge);
      }
      indices := indices + [index.value];
    }
    assert ReadAll(ReadSegment, segments).value == indices;
    r := Ok(indices);
  }

  lemma {:induction false} JoinSnoc(parts: seq<Str>, part: Str)
    requires parts != []
    ensures Join(parts + [part]) == Join(parts) + [SLASH] + part
    decreases |parts|
  {
    if |parts| == 1 {
      assert (parts + [part])[1..] == [part];
    } else {
      assert (parts + [part])[1..] == parts[1..] + [part];
      JoinSnoc(parts[1..], part);
      assert parts[0] + [SLASH] + (Join(parts[1..]) + [SLASH] + part) ==
        parts[0] + [SLASH] + Join(parts[1..]) + [SLASH] + part;
    }
  }

  method PathSegmentsToString(indices: seq<nat>) returns (t: Str)
    ensures t == Print(indices)
  {
    if indices == [] {
      assert [ROOT] + Segments([]) == [ROOT];
      return ROOT;
    }
    t := ROOT;
    for i := 0 to |indices|
      invariant t == Print(indices[..i])
    {
      assert indices[..i + 1] == indices[..i] + [indices[i]];
      assert [ROOT] + Segments(indices[..i + 1]) == ([ROOT] + Segments(indices[..i])) + [PrintSegment(indices[i])];
      JoinSnoc([ROOT] + Segments(indices[..i]), PrintSegment(indices[i]));
      var before := t;
      t := t + [SLASH];
      t := t + Numeral(Digits(indices[i]));
      t := t + [QUOTE];
      assert t == before + [SLASH] + PrintSegment(indices[i]);
    }
    assert indices[..|indices|] == indices;
  }

  method NormalizeDerivationPath(path: Option<Str>) returns (r: Result<Str, PathError>)
    ensures r.Ok? <==> Normalize(path).Some?
    ensures r.Err? ==> FirstFault(r.error, Split(Meant(path)))
    ensures r.Ok? ==> Normalize(path) == Some(r.value)
  {
    var t := Meant(path);
    var indices := ParseDerivationPath(t);
    if indices.Err? {
      return Err(indices.error);
    }
    if t == ROOT {
      return Ok(ROOT);
    }
    var printed := PathSegmentsToString(indices.value);
    r := Ok(printed);
  }
}
