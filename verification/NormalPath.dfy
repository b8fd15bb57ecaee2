/** Which path the normal form is: the one plain spelling of its indices, and the shortest. */
module NormalPath {
  import opened Wrappers
  import opened Characters
  import opened Decimal
  import opened DerivationPath

  // ---------------------------------------------------------------------
  // The text itself
  // ---------------------------------------------------------------------

  /** m/i'/j'/k', every index in decimal. */
  function Written(indices: seq<nat>): Str {
    if indices == [] then [109]
    else Written(indices[..|indices| - 1]) + ([47] + Numeral(Digits(indices[|indices| - 1])) + [39])
  }

  lemma {:induction false} SegmentsSnoc(indices: seq<nat>)
    requires indices != []
    ensures var n := |indices| - 1;
      [ROOT] + Segments(indices) == [ROOT] + Segments(indices[..n]) + [PrintSegment(indices[n])]
  {
  }

  /** What the printer writes, unit by unit. */
  lemma {:induction false} PrintIsWritten(indices: seq<nat>)
    ensures Print(indices) == Written(indices)
    decreases |indices|
  {
    if indices == [] {
      assert [ROOT] + Segments([]) == [ROOT];
    } else {
      var n := |indices| - 1;
      var t, s := Print(indices[..n]), Numeral(Digits(indices[n]));
      SegmentsSnoc(indices);
      JoinSnoc([ROOT] + Segments(indices[..n]), PrintSegment(indices[n]));
      PrintIsWritten(indices[..n]);
      assert t + [47] + (s + [39]) == t + ([47] + s + [39]);
    }
  }

  // ---------------------------------------------------------------------
  // Plain spellings
  // ---------------------------------------------------------------------

  /** No plus sign, no leading zero, and an apostrophe for a mark. */
  ghost predicate PlainSegment(t: Str) {
    t != [] && 43 !in t && t[|t| - 1] == 39 && (t[0] == 48 ==> |t| == 2)
  }

  ghost predicate PlainPath(t: Str) {
    forall i :: 0 < i < |Split(t)| ==> PlainSegment(Split(t)[i])
  }

  lemma {:induction false} SpelledLength(s: Spelling, index: nat)
    ensures |Spell(s, index)| == (if s.plus then 1 else 0) + s.zeros + |Digits(index)| + 1
  {
  }

  /** No spelling of an index is shorter than the printed one, and no other is plain. */
  lemma {:induction false} OnePlainSpelling(t: Str, index: nat)
    requires ReadSegment(t) == Some(index)
    ensures |PrintSegment(index)| <= |t|
    ensures PlainSegment(t) ==> t == PrintSegment(index)
  {
    SegmentIff(t, index);
    var s: Spelling :| IsMark(s.mark) && t == Spell(s, index);
    SpelledLength(s, index);
    assert s.plus ==> t[0] == 43;
    assert !s.plus && s.zeros > 0 ==> t[0] == 48;
    assert t[|t| - 1] == s.mark;
    assert Zeros(0) + Digits(index) == Digits(index);
    assert [] + Numeral(Digits(index)) == Numeral(Digits(index));
  }

  lemma {:induction false} DigitsHeadNonzero(n: nat)
    requires n > 0
    ensures Digits(n)[0] != 0
    decreases n
  {
    if n >= 10 {
      DigitsHeadNonzero(n / 10);
    }
  }

  lemma {:induction false} PrintedIsPlain(index: nat)
    ensures PlainSegment(PrintSegment(index))
  {
    var t, ds := PrintSegment(index), Digits(index);
    assert t[0] == DigitUnit(ds[0]);
    if index > 0 {
      DigitsHeadNonzero(index);
    }
  }

  // ---------------------------------------------------------------------
  // Whole paths
  // ---------------------------------------------------------------------

  lemma {:induction false} JoinSplit(t: Str)
    ensures Join(Split(t)) == t
    decreases |t|
  {
    if t != [] {
      var rest := Split(t[1..]);
      JoinSplit(t[1..]);
      if t[0] == SLASH {
        assert ([[]] + rest)[1..] == rest;
        assert t == [SLASH] + t[1..];
        assert [] + [SLASH] + Join(rest) == [SLASH] + Join(rest);
      } else {
        JoinFirst(t[0], rest);
        assert t == [t[0]] + t[1..];
      }
    }
  }

  lemma {:induction false} JoinFirst(c: Scalar, parts: seq<Str>)
    requires parts != []
    ensures Join([[c] + parts[0]] + parts[1..]) == [c] + Join(parts)
  {
    var more := [[c] + parts[0]] + parts[1..];
    assert more[1..] == parts[1..];
    if |parts| > 1 {
      assert [c] + parts[0] + [SLASH] + Join(parts[1..]) == [c] + (parts[0] + [SLASH] + Join(parts[1..]));
    }
  }

  lemma {:induction false} JoinLonger(ps: seq<Str>, qs: seq<Str>)
    requires |ps| == |qs| > 0 && forall i :: 0 <= i < |ps| ==> |ps[i]| <= |qs[i]|
    ensures |Join(ps)| <= |Join(qs)|
    decreases |ps|
  {
    if |ps| > 1 {
      JoinLonger(ps[1..], qs[1..]);
    }
  }

  /** The parts of an accepted path are the root and segments that read as its indices. */
  lemma {:induction false} PartsRead(t: Str, indices: seq<nat>)
    requires Parse(t) == Some(indices)
    ensures var parts := Split(t);
      && parts[0] == ROOT && |parts| == |indices| + 1
      && forall k :: 0 < k < |parts| ==> ReadSegment(parts[k]) == Some(indices[k - 1])
  {
    var parts := Split(t);
    assert forall k :: 0 < k < |parts| ==> parts[k] == parts[1..][k - 1];
  }

  lemma {:induction false} PrintedParts(indices: seq<nat>)
    requires Indices(indices)
    ensures Split(Print(indices)) == [ROOT] + Segments(indices)
  {
    var parts := [ROOT] + Segments(indices);
    forall i | 0 <= i < |indices|
      ensures Solid(Segments(indices)[i])
    {
      PrintedSegment(indices[i]);
    }
    assert AllSolid(parts);
    SplitJoin(parts);
  }

  /** Part by part the printed path is plain, and as short as any that reads alike. */
  lemma {:induction false} PartsCompare(indices: seq<nat>, parts: seq<Str>, k: nat)
    requires |parts| == |indices| + 1 && parts[0] == ROOT && k < |parts|
    requires k > 0 ==> ReadSegment(parts[k]) == Some(indices[k - 1])
    ensures var printed := [ROOT] + Segments(indices);
      && (k > 0 ==> PlainSegment(printed[k]))
      && |printed[k]| <= |parts[k]|
      && ((k > 0 ==> PlainSegment(parts[k])) ==> parts[k] == printed[k])
  {
    var printed := [ROOT] + Segments(indices);
    if k > 0 {
      assert printed[k] == PrintSegment(indices[k - 1]);
      PrintedIsPlain(indices[k - 1]);
      OnePlainSpelling(parts[k], indices[k - 1]);
    }
  }

  lemma {:induction false} PrintIsShortestPlain(indices: seq<nat>, u: Str)
    requires Indices(indices) && Parse(u) == Some(indices)
    ensures PlainPath(Print(indices)) && |Print(indices)| <= |u|
    ensures PlainPath(u) ==> u == Print(indices)
  {
    var parts, printed := Split(u), [ROOT] + Segments(indices);
    PartsRead(u, indices);
    PrintedParts(indices);
    forall k | 0 <= k < |printed|
      ensures k > 0 ==> PlainSegment(printed[k])
      ensures |printed[k]| <= |parts[k]|
      ensures PlainPath(u) ==> parts[k] == printed[k]
    {
      PartsCompare(indices, parts, k);
    }
    JoinSplit(u);
    JoinLonger(printed, parts);
    assert PlainPath(u) ==> parts == printed;
  }

  /**
   The normal form of an accepted path has its indices and is plain; no
   accepted path with these indices is shorter, and no other one is plain.
   */
  lemma {:induction false} NormalIsShortestPlain(path: Option<Str>)
    requires Normalize(path).Some?
    ensures var t := Normalize(path).value;
      && Parse(t) == Parse(Meant(path)) && PlainPath(t)
      && t == Written(Parse(t).value)
      && forall u: Str :: Parse(u) == Parse(t) ==> |t| <= |u| && (PlainPath(u) ==> u == t)
  {
    var t := Normalize(path).value;
    NormalizeKeeps(path);
    NormalIsPrint(path);
    ParsedIndices(t);
    var indices := Parse(t).value;
    PrintIsWritten(indices);
    PrintIsShortestPlain(indices, t);
    forall u: Str | Parse(u) == Parse(t)
      ensures |t| <= |u| && (PlainPath(u) ==> u == t)
    {
      PrintIsShortestPlain(indices, u);
    }
  }

  // ---------------------------------------------------------------------
  // What is left of the text given
  // ---------------------------------------------------------------------

  /** The code points with the property White_Space. */
  const SPACES: seq<int> := [
    9, 10, 11, 12, 13, 32, 0x85, 0xA0, 0x1680, 0x2000, 0x2001, 0x2002, 0x2003, 0x2004, 0x2005, 0x2006, 0x2007,
    0x2008, 0x2009, 0x200A, 0x2028, 0x2029, 0x202F, 0x205F, 0x3000
  ]

  lemma {:induction false} SpaceIff(c: Scalar)
    ensures IsSpace(c) <==> c in SPACES
  {
  }

  ghost predicate AllSpace(t: Str) {
    forall i :: 0 <= i < |t| ==> IsSpace(t[i])
  }

  lemma {:induction false} TrimStartIs(t: Str) returns (a: Str)
    ensures AllSpace(a) && t == a + TrimStart(t)
    ensures TrimStart(t) != [] ==> !IsSpace(TrimStart(t)[0])
    decreases |t|
  {
    a := [];
    if t != [] && IsSpace(t[0]) {
      a := TrimStartIs(t[1..]);
      a := [t[0]] + a;
      assert t == [t[0]] + t[1..];
    }
  }

  lemma {:induction false} TrimEndIs(t: Str) returns (b: Str)
    ensures AllSpace(b) && t == TrimEnd(t) + b
    ensures TrimEnd(t) != [] ==> !IsSpace(TrimEnd(t)[|TrimEnd(t)| - 1]) && TrimEnd(t)[0] == t[0]
    decreases |t|
  {
    b := [];
    if t != [] && IsSpace(t[|t| - 1]) {
      var front := t[..|t| - 1];
      b := TrimEndIs(front);
      b := b + [t[|t| - 1]];
      assert t == front + [t[|t| - 1]];
    }
  }

  /** The path meant is what stands between white space, or `m` when nothing does. */
  lemma {:induction false} MeantIs(path: Str) returns (a: Str, t: Str, b: Str)
    ensures path == a + t + b && AllSpace(a) && AllSpace(b)
    ensures t != [] ==> !IsSpace(t[0]) && !IsSpace(t[|t| - 1])
    ensures Meant(Some(path)) == (if t == [] then [109] else t) && Meant(None) == [109]
  {
    a := TrimStartIs(path);
    b := TrimEndIs(TrimStart(path));
    t := Trim(path);
  }
}
