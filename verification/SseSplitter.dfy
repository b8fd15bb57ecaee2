/**
 The byte-level server-sent-event reader: the search for the blank line that
 ends an event, the splitting of a growing buffer into event blocks, and the
 field parser for one block. Blank lines are LF LF or CR LF CR LF only.
 */
module SseSplitter {
  import opened Wrappers
  import opened Ordering
  import opened Characters

  const LF: Byte := 10
  const CR: Byte := 13
  const SPACE: Byte := 32
  const COLON: Byte := 58

  const EVENT: Bytes := Ascii("event")
  const DATA: Bytes := Ascii("data")

  // ---------------------------------------------------------------------
  // Finding the end of the first event
  // ---------------------------------------------------------------------

  datatype Separator = LfLf | CrlfCrlf {
    function Length(): nat {
      if LfLf? then 2 else 4
    }

    function Bytes(): Bytes {
      if LfLf? then [LF, LF] else [CR, LF, CR, LF]
    }

    function Eol(): Bytes {
      if LfLf? then [LF] else [CR, LF]
    }
  }

  datatype Boundary = Boundary(at: nat, separator: Separator)

  predicate SeparatorAt(sep: Separator, b: Bytes, i: nat) {
    match sep
    case LfLf => i + 2 <= |b| && b[i] == LF && b[i + 1] == LF
    case CrlfCrlf => i + 4 <= |b| && b[i] == CR && b[i + 1] == LF && b[i + 2] == CR && b[i + 3] == LF
  }

  /** The first position at or after `from` where `sep` stands. */
  function Find(sep: Separator, b: Bytes, from: nat): (r: Option<nat>)
    requires from <= |b|
    ensures r.Some? ==> from <= r.value && SeparatorAt(sep, b, r.value)
    ensures forall i: nat :: from <= i && (r.Some? ==> i < r.value) ==> !SeparatorAt(sep, b, i)
    decreases |b| - from
  {
    if SeparatorAt(sep, b, from) then Some(from)
    else if from == |b| then None
    else Find(sep, b, from + 1)
  }

  /** No event ends before position `k`. */
  ghost predicate NoSeparatorBefore(b: Bytes, k: nat) {
    forall sep: Separator, i: nat :: i < k ==> !SeparatorAt(sep, b, i)
  }

  /** The two kinds of blank line: LF LF, and CR LF CR LF. */
  lemma {:induction false} SeparatorIff(b: Bytes, i: nat)
    ensures SeparatorAt(LfLf, b, i) <==> i + 2 <= |b| && b[i..i + 2] == [10, 10]
    ensures SeparatorAt(CrlfCrlf, b, i) <==> i + 4 <= |b| && b[i..i + 4] == [13, 10, 13, 10]
  {
    if i + 4 <= |b| {
      assert b[i..i + 4] == [b[i], b[i + 1], b[i + 2], b[i + 3]];
    }
  }

  ghost predicate FirstBoundary(b: Bytes, r: Boundary) {
    SeparatorAt(r.separator, b, r.at) && NoSeparatorBefore(b, r.at)
  }

  function SseBoundary(b: Bytes): (r: Option<Boundary>)
    ensures r.Some? ==> r.value.at + r.value.separator.Length() <= |b|
  {
    match (Find(LfLf, b, 0), Find(CrlfCrlf, b, 0))
    case (Some(l), Some(r)) => Some(if l <= r then Boundary(l, LfLf) else Boundary(r, CrlfCrlf))
    case (Some(l), None) => Some(Boundary(l, LfLf))
    case (None, Some(r)) => Some(Boundary(r, CrlfCrlf))
    case (None, None) => None
  }

  /** The boundary found is where the first separator of either kind stands; none is found when there is none. */
  lemma {:induction false} SseBoundaryIsFirst(b: Bytes)
    ensures SseBoundary(b).Some? ==> FirstBoundary(b, SseBoundary(b).value)
    ensures SseBoundary(b).None? ==> forall k: nat :: NoSeparatorBefore(b, k)
  {
  }

  lemma {:induction false} FirstBoundaryUnique(b: Bytes, r: Boundary)
    requires FirstBoundary(b, r)
    ensures SseBoundary(b) == Some(r)
  {
  }

  /** A boundary stays the first boundary however the buffer grows, even where LF LF and CR LF CR LF mix. */
  lemma {:induction false} BoundaryStable(a: Bytes, more: Bytes)
    requires SseBoundary(a).Some?
    ensures SseBoundary(a + more) == SseBoundary(a)
  {
    SseBoundaryIsFirst(a);
    var r := SseBoundary(a).value;
    var b := a + more;
    assert SeparatorAt(r.separator, b, r.at);
    forall sep: Separator, i: nat | i < r.at
      ensures !SeparatorAt(sep, b, i)
    {
      assert !SeparatorAt(sep, a, i);
      if i + sep.Length() <= |a| {
        assert forall k :: i <= k < i + sep.Length() ==> b[k] == a[k];
      } else {
        // only CR LF CR LF reaches past `a`, and it overlaps the LF LF found at i + 1 or later
        assert b[r.at] == a[r.at] && b[r.at + 1] == a[r.at + 1];
      }
    }
    FirstBoundaryUnique(b, r);
  }

  // ---------------------------------------------------------------------
  // Splitting a buffer into blocks
  // ---------------------------------------------------------------------

  datatype Split = Split(blocks: seq<Bytes>, rest: Bytes)

  /** Takes complete blocks off the front until no boundary is left. */
  function SplitAll(b: Bytes): (s: Split)
    ensures SseBoundary(s.rest).None?
    decreases |b|
  {
    match SseBoundary(b)
    case None => Split([], b)
    case Some(r) =>
      var s := SplitAll(b[r.at + r.separator.Length()..]);
      Split([b[..r.at]] + s.blocks, s.rest)
  }

  /** Goes on from a split when more bytes arrive. */
  function SplitMore(s: Split, more: Bytes): Split {
    var t := SplitAll(s.rest + more);
    Split(s.blocks + t.blocks, t.rest)
  }

  /** Splitting what has arrived, then the rest, is splitting the whole. */
  lemma {:induction false} SplitAllAppend(a: Bytes, more: Bytes)
    ensures SplitAll(a + more) == SplitMore(SplitAll(a), more)
    decreases |a|
  {
    var found := SseBoundary(a);
    if found.Some? {
      var Boundary(at, separator) := found.value;
      var cut := at + separator.Length();
      SplitAllAppend(a[cut..], more);
      SplitStep(a, more, at, cut);
      BoundaryStable(a, more);
      var s := SplitAll(a[cut..]);
      Associative([a[..at]], s.blocks, SplitAll(s.rest + more).blocks);
    }
  }

  lemma {:induction false} Associative(a: seq<Bytes>, b: seq<Bytes>, c: seq<Bytes>)
    ensures a + (b + c) == a + b + c
  {
  }

  lemma {:induction false} SplitStep(a: Bytes, more: Bytes, at: nat, cut: nat)
    requires at <= cut <= |a|
    ensures (a + more)[..at] == a[..at] && (a + more)[cut..] == a[cut..] + more
  {
  }

  function Concat(chunks: seq<Bytes>): Bytes {
    if chunks == [] then [] else chunks[0] + Concat(chunks[1..])
  }

  // ---------------------------------------------------------------------
  // Parsing one block
  // ---------------------------------------------------------------------

  /** The position of the first `x`, or the length. */
  function IndexOf(b: Bytes, x: Byte): (k: nat)
    ensures k <= |b| && (k < |b| ==> b[k] == x)
    ensures forall i :: 0 <= i < k ==> b[i] != x
  {
    if b == [] || b[0] == x then 0 else 1 + IndexOf(b[1..], x)
  }

  function StripCr(line: Bytes): Bytes {
    if line != [] && line[|line| - 1] == CR then line[..|line| - 1] else line
  }

  /** Lines end at LF; a CR before that LF is dropped, a CR at the end of the block is kept. */
  function Lines(block: Bytes): seq<Bytes>
    decreases |block|
  {
    var k := IndexOf(block, LF);
    if block == [] then []
    else if k == |block| then [block]
    else [StripCr(block[..k])] + Lines(block[k + 1..])
  }

  /** A line runs to LF, less one CR before it; what follows the last LF is a line when it is not empty. */
  lemma {:induction false} LinesAre(line: Bytes, rest: Bytes)
    requires 10 !in line
    ensures Lines(line) == if line == [] then [] else [line]
    ensures Lines(line + [10] + rest) ==
      [if line != [] && line[|line| - 1] == 13 then line[..|line| - 1] else line] + Lines(rest)
  {
    var block := line + [10] + rest;
    assert IndexOf(line, LF) == |line|;
    assert block[|line|] == 10 && forall i :: 0 <= i < |line| ==> block[i] == line[i] && line[i] in line;
    assert IndexOf(block, LF) == |line|;
    assert block[..|line|] == line && block[|line| + 1..] == rest;
  }

  datatype Field = Field(name: Bytes, value: Bytes)

  function ParseField(line: Bytes): Option<Field> {
    var k := IndexOf(line, COLON);
    if k == |line| then None
    else
      var value := line[k + 1..];
      Some(Field(line[..k], if value != [] && value[0] == SPACE then value[1..] else value))
  }

  lemma {:induction false} AroundColon(line: Bytes, k: nat)
    requires k < |line| && line[k] == 58
    ensures line == line[..k] + [58] + line[k + 1..]
  {
  }

  /** The field of a line spells the line. */
  lemma {:induction false} FieldSpells(line: Bytes)
    requires ParseField(line).Some?
    ensures var Field(name, value) := ParseField(line).value;
      && 58 !in name
      && (line == name + [58, 32] + value || (line == name + [58] + value && (value == [] || value[0] != 32)))
  {
    var k := IndexOf(line, COLON);
    var after := line[k + 1..];
    AroundColon(line, k);
    if after != [] && after[0] == 32 {
      assert after == [32] + after[1..];
      assert line[..k] + [58] + ([32] + after[1..]) == line[..k] + [58, 32] + after[1..];
    }
  }

  lemma {:induction false} SpelledField(name: Bytes, value: Bytes)
    requires 58 !in name
    ensures ParseField(name + [58, 32] + value) == Some(Field(name, value))
    ensures value == [] || value[0] != 32 ==> ParseField(name + [58] + value) == Some(Field(name, value))
  {
    ColonAt(name, [32] + value);
    assert name + [58, 32] + value == name + [58] + ([32] + value);
    ColonAt(name, value);
  }

  /** A line is a field exactly when it spells one: a name without a colon, a colon, one space or none, the value. */
  lemma {:induction false} FieldIff(line: Bytes, name: Bytes, value: Bytes)
    ensures ParseField(line) == Some(Field(name, value)) <==>
      && 58 !in name
      && (line == name + [58, 32] + value || (line == name + [58] + value && (value == [] || value[0] != 32)))
  {
    if ParseField(line) == Some(Field(name, value)) {
      FieldSpells(line);
    }
    if 58 !in name {
      SpelledField(name, value);
    }
  }

  lemma {:induction false} ColonAt(name: Bytes, after: Bytes)
    requires 58 !in name
    ensures var line := name + [58] + after;
      IndexOf(line, COLON) == |name| && line[..|name|] == name && line[|name| + 1..] == after
  {
    var line := name + [58] + after;
    assert line[|name|] == 58;
    assert forall i :: 0 <= i < |name| ==> line[i] == name[i] && name[i] in name;
  }

  datatype ParsedEvent = ParsedEvent(kind: Option<Bytes>, data: Option<Bytes>)

  /** The values of the fields called `name`, in order. */
  function Values(name: Bytes, lines: seq<Bytes>): seq<Bytes> {
    if lines == [] then []
    else
      var f := ParseField(lines[0]);
      (if f.Some? && f.value.name == name then [f.value.value] else []) + Values(name, lines[1..])
  }

  function Join(parts: seq<Bytes>, eol: Bytes): Bytes
    requires parts != []
  {
    if |parts| == 1 then parts[0] else parts[0] + eol + Join(parts[1..], eol)
  }

  function LastOf(values: seq<Bytes>): Option<Bytes> {
    if values == [] then None else Some(values[|values| - 1])
  }

  function JoinOf(values: seq<Bytes>): Option<Bytes> {
    if values == [] then None else Some(Join(values, [LF]))
  }

  /** The kind is the last event field; the data is all data fields joined by LF. */
  function EventOf(lines: seq<Bytes>): ParsedEvent {
    ParsedEvent(LastOf(Values(EVENT, lines)), JoinOf(Values(DATA, lines)))
  }

  function ParseBlock(block: Bytes): ParsedEvent {
    EventOf(Lines(block))
  }

  lemma {:induction false} ValuesAppend(name: Bytes, lines: seq<Bytes>, line: Bytes)
    ensures Values(name, lines + [line]) == Values(name, lines) + Values(name, [line])
  {
    if lines != [] {
      assert (lines + [line])[1..] == lines[1..] + [line];
      ValuesAppend(name, lines[1..], line);
    }
  }

  lemma {:induction false} JoinAppend(parts: seq<Bytes>, part: Bytes, eol: Bytes)
    requires parts != []
    ensures Join(parts + [part], eol) == Join(parts, eol) + eol + part
  {
    if |parts| == 1 {
      assert (parts + [part])[1..] == [part];
    } else {
      assert (parts + [part])[1..] == parts[1..] + [part];
      JoinAppend(parts[1..], part, eol);
    }
  }

  function AddField(event: ParsedEvent, field: Option<Field>): ParsedEvent {
    match field
    case Some(Field(name, value)) =>
      if name == EVENT then event.(kind := Some(value))
      else if name == DATA then
        event.(data := Some(if event.data.Some? then event.data.value + [LF] + value else value))
      else event
    case None => event
  }

  lemma {:induction false} EventOfAppend(lines: seq<Bytes>, line: Bytes)
    ensures EventOf(lines + [line]) == AddField(EventOf(lines), ParseField(line))
  {
    ValuesAppend(EVENT, lines, line);
    ValuesAppend(DATA, lines, line);
    var datas, field := Values(DATA, lines), ParseField(line);
    assert EVENT != DATA;
    assert datas + [] == datas && Values(EVENT, lines) + [] == Values(EVENT, lines);
    if field.Some? && field.value.name == DATA {
      assert Values(DATA, [line]) == [field.value.value];
      if datas == [] {
        assert datas + [field.value.value] == [field.value.value];
      } else {
        JoinAppend(datas, field.value.value, [LF]);
      }
    }
  }

  /** Fills the event field by field, as the reader does. */
  method ParseSseBlock(block: Bytes) returns (event: ParsedEvent)
    ensures event == ParseBlock(block)
  {
    var lines := Lines(block);
    event := ParsedEvent(None, None);
    for i := 0 to |lines|
      invariant event == EventOf(lines[..i])
    {
      assert lines[..i + 1] == lines[..i] + [lines[i]];
      EventOfAppend(lines[..i], lines[i]);
      var field := ParseField(lines[i]);
      if field.None? {
        continue;
      }
      var Field(name, value) := field.value;
      if name == EVENT {
        event := event.(kind := Some(value));
      } else if name == DATA {
        match event.data {
          case Some(data) => event := event.(data := Some(data + [LF] + value));
          case None => event := event.(data := Some(value));
        }
      }
    }
    assert lines[..|lines|] == lines;
  }

  // ---------------------------------------------------------------------
  // Events as a server writes them
  // ---------------------------------------------------------------------

  predicate Clean(line: Bytes) {
    CR !in line && LF !in line
  }

  predicate AllClean(lines: seq<Bytes>) {
    forall i :: 0 <= i < |lines| ==> lines[i] != [] && Clean(lines[i])
  }

  function FieldLine(name: Bytes, value: Bytes): Bytes {
    name + [COLON, SPACE] + value
  }

  function DataLines(data: seq<Bytes>): (lines: seq<Bytes>)
    ensures |lines| == |data|
    ensures forall i :: 0 <= i < |data| ==> lines[i] == FieldLine(DATA, data[i])
  {
    seq(|data|, i requires 0 <= i < |data| => FieldLine(DATA, data[i]))
  }

  /** One event: its kind and its data lines, in either line-ending style. */
  function Rendered(sep: Separator, kind: Bytes, data: seq<Bytes>): Bytes {
    Join([FieldLine(EVENT, kind)] + DataLines(data), sep.Eol())
  }

  lemma {:induction false} LineThenRest(sep: Separator, line: Bytes, rest: Bytes)
    requires Clean(line)
    ensures Lines(line + sep.Eol() + rest) == [line] + Lines(rest)
  {
    match sep
    case LfLf => LinesAre(line, rest);
    case CrlfCrlf =>
      LinesAre(line + [13], rest);
      assert line + [13, 10] + rest == line + [13] + [10] + rest;
      assert (line + [13])[..|line|] == line;
  }

  lemma {:induction false} LinesOfJoin(sep: Separator, lines: seq<Bytes>)
    requires lines != [] && AllClean(lines)
    ensures Lines(Join(lines, sep.Eol())) == lines
    decreases |lines|
  {
    var line := lines[0];
    if |lines| == 1 {
      LinesAre(line, []);
      assert lines == [line];
    } else {
      LineThenRest(sep, line, Join(lines[1..], sep.Eol()));
      LinesOfJoin(sep, lines[1..]);
      assert lines == [line] + lines[1..];
    }
  }

  /** Separators of the tail are those of the whole, shifted. */
  lemma {:induction false} SeparatorShift(sep: Separator, front: Bytes, rest: Bytes, i: nat)
    ensures SeparatorAt(sep, front + rest, |front| + i) == SeparatorAt(sep, rest, i)
  {
  }

  /** No separator starts in a clean line or in the line ending before another clean line. */
  lemma {:induction false} NoSeparatorInLine(sep: Separator, line: Bytes, rest: Bytes)
    requires Clean(line) && rest != [] && rest[0] != LF && rest[0] != CR
    ensures NoSeparatorBefore(line + sep.Eol() + rest, |line| + |sep.Eol()|)
  {
  }

  lemma {:induction false} LastLineEnds(sep: Separator, line: Bytes, more: Bytes)
    requires Clean(line)
    ensures FirstBoundary(line + sep.Bytes() + more, Boundary(|line|, sep))
  {
  }

  /** No event ends inside a run of clean lines: the first boundary is the separator after them. */
  lemma {:induction false} JoinEndsAtSeparator(sep: Separator, lines: seq<Bytes>, more: Bytes)
    requires lines != [] && AllClean(lines)
    ensures FirstBoundary(Join(lines, sep.Eol()) + sep.Bytes() + more, Boundary(|Join(lines, sep.Eol())|, sep))
    decreases |lines|
  {
    if |lines| == 1 {
      LastLineEnds(sep, lines[0], more);
    } else {
      var tail := Join(lines[1..], sep.Eol());
      var rest := tail + sep.Bytes() + more;
      assert rest[0] == lines[1][0] && rest[0] in lines[1];
      JoinEndsAtSeparator(sep, lines[1..], more);
      NoSeparatorInLine(sep, lines[0], rest);
      EndsAfterFirstLine(sep, lines[0], rest, |tail|);
      assert Join(lines, sep.Eol()) + sep.Bytes() + more == lines[0] + sep.Eol() + rest;
    }
  }

  lemma {:induction false} EndsAfterFirstLine(sep: Separator, line: Bytes, rest: Bytes, at: nat)
    requires FirstBoundary(rest, Boundary(at, sep))
    requires NoSeparatorBefore(line + sep.Eol() + rest, |line| + |sep.Eol()|)
    ensures FirstBoundary(line + sep.Eol() + rest, Boundary(|line| + |sep.Eol()| + at, sep))
  {
    var front := line + sep.Eol();
    SeparatorShift(sep, front, rest, at);
    forall s: Separator, i: nat | i < |front| + at
      ensures !SeparatorAt(s, front + rest, i)
    {
      if i >= |front| {
        SeparatorShift(s, front, rest, i - |front|);
      }
    }
  }

  lemma {:induction false} ParseFieldLine(name: Bytes, value: Bytes)
    requires COLON !in name
    ensures ParseField(FieldLine(name, value)) == Some(Field(name, value))
  {
    var line := FieldLine(name, value);
    assert forall i :: 0 <= i < |name| ==> line[i] == name[i] && name[i] in name;
    assert line[|name|] == COLON;
    assert IndexOf(line, COLON) == |name|;
    assert line[|name| + 1..] == [SPACE] + value;
    assert line[..|name|] == name;
  }

  lemma {:induction false} ValuesOfDataLines(data: seq<Bytes>)
    ensures Values(DATA, DataLines(data)) == data
    ensures Values(EVENT, DataLines(data)) == []
    decreases |data|
  {
    if data != [] {
      assert DataLines(data)[1..] == DataLines(data[1..]);
      ParseFieldLine(DATA, data[0]);
      ValuesOfDataLines(data[1..]);
    }
  }

  lemma {:induction false} RenderedLinesClean(kind: Bytes, data: seq<Bytes>)
    requires Clean(kind) && forall i :: 0 <= i < |data| ==> Clean(data[i])
    ensures AllClean([FieldLine(EVENT, kind)] + DataLines(data))
  {
  }

  lemma {:induction false} EventOfRendered(kind: Bytes, data: seq<Bytes>)
    requires data != []
    ensures EventOf([FieldLine(EVENT, kind)] + DataLines(data)) == ParsedEvent(Some(kind), Some(Join(data, [LF])))
  {
    var lines := [FieldLine(EVENT, kind)] + DataLines(data);
    assert lines[0] == FieldLine(EVENT, kind) && lines[1..] == DataLines(data);
    assert EVENT != DATA;
    ParseFieldLine(EVENT, kind);
    ValuesOfDataLines(data);
    assert Values(EVENT, lines) == [kind] + [] == [kind];
    assert Values(DATA, lines) == [] + data == data;
  }

  /** Reading back what a server wrote gives the kind and the joined data lines. */
  lemma {:induction false} ParseRendered(sep: Separator, kind: Bytes, data: seq<Bytes>)
    requires Clean(kind) && data != [] && forall i :: 0 <= i < |data| ==> Clean(data[i])
    ensures ParseBlock(Rendered(sep, kind, data)) == ParsedEvent(Some(kind), Some(Join(data, [LF])))
  {
    RenderedLinesClean(kind, data);
    LinesOfJoin(sep, [FieldLine(EVENT, kind)] + DataLines(data));
    EventOfRendered(kind, data);
  }
}
