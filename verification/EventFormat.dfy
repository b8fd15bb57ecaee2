/**
 The stream format itself: how sections 9.2.5 and 9.2.6 of the WHATWG HTML
 standard read the lines of one event, and exactly which events the client
 reads in the same way.
 */
module EventFormat {
  import opened Wrappers
  import opened Ordering
  import opened SseSplitter
  import opened EventConnection
  import opened ServerWire

  /** A line without a colon is a field with an empty value; a comment has the empty name. */
  function FormatField(line: Bytes): Field {
    var field := ParseField(line);
    if field.Some? then field.value else Field(line, [])
  }

  /** The event type buffer and the data buffer. */
  datatype Buffers = Buffers(kind: Bytes, data: Bytes)

  function Fill(b: Buffers, line: Bytes): Buffers {
    var Field(name, value) := FormatField(line);
    if name == EVENT then b.(kind := value)
    else if name == DATA then b.(data := b.data + value + [LF])
    else b
  }

  function FillAll(lines: seq<Bytes>): Buffers {
    if lines == [] then Buffers([], [])
    else Fill(FillAll(lines[..|lines| - 1]), lines[|lines| - 1])
  }

  datatype Event = Event(kind: Bytes, data: Bytes)

  /** No data, no event; no type, a message; the last line feed of the data is dropped. */
  function Dispatched(lines: seq<Bytes>): Option<Event> {
    var Buffers(kind, data) := FillAll(lines);
    if data == [] then None
    else Some(Event(if kind == [] then MESSAGE else kind, data[..|data| - 1]))
  }

  /** What the client would do if it read events as the format does. */
  function FormatEffect(codec: Codec, lines: seq<Bytes>): Effect {
    match Dispatched(lines)
    case Some(Event(kind, data)) => EventEffect(codec, ParsedEvent(Some(kind), Some(data)))
    case None => Nothing
  }

  // ---------------------------------------------------------------------
  // Events read as the format reads them
  // ---------------------------------------------------------------------

  /**
   Without data, the event must not be one that the client acts on all the
   same. With data, an event that is a message by the format must be called
   one, and have no data line without a colon.
   */
  ghost predicate ReadAlike(lines: seq<Bytes>) {
    match Dispatched(lines)
    case None => EventOf(lines).kind != Some(RESYNC) && EventOf(lines).kind != Some(AUTHORIZATION)
    case Some(event) =>
      event.kind == MESSAGE ==> EventOf(lines).kind == Some(MESSAGE) && DATA !in lines
  }

  function BareCount(lines: seq<Bytes>): nat {
    if lines == [] then 0
    else BareCount(lines[..|lines| - 1]) + if lines[|lines| - 1] == DATA then 1 else 0
  }

  function Buffered(data: Option<Bytes>): Bytes {
    if data.Some? then data.value + [LF] else []
  }

  lemma {:induction false} NoColonNames()
    ensures ParseField(DATA).None? && ParseField(EVENT).None? && DATA != EVENT
  {
    assert forall i :: 0 <= i < |DATA| ==> DATA[i] != COLON;
    assert forall i :: 0 <= i < |EVENT| ==> EVENT[i] != COLON;
  }

  /** What the format has read, what the client has read, and the number of data lines without a colon. */
  ghost predicate Keeps(b: Buffers, event: ParsedEvent, bare: nat) {
    && (b.kind == [] || event.kind == Some(b.kind))
    && |b.data| == |Buffered(event.data)| + bare
    && (bare == 0 ==> b.data == Buffered(event.data))
  }

  lemma {:induction false} KeepsField(b: Buffers, event: ParsedEvent, bare: nat, line: Bytes)
    requires Keeps(b, event, bare) && ParseField(line).Some?
    ensures line != DATA
    ensures Keeps(Fill(b, line), AddField(event, ParseField(line)), bare)
  {
    NoColonNames();
    var Field(name, value) := ParseField(line).value;
    if name == DATA {
      if event.data.None? {
        assert [] + value + [LF] == value + [LF];
      }
      assert |b.data + value + [LF]| == |b.data| + |value| + 1;
    }
  }

  lemma {:induction false} KeepsOther(b: Buffers, event: ParsedEvent, bare: nat, line: Bytes)
    requires Keeps(b, event, bare) && ParseField(line).None?
    ensures Keeps(Fill(b, line), event, bare + if line == DATA then 1 else 0)
  {
    NoColonNames();
    assert |b.data + [] + [LF]| == |b.data| + 1;
  }

  /** The format keeps what the client keeps, and what lines without a colon add. */
  lemma {:induction false} BuffersOf(lines: seq<Bytes>)
    ensures Keeps(FillAll(lines), EventOf(lines), BareCount(lines))
    ensures BareCount(lines) > 0 <==> DATA in lines
    decreases |lines|
  {
    if lines != [] {
      var front, line := lines[..|lines| - 1], lines[|lines| - 1];
      assert lines == front + [line];
      BuffersOf(front);
      EventOfAppend(front, line);
      if ParseField(line).Some? {
        KeepsField(FillAll(front), EventOf(front), BareCount(front), line);
      } else {
        KeepsOther(FillAll(front), EventOf(front), BareCount(front), line);
      }
    }
  }

  /** The client reads these lines as the format does, whatever the decoder, exactly under that condition. */
  lemma {:induction false} ReadAlikeIff(lines: seq<Bytes>)
    ensures (forall codec: Codec :: EventEffect(codec, EventOf(lines)) == FormatEffect(codec, lines))
        <==> ReadAlike(lines)
  {
    BuffersOf(lines);
    KindsDiffer();
    if ReadAlike(lines) {
      forall codec: Codec
        ensures EventEffect(codec, EventOf(lines)) == FormatEffect(codec, lines)
      {
        AlikeReadsAlike(codec, lines);
      }
    } else {
      var codec := Witness(lines);
      UnlikeDiffers(lines);
      assert EventEffect(codec, EventOf(lines)) != FormatEffect(codec, lines);
    }
  }

  lemma {:induction false} KindsDiffer()
    ensures MESSAGE != RESYNC && MESSAGE != AUTHORIZATION && RESYNC != AUTHORIZATION && MESSAGE != []
  {
  }

  lemma {:induction false} AlikeReadsAlike(codec: Codec, lines: seq<Bytes>)
    requires ReadAlike(lines)
    ensures EventEffect(codec, EventOf(lines)) == FormatEffect(codec, lines)
  {
    BuffersOf(lines);
    KindsDiffer();
  }

  /** A decoder that knows the data by the format, and no other. */
  function Witness(lines: seq<Bytes>): Codec {
    var event := Dispatched(lines);
    Codec(_ => true, data => if event.Some? && data == event.value.data then Some(Message(0, [])) else None)
  }

  lemma {:induction false} UnlikeDiffers(lines: seq<Bytes>)
    requires !ReadAlike(lines)
    ensures EventEffect(Witness(lines), EventOf(lines)) != FormatEffect(Witness(lines), lines)
  {
    BuffersOf(lines);
    KindsDiffer();
  }

  /** So a written event is read from its bytes as the format reads its lines exactly under that condition. */
  lemma {:induction false} WrittenReadAlikeIff(w: Written)
    requires w.lines != [] && AllClean(w.lines)
    ensures
      (forall codec: Codec | codec.validUtf8(Block(w)) :: ReadBlock(codec, Block(w)) == FormatEffect(codec, w.lines))
        <==> ReadAlike(w.lines)
  {
    ReadAlikeIff(w.lines);
    forall codec: Codec | codec.validUtf8(Block(w))
      ensures ReadBlock(codec, Block(w)) == EventEffect(codec, EventOf(w.lines))
    {
      WrittenIsRead(codec, w, []);
    }
    if !ReadAlike(w.lines) {
      UnlikeDiffers(w.lines);
      assert Witness(w.lines).validUtf8(Block(w));
    }
  }

  // ---------------------------------------------------------------------
  // Events read otherwise
  // ---------------------------------------------------------------------

  lemma {:induction false} ReadMore(lines: seq<Bytes>, line: Bytes)
    ensures FillAll(lines + [line]) == Fill(FillAll(lines), line)
    ensures EventOf(lines + [line]) == AddField(EventOf(lines), ParseField(line))
  {
    assert (lines + [line])[..|lines|] == lines;
    EventOfAppend(lines, line);
  }

  lemma {:induction false} DataOnly(data: Bytes)
    ensures FillAll([FieldLine(DATA, data)]) == Buffers([], data + [LF])
    ensures EventOf([FieldLine(DATA, data)]).kind == None
  {
    NoColonNames();
    ParseFieldLine(DATA, data);
    ReadMore([], FieldLine(DATA, data));
    assert [] + [FieldLine(DATA, data)] == [FieldLine(DATA, data)];
    assert [] + data + [LF] == data + [LF];
  }

  /** An event without a type is a message; the client drops it. */
  lemma {:induction false} UntypedDropped(codec: Codec, data: Bytes)
    ensures Dispatched([FieldLine(DATA, data)]) == Some(Event(MESSAGE, data))
    ensures EventEffect(codec, EventOf([FieldLine(DATA, data)])) == Nothing
  {
    DataOnly(data);
    assert (data + [LF])[..|data|] == data;
  }

  lemma {:induction false} TypedData(kind: Bytes, data: Bytes)
    ensures FillAll([FieldLine(EVENT, kind), FieldLine(DATA, data)]) == Buffers(kind, data + [LF])
  {
    var a, b := FieldLine(EVENT, kind), FieldLine(DATA, data);
    NoColonNames();
    ParseFieldLine(EVENT, kind);
    ParseFieldLine(DATA, data);
    ReadMore([], a);
    ReadMore([a], b);
    assert [] + [a] == [a] && [a] + [b] == [a, b];
    assert [] + data + [LF] == data + [LF];
  }

  /** A data line without a colon is an empty line of data; the client ignores it. */
  lemma {:induction false} BareDataIgnored(data: Bytes)
    ensures var lines := [FieldLine(EVENT, MESSAGE), FieldLine(DATA, data), DATA];
      Dispatched(lines) == Some(Event(MESSAGE, data + [LF])) && EventOf(lines) == ParsedEvent(Some(MESSAGE), Some(data))
  {
    var two := [FieldLine(EVENT, MESSAGE), FieldLine(DATA, data)];
    NoColonNames();
    TypedData(MESSAGE, data);
    EventOfRendered(MESSAGE, [data]);
    assert two == [FieldLine(EVENT, MESSAGE)] + DataLines([data]);
    ReadMore(two, DATA);
    assert two + [DATA] == [FieldLine(EVENT, MESSAGE), FieldLine(DATA, data), DATA];
    BareLast(data);
  }

  lemma {:induction false} BareLast(data: Bytes)
    ensures Fill(Buffers(MESSAGE, data + [LF]), DATA).data == data + [LF] + [LF]
    ensures (data + [LF] + [LF])[..|data| + 1] == data + [LF]
  {
    NoColonNames();
    assert data + [LF] + [] == data + [LF];
  }
}
