/**
 One connection of the conversation stream: bytes arrive in arbitrary chunks,
 complete event blocks are handled, messages above the cursor pass.
 JSON decoding and UTF-8 validation are parameters.
 */
module EventConnection {
  import opened Wrappers
  import opened Ordering
  import opened Characters
  import opened SseSplitter

  const I64_MAX: int := 0x7FFF_FFFF_FFFF_FFFF
  type I64 = x: int | -0x8000_0000_0000_0000 <= x <= 0x7FFF_FFFF_FFFF_FFFF

  const MAX_SSE_EVENT_BYTES: nat := 262144

  const MESSAGE: Bytes := Ascii("message")
  const RESYNC: Bytes := Ascii("resync_required")
  const AUTHORIZATION: Bytes := Ascii("authorization_required")

  datatype Message = Message(sequence: I64, record: Bytes)

  /** The two library decoders. */
  datatype Codec = Codec(validUtf8: Bytes -> bool, decode: Bytes -> Option<Message>)

  datatype StreamError =
    | NegativeCursor
    | AuthorizationRequired
    | HttpStatus(code: nat)
    | EventTooLarge
    | BadUtf8
    | BadMessage
    | PageFailed
    | IncoherentPage

  // ---------------------------------------------------------------------
  // One connection
  // ---------------------------------------------------------------------

  datatype Stop = Open | Resync | Failed(error: StreamError)

  datatype Conn = Conn(cursor: I64, yielded: seq<Message>, stop: Stop)

  function Offer(c: Conn, m: Message): Conn {
    if m.sequence > c.cursor then c.(cursor := m.sequence, yielded := c.yielded + [m]) else c
  }

  /** What one event block does to a connection. */
  datatype Effect = Nothing | Carries(message: Message) | AsksResync | Breaks(error: StreamError)

  type Reader = Bytes -> Effect

  function EventEffect(codec: Codec, event: ParsedEvent): Effect {
    if event.kind == Some(MESSAGE) then
      if event.data.None? then Nothing
      else
        match codec.decode(event.data.value)
        case Some(m) => Carries(m)
        case None => Breaks(BadMessage)
    else if event.kind == Some(RESYNC) then AsksResync
    else if event.kind == Some(AUTHORIZATION) then Breaks(AuthorizationRequired)
    else Nothing
  }

  function ReadBlock(codec: Codec, block: Bytes): Effect {
    if codec.validUtf8(block) then EventEffect(codec, ParseBlock(block)) else Breaks(BadUtf8)
  }

  function SseReader(codec: Codec): Reader {
    block => ReadBlock(codec, block)
  }

  function HandleBlock(read: Reader, c: Conn, block: Bytes): Conn {
    match read(block)
    case Nothing => c
    case Carries(m) => Offer(c, m)
    case AsksResync => c.(stop := Resync)
    case Breaks(error) => c.(stop := Failed(error))
  }

  function HandleBlocks(read: Reader, c: Conn, blocks: seq<Bytes>): Conn
    decreases |blocks|
  {
    if blocks == [] || !c.stop.Open? then c
    else HandleBlocks(read, HandleBlock(read, c, blocks[0]), blocks[1..])
  }

  /** A connection in progress and the bytes that do not yet end in a boundary. */
  datatype Reading = Reading(conn: Conn, buffer: Bytes)

  function FeedChunk(read: Reader, r: Reading, chunk: Bytes): Reading {
    if |r.buffer| + |chunk| > MAX_SSE_EVENT_BYTES then r.(conn := r.conn.(stop := Failed(EventTooLarge)))
    else
      var s := SplitAll(r.buffer + chunk);
      Reading(HandleBlocks(read, r.conn, s.blocks), s.rest)
  }

  function FeedChunks(read: Reader, r: Reading, chunks: seq<Bytes>): Reading
    decreases |chunks|
  {
    if chunks == [] || !r.conn.stop.Open? then r
    else FeedChunks(read, FeedChunk(read, r, chunks[0]), chunks[1..])
  }

  lemma {:induction false} HandleBlocksAppend(read: Reader, c: Conn, xs: seq<Bytes>, ys: seq<Bytes>)
    ensures HandleBlocks(read, c, xs + ys) == HandleBlocks(read, HandleBlocks(read, c, xs), ys)
    decreases |xs|
  {
    if xs == [] {
      assert xs + ys == ys;
    } else if c.stop.Open? {
      assert (xs + ys)[0] == xs[0] && (xs + ys)[1..] == xs[1..] + ys;
      HandleBlocksAppend(read, HandleBlock(read, c, xs[0]), xs[1..], ys);
    }
  }

  /** The size check never fires while these chunks arrive. */
  predicate Fits(buffer: Bytes, chunks: seq<Bytes>)
    decreases |chunks|
  {
    chunks == [] ||
    (|buffer| + |chunks[0]| <= MAX_SSE_EVENT_BYTES && Fits(SplitAll(buffer + chunks[0]).rest, chunks[1..]))
  }

  /** What a buffer and the chunks after it split into. */
  function Whole(buffer: Bytes, chunks: seq<Bytes>): Split {
    SplitAll(buffer + Concat(chunks))
  }

  lemma {:induction false} WholeStep(buffer: Bytes, chunks: seq<Bytes>)
    requires chunks != []
    ensures var first := SplitAll(buffer + chunks[0]);
      var later := Whole(first.rest, chunks[1..]);
      Whole(buffer, chunks) == Split(first.blocks + later.blocks, later.rest)
  {
    assert buffer + Concat(chunks) == buffer + chunks[0] + Concat(chunks[1..]);
    SplitAllAppend(buffer + chunks[0], Concat(chunks[1..]));
  }

  lemma {:induction false} WholeEmpty(buffer: Bytes)
    requires SseBoundary(buffer).None?
    ensures Whole(buffer, []) == Split([], buffer)
  {
    assert buffer + Concat([]) == buffer;
  }

  lemma {:induction false} WholeOf(chunks: seq<Bytes>)
    ensures Whole([], chunks) == SplitAll(Concat(chunks))
  {
    assert [] + Concat(chunks) == Concat(chunks);
  }

  lemma {:induction false} ChunksFrom(read: Reader, c: Conn, buffer: Bytes, chunks: seq<Bytes>)
    requires SseBoundary(buffer).None? && Fits(buffer, chunks)
    ensures FeedChunks(read, Reading(c, buffer), chunks).conn == HandleBlocks(read, c, Whole(buffer, chunks).blocks)
    ensures FeedChunks(read, Reading(c, buffer), chunks).conn.stop.Open? ==>
      FeedChunks(read, Reading(c, buffer), chunks).buffer == Whole(buffer, chunks).rest
    decreases |chunks|
  {
    if chunks == [] {
      WholeEmpty(buffer);
    } else if c.stop.Open? {
      WholeStep(buffer, chunks);
      var first := SplitAll(buffer + chunks[0]);
      HandleBlocksAppend(read, c, first.blocks, Whole(first.rest, chunks[1..]).blocks);
      ChunksFrom(read, HandleBlocks(read, c, first.blocks), first.rest, chunks[1..]);
    }
  }

  /**
   Chunk independence: while the size check does not fire, what the reader
   has done depends on the concatenated bytes only.
   */
  lemma {:induction false} ChunksDoNotMatter(read: Reader, c: Conn, chunks: seq<Bytes>)
    requires Fits([], chunks)
    ensures var s := SplitAll(Concat(chunks));
      var r := FeedChunks(read, Reading(c, []), chunks);
      && r.conn == HandleBlocks(read, c, s.blocks)
      && (r.conn.stop.Open? ==> r.buffer == s.rest)
  {
    ChunksFrom(read, c, [], chunks);
    WholeOf(chunks);
  }

  /** Two ways to cut the same bytes give the same messages, the same end and the same leftover. */
  lemma {:induction false} RechunkingAgrees(read: Reader, c: Conn, xs: seq<Bytes>, ys: seq<Bytes>)
    requires Concat(xs) == Concat(ys) && Fits([], xs) && Fits([], ys)
    ensures var r, r' := FeedChunks(read, Reading(c, []), xs), FeedChunks(read, Reading(c, []), ys);
      r.conn == r'.conn && (r.conn.stop.Open? ==> r.buffer == r'.buffer)
  {
    ChunksDoNotMatter(read, c, xs);
    ChunksDoNotMatter(read, c, ys);
  }

  lemma {:induction false} FitsFrom(buffer: Bytes, chunks: seq<Bytes>)
    requires SseBoundary(buffer).None?
    ensures Fits(buffer, chunks) <==> forall k :: 0 <= k < |chunks| ==>
      |Whole(buffer, chunks[..k]).rest| + |chunks[k]| <= MAX_SSE_EVENT_BYTES
    decreases |chunks|
  {
    if chunks != [] {
      var next := SplitAll(buffer + chunks[0]).rest;
      WholeEmpty(buffer);
      assert chunks[..0] == [];
      FitsFrom(next, chunks[1..]);
      forall k | 0 <= k < |chunks| - 1
        ensures Whole(buffer, chunks[..k + 1]).rest == Whole(next, chunks[1..][..k]).rest
        ensures chunks[k + 1] == chunks[1..][k]
      {
        assert chunks[..k + 1][1..] == chunks[1..][..k];
        WholeStep(buffer, chunks[..k + 1]);
      }
      FitsShift(buffer, next, chunks);
    }
  }

  lemma {:induction false} FitsShift(buffer: Bytes, next: Bytes, chunks: seq<Bytes>)
    requires chunks != [] && |Whole(buffer, chunks[..0]).rest| == |buffer|
    requires forall k :: 0 <= k < |chunks| - 1 ==>
      Whole(buffer, chunks[..k + 1]).rest == Whole(next, chunks[1..][..k]).rest
    ensures (forall k :: 0 <= k < |chunks| ==>
        |Whole(buffer, chunks[..k]).rest| + |chunks[k]| <= MAX_SSE_EVENT_BYTES)
      <==> (|buffer| + |chunks[0]| <= MAX_SSE_EVENT_BYTES && forall k :: 0 <= k < |chunks[1..]| ==>
        |Whole(next, chunks[1..][..k]).rest| + |chunks[1..][k]| <= MAX_SSE_EVENT_BYTES)
  {
    forall k | 0 <= k < |chunks| - 1
      ensures |Whole(buffer, chunks[..k + 1]).rest| + |chunks[k + 1]|
           == |Whole(next, chunks[1..][..k]).rest| + |chunks[1..][k]|
    {
    }
    forall k | 0 < k < |chunks|
      ensures |Whole(buffer, chunks[..k]).rest| + |chunks[k]|
           == |Whole(next, chunks[1..][..k - 1]).rest| + |chunks[1..][k - 1]|
    {
      assert k == (k - 1) + 1;
    }
  }

  /** Exactly when the size check fires: when a leftover and the chunk after it are too long together. */
  lemma {:induction false} FitsExactly(chunks: seq<Bytes>)
    ensures Fits([], chunks) <==> forall k :: 0 <= k < |chunks| ==>
      |SplitAll(Concat(chunks[..k])).rest| + |chunks[k]| <= MAX_SSE_EVENT_BYTES
  {
    FitsFrom([], chunks);
    forall k | 0 <= k < |chunks|
      ensures Whole([], chunks[..k]) == SplitAll(Concat(chunks[..k]))
    {
      WholeOf(chunks[..k]);
    }
  }

  // ---------------------------------------------------------------------
  // The messages in a connection, whatever the cursor
  // ---------------------------------------------------------------------

  /** The messages of the blocks up to the first one that ends the connection. */
  function MessagesIn(read: Reader, blocks: seq<Bytes>): seq<Message>
    decreases |blocks|
  {
    if blocks == [] then []
    else
      match read(blocks[0])
      case Nothing => MessagesIn(read, blocks[1..])
      case Carries(m) => [m] + MessagesIn(read, blocks[1..])
      case AsksResync => []
      case Breaks(_) => []
  }

  /** Messages above the cursor pass and raise it; the others are dropped. */
  function Deliver(c: Conn, ms: seq<Message>): Conn
    decreases |ms|
  {
    if ms == [] then c else Deliver(Offer(c, ms[0]), ms[1..])
  }

  lemma {:induction false} DeliverAppend(c: Conn, xs: seq<Message>, ys: seq<Message>)
    ensures Deliver(c, xs + ys) == Deliver(Deliver(c, xs), ys)
    decreases |xs|
  {
    if xs == [] {
      assert xs + ys == ys;
    } else {
      assert (xs + ys)[0] == xs[0] && (xs + ys)[1..] == xs[1..] + ys;
      DeliverAppend(Offer(c, xs[0]), xs[1..], ys);
    }
  }

  lemma {:induction false} BlocksDeliver(read: Reader, c: Conn, blocks: seq<Bytes>)
    requires c.stop.Open?
    ensures HandleBlocks(read, c, blocks).(stop := Open) == Deliver(c, MessagesIn(read, blocks))
    decreases |blocks|
  {
    if blocks != [] {
      match read(blocks[0])
      case Nothing => BlocksDeliver(read, c, blocks[1..]);
      case Carries(m) =>
        BlocksDeliver(read, Offer(c, m), blocks[1..]);
        assert MessagesIn(read, blocks)[1..] == MessagesIn(read, blocks[1..]);
      case AsksResync =>
      case Breaks(_) =>
    }
  }

  lemma {:induction false} MessagesInPrefix(read: Reader, xs: seq<Bytes>, ys: seq<Bytes>)
    ensures MessagesIn(read, xs) <= MessagesIn(read, xs + ys)
    decreases |xs|
  {
    if xs != [] {
      assert (xs + ys)[0] == xs[0] && (xs + ys)[1..] == xs[1..] + ys;
      MessagesInPrefix(read, xs[1..], ys);
    }
  }

  /** All messages the bytes of a connection can carry. */
  function MessagesOf(read: Reader, bytes: Bytes): seq<Message> {
    MessagesIn(read, SplitAll(bytes).blocks)
  }

  lemma {:induction false} MessagesOfPrefix(read: Reader, a: Bytes, more: Bytes)
    ensures MessagesOf(read, a) <= MessagesOf(read, a + more)
  {
    SplitAllAppend(a, more);
    MessagesInPrefix(read, SplitAll(a).blocks, SplitAll(SplitAll(a).rest + more).blocks);
  }

  lemma {:induction false} MessagesInAppend(read: Reader, c: Conn, xs: seq<Bytes>, ys: seq<Bytes>)
    requires c.stop.Open? && HandleBlocks(read, c, xs).stop.Open?
    ensures MessagesIn(read, xs + ys) == MessagesIn(read, xs) + MessagesIn(read, ys)
    decreases |xs|
  {
    if xs == [] {
      assert xs + ys == ys;
    } else {
      assert (xs + ys)[0] == xs[0] && (xs + ys)[1..] == xs[1..] + ys;
      MessagesInAppend(read, HandleBlock(read, c, xs[0]), xs[1..], ys);
    }
  }

  lemma {:induction false} FeedOnce(read: Reader, c: Conn, buffer: Bytes, chunks: seq<Bytes>)
    requires c.stop.Open? && chunks != []
    ensures var r := FeedChunk(read, Reading(c, buffer), chunks[0]);
      FeedChunks(read, Reading(c, buffer), chunks) ==
        if r.conn.stop.Open? then FeedChunks(read, r, chunks[1..]) else r
  {
  }

  lemma {:induction false} FeedsFrom(read: Reader, c: Conn, buffer: Bytes, chunks: seq<Bytes>) returns (n: nat)
    requires c.stop.Open? && SseBoundary(buffer).None?
    ensures n <= |MessagesIn(read, Whole(buffer, chunks).blocks)|
    ensures FeedChunks(read, Reading(c, buffer), chunks).conn.(stop := Open)
      == Deliver(c, MessagesIn(read, Whole(buffer, chunks).blocks)[..n])
    decreases |chunks|
  {
    n := 0;
    assert MessagesIn(read, Whole(buffer, chunks).blocks)[..0] == [];
    if chunks != [] {
      FeedOnce(read, c, buffer, chunks);
      if |buffer| + |chunks[0]| <= MAX_SSE_EVENT_BYTES {
        var first := SplitAll(buffer + chunks[0]);
        var later := Whole(first.rest, chunks[1..]).blocks;
        assert Whole(buffer, chunks).blocks == first.blocks + later by {
          WholeStep(buffer, chunks);
        }
        if HandleBlocks(read, c, first.blocks).stop.Open? {
          var k := FeedsFrom(read, HandleBlocks(read, c, first.blocks), first.rest, chunks[1..]);
          n := JoinDeliveries(read, c, first.blocks, later, k);
        } else {
          n := |MessagesIn(read, first.blocks)|;
          BlocksDeliver(read, c, first.blocks);
          MessagesInPrefix(read, first.blocks, later);
          assert MessagesIn(read, first.blocks + later)[..n] == MessagesIn(read, first.blocks);
        }
      }
    }
  }

  lemma {:induction false} JoinDeliveries(
    read: Reader, c: Conn, xs: seq<Bytes>, ys: seq<Bytes>, k: nat) returns (n: nat)
    requires c.stop.Open? && HandleBlocks(read, c, xs).stop.Open?
    requires k <= |MessagesIn(read, ys)|
    ensures n <= |MessagesIn(read, xs + ys)|
    ensures Deliver(HandleBlocks(read, c, xs), MessagesIn(read, ys)[..k]) == Deliver(c, MessagesIn(read, xs + ys)[..n])
  {
    var early, later := MessagesIn(read, xs), MessagesIn(read, ys);
    BlocksDeliver(read, c, xs);
    MessagesInAppend(read, c, xs, ys);
    DeliverAppend(c, early, later[..k]);
    n := |early| + k;
    assert (early + later)[..n] == early + later[..k];
  }

  /**
   However the bytes are cut, and whether or not the size check fires, the
   connection delivers a prefix of the messages its bytes carry.
   */
  lemma {:induction false} FeedDelivers(read: Reader, c: Conn, chunks: seq<Bytes>) returns (n: nat)
    requires c.stop.Open?
    ensures n <= |MessagesOf(read, Concat(chunks))|
    ensures FeedChunks(read, Reading(c, []), chunks).conn.(stop := Open)
      == Deliver(c, MessagesOf(read, Concat(chunks))[..n])
  {
    n := FeedsFrom(read, c, [], chunks);
    WholeOf(chunks);
  }
}
