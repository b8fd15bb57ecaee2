/** The stream follower as the code runs it, proved against the state machine of `EventStream`. */
module EventFollower {
  import opened Wrappers
  import opened Ordering
  import opened SseSplitter
  import opened EventConnection
  import opened EventStream

  class StreamClient {
    const codec: Codec
    var cursor: I64
    var delayMs: nat
    var trace: seq<Action>
    var ended: bool

    ghost function State(): Follower
      reads this
    {
      Follower(cursor, delayMs, trace, ended)
    }

    constructor (codec: Codec, after: I64)
      ensures State() == Start(after) && this.codec == codec
    {
      this.codec := codec;
      cursor, delayMs, trace, ended := after, FIRST_DELAY_MS, [], false;
    }

    method Sleep()
      modifies this
      ensures State() == old(State()).BackOff()
    {
      trace := trace + [Wait(delayMs)];
      delayMs := if 2 * delayMs < MAX_DELAY_MS then 2 * delayMs else MAX_DELAY_MS;
    }

    method Fail(error: StreamError)
      modifies this
      ensures State() == old(State()).End(error)
    {
      trace := trace + [Action.Fail(error)];
      ended := true;
    }

    /** Yields a message above the cursor and raises the cursor to it. */
    method Take(message: Message, ghost c: Conn)
      requires c.cursor == cursor
      modifies this`cursor, this`trace
      ensures cursor == Offer(c, message).cursor
      ensures forall base :: old(trace) == base + Yields(c.yielded) ==>
        trace == base + Yields(Offer(c, message).yielded)
    {
      if message.sequence > cursor {
        cursor := message.sequence;
        trace := trace + [Yield(message)];
        assert Yields(c.yielded + [message]) == Yields(c.yielded) + [Yield(message)];
      }
    }

    method ReadOne(block: Bytes) returns (effect: Effect)
      ensures effect == SseReader(codec)(block)
    {
      if !codec.validUtf8(block) {
        return Breaks(BadUtf8);
      }
      var event := ParseSseBlock(block);
      effect := Nothing;
      if event.kind == Some(MESSAGE) {
        if event.data.Some? {
          match codec.decode(event.data.value) {
            case Some(m) => effect := Carries(m);
            case None => effect := Breaks(BadMessage);
          }
        }
      } else if event.kind == Some(RESYNC) {
        effect := AsksResync;
      } else if event.kind == Some(AUTHORIZATION) {
        effect := Breaks(AuthorizationRequired);
      }
    }

    /** Drains complete blocks off the buffer until one ends the connection. */
    method Drain(whole: Bytes, ghost c: Conn, ghost base: seq<Action>)
      returns (buffer: Bytes, stop: Stop, ghost c': Conn)
      requires c.stop.Open? && c.cursor == cursor && trace == base + Yields(c.yielded)
      modifies this`cursor, this`trace
      ensures c' == HandleBlocks(SseReader(codec), c, SplitAll(whole).blocks)
      ensures c'.stop == stop && c'.cursor == cursor && trace == base + Yields(c'.yielded)
      ensures stop.Open? ==> buffer == SplitAll(whole).rest
    {
      ghost var read := SseReader(codec);
      buffer, stop, c' := whole, Open, c;
      var found := SseBoundary(buffer);
      while found.Some?
        invariant found == SseBoundary(buffer) && stop.Open? && c'.stop.Open?
        invariant c'.cursor == cursor && trace == base + Yields(c'.yielded)
        invariant HandleBlocks(read, c', SplitAll(buffer).blocks) == HandleBlocks(read, c, SplitAll(whole).blocks)
        invariant SplitAll(buffer).rest == SplitAll(whole).rest
        decreases |buffer|
      {
        var Boundary(at, separator) := found.value;
        var block := buffer[..at];
        ghost var later := SplitAll(buffer[at + separator.Length()..]);
        assert SplitAll(buffer).blocks == [block] + later.blocks;
        assert SplitAll(buffer).blocks[1..] == later.blocks;
        buffer := buffer[at + separator.Length()..];
        found := SseBoundary(buffer);
        var effect := ReadOne(block);
        match effect {
          case Nothing =>
          case Carries(message) =>
            Take(message, c');
            c' := Offer(c', message);
          case AsksResync =>
            stop := Resync;
            c' := c'.(stop := Resync);
            return;
          case Breaks(error) =>
            stop := Failed(error);
            c' := c'.(stop := Failed(error));
            return;
        }
      }
    }

    /** Reads the chunks of one response body. */
    method ReadBody(chunks: seq<Bytes>, ghost base: seq<Action>) returns (stop: Stop, ghost c: Conn)
      requires trace == base
      modifies this`cursor, this`trace
      ensures c == FeedChunks(SseReader(codec), Reading(Conn(old(cursor), [], Open), []), chunks).conn
      ensures c.stop == stop && c.cursor == cursor && trace == base + Yields(c.yielded)
    {
      ghost var read := SseReader(codec);
      ghost var c0 := Conn(cursor, [], Open);
      var buffer: Bytes := [];
      stop, c := Open, c0;
      assert base + Yields([]) == base;
      var i := 0;
      assert chunks[0..] == chunks;
      while i < |chunks| && stop.Open?
        invariant 0 <= i <= |chunks|
        invariant c.stop == stop && c.cursor == cursor && trace == base + Yields(c.yielded)
        invariant FeedChunks(read, Reading(c, buffer), chunks[i..]).conn
               == FeedChunks(read, Reading(c0, []), chunks).conn
        decreases |chunks| - i
      {
        var chunk := chunks[i];
        assert chunks[i..][0] == chunk && chunks[i..][1..] == chunks[i + 1..];
        i := i + 1;
        if |buffer| + |chunk| > MAX_SSE_EVENT_BYTES {
          stop := Failed(EventTooLarge);
          c := c.(stop := stop);
        } else {
          buffer, stop, c := Drain(buffer + chunk, c, base);
        }
      }
    }

    /** Reads pages until the server says there are no more. */
    method ReadPages(pages: nat -> Option<Page>)
      modifies this
      ensures State() == ResyncPages(old(State()), pages, 0)
    {
      var n := 0;
      while true
        invariant ended == old(ended)
        invariant ResyncPages(State(), pages, n) == ResyncPages(old(State()), pages, 0)
        decreases I64_MAX - cursor
      {
        var previous := cursor;
        trace := trace + [PageRequest(cursor)];
        var reply := pages(n);
        if reply.None? {
          Fail(PageFailed);
          return;
        }
        var Page(items, nextCursor) := reply.value;
        ghost var base, delay := trace, delayMs;
        ghost var c := Conn(cursor, [], Open);
        assert base + Yields([]) == base && items[0..] == items;
        for k := 0 to |items|
          invariant c.cursor == cursor && trace == base + Yields(c.yielded)
          invariant Deliver(c, items[k..]) == Deliver(Conn(previous, [], Open), items)
          invariant delayMs == delay && ended == old(ended)
        {
          assert items[k..][0] == items[k] && items[k..][1..] == items[k + 1..];
          Take(items[k], c);
          c := Offer(c, items[k]);
        }
        if nextCursor.None? {
          delayMs := FIRST_DELAY_MS;
          trace := trace + [Resynced];
          return;
        }
        if cursor <= previous || nextCursor.value != cursor {
          Fail(IncoherentPage);
          return;
        }
        n := n + 1;
      }
    }

    /** One connection attempt. */
    method Connect(reply: Reply)
      modifies this
      ensures State() == Attempt(SseReader(codec), old(State()), reply)
    {
      if cursor < 0 {
        Fail(NegativeCursor);
        return;
      }
      trace := trace + [Request(cursor)];
      if reply.SendFailed? {
        Sleep();
        return;
      }
      var Response(status, chunks, pages) := reply;
      if status == 401 || status == 403 {
        Fail(AuthorizationRequired);
        return;
      }
      var success := 200 <= status < 300;
      if !success && Retryable(status) {
        Sleep();
        return;
      }
      if !success {
        Fail(HttpStatus(status));
        return;
      }
      var stop, c := ReadBody(chunks, trace);
      match stop {
        case Open => Sleep();
        case Resync => ReadPages(pages);
        case Failed(error) => Fail(error);
      }
    }

    /** The reconnect loop. */
    method Follow(replies: seq<Reply>)
      modifies this
      ensures State() == Run(SseReader(codec), old(State()), replies)
    {
      assert replies[0..] == replies;
      var i := 0;
      while i < |replies| && !ended
        invariant 0 <= i <= |replies|
        invariant Run(SseReader(codec), State(), replies[i..]) == Run(SseReader(codec), old(State()), replies)
        decreases |replies| - i
      {
        assert replies[i..][0] == replies[i] && replies[i..][1..] == replies[i + 1..];
        Connect(replies[i]);
        i := i + 1;
      }
    }
  }
}
