/**
 What a server writes on a stream: events of any kind, with comments and
 further fields, in either line-ending style; and what the client reads of it.
 */
module ServerWire {
  import opened Wrappers
  import opened Ordering
  import opened SseSplitter
  import opened EventConnection
  import opened EventStream
  import opened ExactlyOnce

  /** One event as written: its line-ending style and its lines. */
  datatype Written = Written(separator: Separator, lines: seq<Bytes>)

  function Block(w: Written): Bytes {
    if w.lines == [] then [] else Join(w.lines, w.separator.Eol())
  }

  ghost predicate WellWritten(codec: Codec, w: Written) {
    w.lines != [] && AllClean(w.lines) && codec.validUtf8(Block(w))
  }

  ghost predicate AllWritten(codec: Codec, ws: seq<Written>) {
    forall i :: 0 <= i < |ws| ==> WellWritten(codec, ws[i])
  }

  function Wire(ws: seq<Written>): Bytes {
    if ws == [] then [] else Block(ws[0]) + ws[0].separator.Bytes() + Wire(ws[1..])
  }

  function Blocks(ws: seq<Written>): seq<Bytes> {
    if ws == [] then [] else [Block(ws[0])] + Blocks(ws[1..])
  }

  // ---------------------------------------------------------------------
  // What the events say
  // ---------------------------------------------------------------------

  /** What an event asks of the client, by the fields on its lines. */
  function Says(codec: Codec, w: Written): Effect {
    EventEffect(codec, EventOf(w.lines))
  }

  /** The messages announced before an event that ends the connection. */
  function Announced(codec: Codec, ws: seq<Written>): seq<Message> {
    if ws == [] then []
    else
      match Says(codec, ws[0])
      case Nothing => Announced(codec, ws[1..])
      case Carries(m) => [m] + Announced(codec, ws[1..])
      case AsksResync => []
      case Breaks(_) => []
  }

  /** How the events end the connection, if they do. */
  function Ending(codec: Codec, ws: seq<Written>): Stop {
    if ws == [] then Open
    else
      match Says(codec, ws[0])
      case Nothing => Ending(codec, ws[1..])
      case Carries(_) => Ending(codec, ws[1..])
      case AsksResync => Resync
      case Breaks(error) => Failed(error)
  }

  lemma {:induction false} ValuesConcat(name: Bytes, a: seq<Bytes>, b: seq<Bytes>)
    ensures Values(name, a + b) == Values(name, a) + Values(name, b)
    decreases |a|
  {
    if a == [] {
      assert a + b == b;
    } else {
      assert (a + b)[0] == a[0] && (a + b)[1..] == a[1..] + b;
      ValuesConcat(name, a[1..], b);
    }
  }

  /** Comments, identifiers, retry times and lines without a colon change nothing, wherever they stand. */
  lemma {:induction false} OtherLinesIgnored(a: seq<Bytes>, line: Bytes, b: seq<Bytes>)
    requires var field := ParseField(line); field.Some? ==> field.value.name != EVENT && field.value.name != DATA
    ensures EventOf(a + [line] + b) == EventOf(a + b)
  {
    forall name | name == EVENT || name == DATA
      ensures Values(name, a + [line] + b) == Values(name, a + b)
    {
      ValuesConcat(name, a + [line], b);
      ValuesAppend(name, a, line);
      ValuesConcat(name, a, b);
      assert Values(name, [line]) == [];
      assert Values(name, a) + [] == Values(name, a);
    }
  }

  // ---------------------------------------------------------------------
  // What is read
  // ---------------------------------------------------------------------

  lemma {:induction false} WrittenIsRead(codec: Codec, w: Written, more: Bytes)
    requires WellWritten(codec, w)
    ensures SseBoundary(Block(w) + w.separator.Bytes() + more) == Some(Boundary(|Block(w)|, w.separator))
    ensures ReadBlock(codec, Block(w)) == Says(codec, w)
  {
    JoinEndsAtSeparator(w.separator, w.lines, more);
    FirstBoundaryUnique(Block(w) + w.separator.Bytes() + more, Boundary(|Block(w)|, w.separator));
    LinesOfJoin(w.separator, w.lines);
  }

  lemma {:induction false} SplitFirst(block: Bytes, sep: Separator, rest: Bytes)
    requires SseBoundary(block + sep.Bytes() + rest) == Some(Boundary(|block|, sep))
    ensures SplitAll(block + sep.Bytes() + rest) == Split([block] + SplitAll(rest).blocks, SplitAll(rest).rest)
  {
    var b := block + sep.Bytes() + rest;
    assert b[..|block|] == block;
    assert b[|block| + sep.Length()..] == rest;
  }

  /** A wire splits into its events, with nothing left over. */
  lemma {:induction false} WireSplits(codec: Codec, ws: seq<Written>)
    requires AllWritten(codec, ws)
    ensures SplitAll(Wire(ws)) == Split(Blocks(ws), [])
    decreases |ws|
  {
    if ws != [] {
      WireSplits(codec, ws[1..]);
      WrittenIsRead(codec, ws[0], Wire(ws[1..]));
      SplitFirst(Block(ws[0]), ws[0].separator, Wire(ws[1..]));
    }
  }

  lemma {:induction false} BlocksSay(codec: Codec, ws: seq<Written>, c: Conn)
    requires AllWritten(codec, ws) && c.stop.Open?
    ensures MessagesIn(SseReader(codec), Blocks(ws)) == Announced(codec, ws)
    ensures HandleBlocks(SseReader(codec), c, Blocks(ws)).stop == Ending(codec, ws)
    decreases |ws|
  {
    if ws != [] {
      WrittenIsRead(codec, ws[0], []);
      assert Blocks(ws)[1..] == Blocks(ws[1..]);
      match Says(codec, ws[0])
      case Nothing => BlocksSay(codec, ws[1..], c);
      case Carries(m) => BlocksSay(codec, ws[1..], Offer(c, m));
      case AsksResync =>
      case Breaks(_) =>
    }
  }

  /** The messages read from a wire are the messages announced on it, in order. */
  lemma {:induction false} WireIsRead(codec: Codec, ws: seq<Written>)
    requires AllWritten(codec, ws)
    ensures MessagesOf(SseReader(codec), Wire(ws)) == Announced(codec, ws)
  {
    WireSplits(codec, ws);
    BlocksSay(codec, ws, Conn(0, [], Open));
  }

  /** In whatever chunks a whole wire arrives, the connection ends as the events say. */
  lemma {:induction false} WireEnds(codec: Codec, ws: seq<Written>, c: Conn, chunks: seq<Bytes>)
    requires AllWritten(codec, ws) && c.stop.Open? && Concat(chunks) == Wire(ws) && Fits([], chunks)
    ensures FeedChunks(SseReader(codec), Reading(c, []), chunks).conn.stop == Ending(codec, ws)
  {
    ChunksDoNotMatter(SseReader(codec), c, chunks);
    WireSplits(codec, ws);
    BlocksSay(codec, ws, c);
  }

  /**
   A server that writes gap-free events keeps its side of exactly-once
   delivery even when the connection is cut at any byte.
   */
  lemma {:induction false} CutWireIsHonest(
    codec: Codec, log: seq<Message>, cursor: I64, ws: seq<Written>, received: Bytes)
    requires AllWritten(codec, ws) && GapFree(log, cursor, Announced(codec, ws))
    requires received <= Wire(ws)
    ensures GapFree(log, cursor, MessagesOf(SseReader(codec), received))
  {
    WireIsRead(codec, ws);
    CutIsGapFree(SseReader(codec), log, cursor, Wire(ws), received);
  }

  /**
   From the first byte to the last page: a gap-free wire that ends by asking
   for a resync, in any chunks, and complete pages after it, leave the client
   with every entry of the log above `after`, each once and in order.
   */
  lemma {:induction false} WireCatchesUp(
    codec: Codec, log: seq<Message>, after: int, f: Follower, ws: seq<Written>,
    status: nat, chunks: seq<Bytes>, pages: nat -> Option<Page>)
    requires IsLog(log) && OnceInOrder(log, after, f) && !f.ended && f.cursor >= 0
    requires AllWritten(codec, ws) && GapFree(log, f.cursor, Announced(codec, ws)) && Ending(codec, ws).Resync?
    requires 200 <= status < 300 && Concat(chunks) == Wire(ws) && Fits([], chunks)
    requires var c := FeedChunks(SseReader(codec), Reading(Conn(f.cursor, [], Open), []), chunks).conn;
      CompletePages(log, c.cursor, pages, 0)
    ensures UpToDate(log, after, Attempt(SseReader(codec), f, Response(status, chunks, pages)))
  {
    WireIsRead(codec, ws);
    WireEnds(codec, ws, Conn(f.cursor, [], Open), chunks);
    CaughtUp(SseReader(codec), log, after, f, Response(status, chunks, pages));
  }

  // ---------------------------------------------------------------------
  // Message events
  // ---------------------------------------------------------------------

  /** A message event in its plainest form: its kind, then its data. */
  function MessageEvent(separator: Separator, data: seq<Bytes>): Written {
    Written(separator, [FieldLine(EVENT, MESSAGE)] + DataLines(data))
  }

  /** Such an event says its message. */
  lemma {:induction false} MessageEventSays(codec: Codec, separator: Separator, data: seq<Bytes>, m: Message)
    requires data != [] && (forall i :: 0 <= i < |data| ==> Clean(data[i])) && codec.decode(Join(data, [LF])) == Some(m)
    ensures AllClean(MessageEvent(separator, data).lines)
    ensures Says(codec, MessageEvent(separator, data)) == Carries(m)
  {
    assert Clean(MESSAGE);
    RenderedLinesClean(MESSAGE, data);
    EventOfRendered(MESSAGE, data);
  }

  ghost predicate PlainMessage(codec: Codec, w: Written, m: Message) {
    exists data: seq<Bytes> ::
      && data != [] && (forall i :: 0 <= i < |data| ==> Clean(data[i]))
      && codec.decode(Join(data, [LF])) == Some(m)
      && w == MessageEvent(w.separator, data)
  }

  lemma {:induction false} PlainMessageSays(codec: Codec, w: Written, m: Message)
    requires PlainMessage(codec, w, m)
    ensures w.lines != [] && AllClean(w.lines) && Says(codec, w) == Carries(m)
  {
    var data: seq<Bytes> :|
      && data != [] && (forall i :: 0 <= i < |data| ==> Clean(data[i]))
      && codec.decode(Join(data, [LF])) == Some(m)
      && w == MessageEvent(w.separator, data);
    MessageEventSays(codec, w.separator, data, m);
  }

  lemma {:induction false} MessagesAnnounced(codec: Codec, ws: seq<Written>, ms: seq<Message>)
    requires |ws| == |ms| && forall i :: 0 <= i < |ws| ==> Says(codec, ws[i]) == Carries(ms[i])
    ensures Announced(codec, ws) == ms
    decreases |ws|
  {
    if ws != [] {
      MessagesAnnounced(codec, ws[1..], ms[1..]);
      assert ms == [ms[0]] + ms[1..];
    }
  }

  /** One plain event for each message: all of them are read, and gap-free ones stay so wherever the wire is cut. */
  lemma {:induction false} PlainWireIsHonest(
    codec: Codec, log: seq<Message>, cursor: I64, ws: seq<Written>, ms: seq<Message>, received: Bytes)
    requires |ws| == |ms| && forall i :: 0 <= i < |ws| ==> PlainMessage(codec, ws[i], ms[i])
    requires forall i :: 0 <= i < |ws| ==> codec.validUtf8(Block(ws[i]))
    requires received <= Wire(ws)
    ensures MessagesOf(SseReader(codec), Wire(ws)) == ms
    ensures GapFree(log, cursor, ms) ==> GapFree(log, cursor, MessagesOf(SseReader(codec), received))
  {
    forall i | 0 <= i < |ws|
      ensures WellWritten(codec, ws[i]) && Says(codec, ws[i]) == Carries(ms[i])
    {
      PlainMessageSays(codec, ws[i], ms[i]);
    }
    MessagesAnnounced(codec, ws, ms);
    WireIsRead(codec, ws);
    if GapFree(log, cursor, ms) {
      CutWireIsHonest(codec, log, cursor, ws, received);
    }
  }

  // ---------------------------------------------------------------------
  // Pages
  // ---------------------------------------------------------------------

  /** Up to `limit` entries above the cursor; the last one's sequence when there are more. */
  function PageAt(log: seq<Message>, cursor: int, limit: nat): Page
    requires limit > 0
  {
    var above := Above(log, cursor);
    if |above| <= limit then Page(above, None) else Page(above[..limit], Some(above[limit - 1].sequence))
  }

  lemma {:induction false} AboveMembers(log: seq<Message>, cursor: int)
    ensures forall e :: e in Above(log, cursor) <==> e in log && e.sequence > cursor
    decreases |log|
  {
    if log != [] {
      AboveMembers(log[1..], cursor);
      assert log == [log[0]] + log[1..];
    }
  }

  lemma {:induction false} AboveIsLog(log: seq<Message>, cursor: int)
    requires IsLog(log)
    ensures IsLog(Above(log, cursor))
    decreases |log|
  {
    if log != [] {
      var rest := Above(log[1..], cursor);
      AboveIsLog(log[1..], cursor);
      AboveMembers(log[1..], cursor);
      forall j | 0 <= j < |rest|
        ensures log[0].sequence < rest[j].sequence
      {
        assert rest[j] in log[1..];
        var k :| 0 <= k < |log[1..]| && log[1..][k] == rest[j];
        assert log[k + 1] == rest[j];
      }
    }
  }

  /** The first entries above the cursor skip nothing. */
  lemma {:induction false} FirstEntriesGapFree(log: seq<Message>, cursor: int, n: nat)
    requires IsLog(log) && n <= |Above(log, cursor)|
    ensures GapFree(log, cursor, Above(log, cursor)[..n])
  {
    var above := Above(log, cursor);
    AboveIsLog(log, cursor);
    AboveMembers(log, cursor);
    forall i | 0 <= i < n
      ensures above[i] in log
      ensures forall e :: e in log && cursor < e.sequence < above[i].sequence ==> e in above[..n][..i]
    {
      assert above[i] in above;
      forall e | e in log && cursor < e.sequence < above[i].sequence
        ensures e in above[..n][..i]
      {
        assert e in above;
        var j :| 0 <= j < |above| && above[j] == e;
        assert j < i;
        assert above[..n][..i][j] == e;
      }
    }
  }

  /** A server that answers every page request from the log. */
  ghost predicate ServesLog(log: seq<Message>, cursor: I64, limit: nat, pages: nat -> Option<Page>, n: nat)
    requires limit > 0
    decreases I64_MAX - cursor
  {
    && pages(n) == Some(PageAt(log, cursor, limit))
    && var next := PageAt(log, cursor, limit).nextCursor;
      next.Some? && next.value > cursor ==> ServesLog(log, next.value, limit, pages, n + 1)
  }

  /** One such page: gap-free, and the last or ending on the cursor it names. */
  lemma {:induction false} PageCoherent(log: seq<Message>, cursor: I64, limit: nat)
    requires IsLog(log) && limit > 0
    ensures var Page(items, next) := PageAt(log, cursor, limit);
      && GapFree(log, cursor, items)
      && match next
         case None => forall e :: e in log && e.sequence > cursor ==> e in items
         case Some(x) => x > cursor && Greatest(items, x)
  {
    var above := Above(log, cursor);
    AboveMembers(log, cursor);
    AboveIsLog(log, cursor);
    if |above| <= limit {
      FirstEntriesGapFree(log, cursor, |above|);
      assert above[..|above|] == above;
    } else {
      FirstEntriesGapFree(log, cursor, limit);
      assert above[limit - 1] in above;
      assert above[..limit][limit - 1].sequence == above[limit - 1].sequence;
    }
  }

  /** Its pages are complete, whatever the page size. */
  lemma {:induction false} ServedPagesComplete(
    log: seq<Message>, cursor: I64, limit: nat, pages: nat -> Option<Page>, n: nat)
    requires IsLog(log) && limit > 0 && ServesLog(log, cursor, limit, pages, n)
    ensures CompletePages(log, cursor, pages, n)
    decreases I64_MAX - cursor
  {
    PageCoherent(log, cursor, limit);
    match PageAt(log, cursor, limit).nextCursor
    case None =>
    case Some(x) => ServedPagesComplete(log, x, limit, pages, n + 1);
  }
}
