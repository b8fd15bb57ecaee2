/**
 When the stream waits and goes on and when it ends, said of the replies
 themselves: their statuses, how their bodies end, and the pages behind them.
 */
module EventOutcomes {
  import opened Wrappers
  import opened Ordering
  import opened Characters
  import opened SseSplitter
  import opened EventConnection
  import opened EventStream
  import opened ExactlyOnce

  /** What a body leaves of a connection that asked from `cursor`. */
  function Body(read: Reader, cursor: I64, chunks: seq<Bytes>): Conn {
    FeedChunks(read, Reading(Conn(cursor, [], Open), []), chunks).conn
  }

  /** The delay after this one. */
  function Doubled(ms: nat): nat {
    if ms < 15000 then 2 * ms else 30000
  }

  // ---------------------------------------------------------------------
  // One attempt
  // ---------------------------------------------------------------------

  /** A failed send and the statuses 408, 429 and 500 to 599: one request, one wait, and another try. */
  lemma {:induction false} TriesAgain(read: Reader, f: Follower, reply: Reply)
    requires f.cursor >= 0
    requires reply.SendFailed? || reply.status == 408 || reply.status == 429 || 500 <= reply.status <= 599
    ensures Attempt(read, f, reply) ==
      Follower(f.cursor, Doubled(f.delayMs), f.trace + [Request(f.cursor), Wait(f.delayMs)], f.ended)
  {
    assert f.trace + [Request(f.cursor)] + [Wait(f.delayMs)] == f.trace + [Request(f.cursor), Wait(f.delayMs)];
  }

  /** A body that ends without asking for anything: its messages, one wait, and another try. */
  lemma {:induction false} ReadsOn(read: Reader, f: Follower, reply: Reply)
    requires f.cursor >= 0 && reply.Response? && 200 <= reply.status <= 299
    requires Body(read, f.cursor, reply.chunks).stop.Open?
    ensures var c := Body(read, f.cursor, reply.chunks);
      Attempt(read, f, reply) ==
        Follower(c.cursor, Doubled(f.delayMs),
                 f.trace + [Request(f.cursor)] + Yields(c.yielded) + [Wait(f.delayMs)], f.ended)
  {
  }

  /** A body that fails ends the stream with its error, after the messages before it. */
  lemma {:induction false} BodyFails(read: Reader, f: Follower, reply: Reply)
    requires f.cursor >= 0 && reply.Response? && 200 <= reply.status <= 299
    requires Body(read, f.cursor, reply.chunks).stop.Failed?
    ensures var c := Body(read, f.cursor, reply.chunks);
      Attempt(read, f, reply) ==
        Follower(c.cursor, f.delayMs,
                 f.trace + [Request(f.cursor)] + Yields(c.yielded) + [Fail(c.stop.error)], true)
  {
  }

  function RefusalOf(status: nat): StreamError {
    if status == 401 || status == 403 then AuthorizationRequired else HttpStatus(status)
  }

  /** Every other status ends the stream: 401 and 403 ask for authorization, the rest are reported. */
  lemma {:induction false} Refused(read: Reader, f: Follower, reply: Reply)
    requires f.cursor >= 0 && reply.Response?
    requires !(200 <= reply.status <= 299) && reply.status != 408 && reply.status != 429
      && !(500 <= reply.status <= 599)
    ensures Attempt(read, f, reply) ==
      Follower(f.cursor, f.delayMs, f.trace + [Request(f.cursor), Fail(RefusalOf(reply.status))], true)
  {
    var actions := f.trace + [Request(f.cursor)];
    assert actions + [Fail(RefusalOf(reply.status))] == f.trace + [Request(f.cursor), Fail(RefusalOf(reply.status))];
  }

  /** Below zero nothing is asked. */
  lemma {:induction false} NeverAsks(read: Reader, f: Follower, reply: Reply)
    requires f.cursor < 0
    ensures Attempt(read, f, reply) == Follower(f.cursor, f.delayMs, f.trace + [Fail(NegativeCursor)], true)
  {
  }

  // ---------------------------------------------------------------------
  // Resyncs
  // ---------------------------------------------------------------------

  /** The greatest of a cursor and the sequences on a page. */
  ghost predicate Highest(top: int, cursor: int, items: seq<Message>) {
    && top >= cursor
    && (forall i :: 0 <= i < |items| ==> items[i].sequence <= top)
    && (top == cursor || exists i :: 0 <= i < |items| && items[i].sequence == top)
  }

  /** A page is missing, or names a next cursor that is not the highest sequence so far, raised by this page. */
  ghost predicate PagesFail(cursor: I64, pages: nat -> Option<Page>, n: nat)
    decreases I64_MAX - cursor
  {
    match pages(n)
    case None => true
    case Some(Page(items, None)) => false
    case Some(Page(items, Some(next))) =>
      next > cursor && Highest(next, cursor, items) ==> PagesFail(next, pages, n + 1)
  }

  lemma {:induction false} DeliversHighest(cursor: I64, items: seq<Message>, top: int)
    ensures Highest(top, cursor, items) <==> Deliver(Conn(cursor, [], Open), items).cursor == top
  {
    DeliveredCursor(Conn(cursor, [], Open), items);
  }

  /** A resync ends the stream exactly when its pages fail; otherwise the delay is back to 250. */
  lemma {:induction false} ResyncEndsIff(f: Follower, pages: nat -> Option<Page>, n: nat)
    requires !f.ended
    ensures ResyncPages(f, pages, n).ended <==> PagesFail(f.cursor, pages, n)
    ensures !ResyncPages(f, pages, n).ended ==> ResyncPages(f, pages, n).delayMs == 250
    decreases I64_MAX - f.cursor
  {
    if pages(n).Some? && pages(n).value.nextCursor.Some? {
      var Page(items, next) := pages(n).value;
      var c := Deliver(Conn(f.cursor, [], Open), items);
      var asked := f.Log([PageRequest(f.cursor)]);
      var read := asked.(cursor := c.cursor, trace := asked.trace + Yields(c.yielded));
      DeliversHighest(f.cursor, items, next.value);
      if c.cursor > f.cursor && next.value == c.cursor {
        ResyncEndsIff(read, pages, n + 1);
      }
    }
  }

  // ---------------------------------------------------------------------
  // When the stream ends
  // ---------------------------------------------------------------------

  /** A reply that ends the stream: a status that says so, or a body or the pages behind it that fail. */
  ghost predicate Fatal(read: Reader, cursor: I64, reply: Reply) {
    && reply.Response?
    && if 200 <= reply.status <= 299 then
         var c := Body(read, cursor, reply.chunks);
         c.stop.Failed? || (c.stop.Resync? && PagesFail(c.cursor, reply.pages, 0))
       else reply.status != 408 && reply.status != 429 && !(500 <= reply.status <= 599)
  }

  lemma {:induction false} BodyResyncs(read: Reader, f: Follower, reply: Reply)
    requires f.cursor >= 0 && !f.ended && reply.Response? && 200 <= reply.status <= 299
    requires Body(read, f.cursor, reply.chunks).stop.Resync?
    ensures Attempt(read, f, reply).ended <==> PagesFail(Body(read, f.cursor, reply.chunks).cursor, reply.pages, 0)
    ensures !Attempt(read, f, reply).ended ==> Attempt(read, f, reply).delayMs == 250
  {
    var c := Body(read, f.cursor, reply.chunks);
    ResyncEndsIff(f.(cursor := c.cursor, trace := f.trace + [Request(f.cursor)] + Yields(c.yielded)), reply.pages, 0);
  }

  lemma {:induction false} AttemptEndsIff(read: Reader, f: Follower, reply: Reply)
    requires f.cursor >= 0 && !f.ended
    ensures Attempt(read, f, reply).ended <==> Fatal(read, f.cursor, reply)
  {
    if reply.Response? && 200 <= reply.status <= 299 {
      match Body(read, f.cursor, reply.chunks).stop
      case Open => ReadsOn(read, f, reply);
      case Failed(_) => BodyFails(read, f, reply);
      case Resync => BodyResyncs(read, f, reply);
    } else if Fatal(read, f.cursor, reply) {
      Refused(read, f, reply);
    } else {
      TriesAgain(read, f, reply);
    }
  }

  lemma {:induction false} BodyRaises(read: Reader, cursor: I64, chunks: seq<Bytes>)
    ensures Body(read, cursor, chunks).cursor >= cursor
  {
    var start := Conn(cursor, [], Open);
    var n := FeedDelivers(read, start, chunks);
    DeliverRaises(start, MessagesOf(read, Concat(chunks))[..n]);
  }

  lemma {:induction false} AttemptRaises(read: Reader, f: Follower, reply: Reply)
    ensures Attempt(read, f, reply).cursor >= f.cursor
  {
    if reply.Response? {
      var c := Body(read, f.cursor, reply.chunks);
      BodyRaises(read, f.cursor, reply.chunks);
      ResyncBounded(f.(cursor := c.cursor, trace := f.trace + [Request(f.cursor)] + Yields(c.yielded)), reply.pages, 0);
    }
  }

  /** The run up to the k-th reply. */
  function Before(read: Reader, f: Follower, replies: seq<Reply>, k: nat): Follower
    requires k <= |replies|
  {
    Run(read, f, replies[..k])
  }

  lemma {:induction false} BeforeStep(read: Reader, f: Follower, replies: seq<Reply>, k: nat)
    requires k < |replies| && !f.ended
    ensures Before(read, f, replies, k + 1) == Before(read, Attempt(read, f, replies[0]), replies[1..], k)
  {
    assert replies[..k + 1][1..] == replies[1..][..k];
  }

  /** A stream ends if and only if one of the replies is fatal where the stream then stands. */
  lemma {:induction false} RunEndsIff(read: Reader, f: Follower, replies: seq<Reply>)
    requires f.cursor >= 0 && !f.ended
    ensures Run(read, f, replies).ended
        <==> exists k :: 0 <= k < |replies| && Fatal(read, Before(read, f, replies, k).cursor, replies[k])
    decreases |replies|
  {
    if replies != [] {
      var g := Attempt(read, f, replies[0]);
      AttemptEndsIff(read, f, replies[0]);
      AttemptRaises(read, f, replies[0]);
      assert Before(read, f, replies, 0) == f;
      if !g.ended {
        RunEndsIff(read, g, replies[1..]);
        forall k | 0 <= k < |replies| - 1
          ensures Before(read, f, replies, k + 1) == Before(read, g, replies[1..], k)
        {
          BeforeStep(read, f, replies, k);
        }
        LaterReply(read, f, g, replies);
      }
    }
  }

  /** So it is from the start: 250 ms, nothing done yet, and no end until such a reply. */
  lemma {:induction false} StreamEndsIff(read: Reader, after: I64, replies: seq<Reply>)
    requires after >= 0
    ensures Start(after) == Follower(after, 250, [], false)
    ensures Run(read, Start(after), replies).ended
        <==> exists k :: 0 <= k < |replies| && Fatal(read, Before(read, Start(after), replies, k).cursor, replies[k])
  {
    RunEndsIff(read, Start(after), replies);
  }

  lemma {:induction false} LaterReply(read: Reader, f: Follower, g: Follower, replies: seq<Reply>)
    requires replies != [] && !Fatal(read, Before(read, f, replies, 0).cursor, replies[0])
    requires forall k :: 0 <= k < |replies| - 1 ==>
      Before(read, f, replies, k + 1) == Before(read, g, replies[1..], k)
    ensures (exists k :: 0 <= k < |replies| && Fatal(read, Before(read, f, replies, k).cursor, replies[k]))
        <==> exists k ::
               0 <= k < |replies[1..]| && Fatal(read, Before(read, g, replies[1..], k).cursor, replies[1..][k])
  {
    if k :| 0 <= k < |replies| && Fatal(read, Before(read, f, replies, k).cursor, replies[k]) {
      assert replies[1..][k - 1] == replies[k];
      assert Before(read, f, replies, (k - 1) + 1) == Before(read, g, replies[1..], k - 1);
    }
    if k :| 0 <= k < |replies[1..]| && Fatal(read, Before(read, g, replies[1..], k).cursor, replies[1..][k]) {
      assert replies[k + 1] == replies[1..][k];
    }
  }

  // ---------------------------------------------------------------------
  // Events by name
  // ---------------------------------------------------------------------

  /** What each kind of event does; only messages look at the data. */
  lemma {:induction false} NamedEvents(codec: Codec, data: Option<Bytes>)
    ensures EventEffect(codec, ParsedEvent(Some(Ascii("resync_required")), data)) == AsksResync
    ensures EventEffect(codec, ParsedEvent(Some(Ascii("authorization_required")), data)) ==
      Breaks(AuthorizationRequired)
    ensures EventEffect(codec, ParsedEvent(Some(Ascii("message")), data)) ==
      if data.None? then Nothing
      else if codec.decode(data.value).None? then Breaks(BadMessage)
      else Carries(codec.decode(data.value).value)
    ensures EventEffect(codec, ParsedEvent(None, data)) == Nothing
    ensures forall kind | kind !in {Ascii("resync_required"), Ascii("authorization_required"), Ascii("message")} ::
      EventEffect(codec, ParsedEvent(Some(kind), data)) == Nothing
  {
    var r, a, m := Ascii("resync_required"), Ascii("authorization_required"), Ascii("message");
    assert |r| == 15 && |a| == 22 && |m| == 7;
  }

  /** A chunk that does not fit in 256 KiB behind the leftover ends the connection. */
  lemma {:induction false} Oversized(read: Reader, r: Reading, chunk: Bytes, chunks: seq<Bytes>)
    requires r.conn.stop.Open?
    ensures |r.buffer| + |chunk| > 262144 ==>
      FeedChunks(read, r, [chunk] + chunks).conn == r.conn.(stop := Failed(EventTooLarge))
    ensures |r.buffer| + |chunk| <= 262144 ==>
      FeedChunks(read, r, [chunk] + chunks)
        == FeedChunks(read, Reading(HandleBlocks(read, r.conn, SplitAll(r.buffer + chunk).blocks),
                                    SplitAll(r.buffer + chunk).rest), chunks)
  {
    assert ([chunk] + chunks)[0] == chunk && ([chunk] + chunks)[1..] == chunks;
  }

  /** The fields an event is made of, by name. */
  lemma {:induction false} EventFields(kind: Bytes, data: Bytes)
    ensures EventOf([Ascii("event: ") + kind, Ascii("data: ") + data]) == ParsedEvent(Some(kind), Some(data))
  {
    var a, b := Ascii("event: "), Ascii("data: ");
    assert a == EVENT + [COLON, SPACE] && b == DATA + [COLON, SPACE];
    EventOfRendered(kind, [data]);
    assert [a + kind, b + data] == [FieldLine(EVENT, kind)] + DataLines([data]);
  }
}
