/**
 Ordered exactly-once delivery of the conversation stream from a server that
 neither invents nor skips log entries.
 */
module ExactlyOnce {
  import opened Wrappers
  import opened Ordering
  import opened SseSplitter
  import opened EventConnection
  import opened EventStream

  /** The log entries above a cursor. */
  function Above(log: seq<Message>, cursor: int): seq<Message> {
    if log == [] then []
    else (if log[0].sequence > cursor then [log[0]] else []) + Above(log[1..], cursor)
  }

  ghost predicate IsLog(log: seq<Message>) {
    forall i, j :: 0 <= i < j < |log| ==> log[i].sequence < log[j].sequence
  }

  /**
   What an honest stream or page from `cursor` may hold: log entries, with no
   entry above the cursor skipped. Entries at or below the cursor and entries
   already sent may be replayed anywhere.
   */
  ghost predicate GapFree(log: seq<Message>, cursor: int, ms: seq<Message>) {
    forall i :: 0 <= i < |ms| && ms[i].sequence > cursor ==>
      && ms[i] in log
      && forall e :: e in log && cursor < e.sequence < ms[i].sequence ==> e in ms[..i]
  }

  ghost predicate HonestPages(log: seq<Message>, cursor: I64, pages: nat -> Option<Page>, n: nat)
    decreases I64_MAX - cursor
  {
    pages(n).Some? ==>
      var page := pages(n).value;
      var c := Deliver(Conn(cursor, [], Open), page.items);
      && GapFree(log, cursor, page.items)
      && (c.cursor > cursor && page.nextCursor == Some(c.cursor) ==> HonestPages(log, c.cursor, pages, n + 1))
  }

  ghost predicate HonestReply(read: Reader, log: seq<Message>, cursor: I64, reply: Reply) {
    reply.Response? ==>
      && GapFree(log, cursor, MessagesOf(read, Concat(reply.chunks)))
      && var c := FeedChunks(read, Reading(Conn(cursor, [], Open), []), reply.chunks).conn;
        (c.stop.Resync? ==> HonestPages(log, c.cursor, reply.pages, 0))
  }

  ghost predicate HonestRun(read: Reader, log: seq<Message>, f: Follower, replies: seq<Reply>)
    decreases |replies|
  {
    replies == [] || f.ended ||
    (HonestReply(read, log, f.cursor, replies[0]) &&
     HonestRun(read, log, Attempt(read, f, replies[0]), replies[1..]))
  }

  /** Everything yielded so far, then everything above the cursor, is everything above `after`. */
  ghost predicate OnceInOrder(log: seq<Message>, after: int, f: Follower) {
    Yielded(f.trace) + Above(log, f.cursor) == Above(log, after)
  }

  /** Delivering the least entry above the cursor takes it off the front. */
  lemma {:induction false} AboveStep(log: seq<Message>, cursor: int, m: Message)
    requires IsLog(log) && m in log && m.sequence > cursor
    requires forall e :: e in log && e.sequence > cursor ==> m.sequence <= e.sequence
    ensures Above(log, cursor) == [m] + Above(log, m.sequence)
    decreases |log|
  {
    if log[0].sequence > cursor {
      var k :| 0 <= k < |log| && log[k] == m;
      assert log[0] in log;
      assert k == 0;
      AboveAll(log[1..], cursor);
      AboveAll(log[1..], m.sequence);
    } else {
      assert m in log[1..];
      AboveStep(log[1..], cursor, m);
    }
  }

  lemma {:induction false} AboveAll(log: seq<Message>, cursor: int)
    requires forall i :: 0 <= i < |log| ==> log[i].sequence > cursor
    ensures Above(log, cursor) == log
    decreases |log|
  {
    if log != [] {
      AboveAll(log[1..], cursor);
      assert log == [log[0]] + log[1..];
    }
  }

  /** In a gap-free stream the first message above what was delivered is the next entry of the log. */
  lemma {:induction false} NextEntry(log: seq<Message>, start: int, ms: seq<Message>, i: nat, cursor: int)
    requires GapFree(log, start, ms) && i < |ms| && start <= cursor < ms[i].sequence
    requires forall k :: 0 <= k < i ==> ms[k].sequence <= cursor
    ensures ms[i] in log && forall e :: e in log && e.sequence > cursor ==> ms[i].sequence <= e.sequence
  {
  }

  /** Delivering gap-free messages yields exactly the next entries of the log. */
  lemma {:induction false} DeliverExact(log: seq<Message>, start: int, ms: seq<Message>, i: nat, c: Conn)
    requires IsLog(log) && GapFree(log, start, ms) && i <= |ms|
    requires start <= c.cursor && forall k :: 0 <= k < i ==> ms[k].sequence <= c.cursor
    ensures Deliver(c, ms[i..]).yielded + Above(log, Deliver(c, ms[i..]).cursor) == c.yielded + Above(log, c.cursor)
    decreases |ms| - i
  {
    if i < |ms| {
      var m := ms[i];
      var d := Offer(c, m);
      assert ms[i..][0] == m && ms[i..][1..] == ms[i + 1..];
      if m.sequence > c.cursor {
        NextEntry(log, start, ms, i, c.cursor);
        AboveStep(log, c.cursor, m);
        assert c.yielded + ([m] + Above(log, m.sequence)) == d.yielded + Above(log, m.sequence);
      }
      DeliverExact(log, start, ms, i + 1, d);
    }
  }

  lemma {:induction false} YieldedAppend(s: seq<Action>, t: seq<Action>)
    ensures Yielded(s + t) == Yielded(s) + Yielded(t)
    decreases |t|
  {
    if t == [] {
      assert s + t == s;
    } else {
      assert (s + t)[..|s + t| - 1] == s + t[..|t| - 1];
      YieldedAppend(s, t[..|t| - 1]);
    }
  }

  lemma {:induction false} YieldedYields(ms: seq<Message>)
    ensures Yielded(Yields(ms)) == ms
    decreases |ms|
  {
    if ms != [] {
      assert Yields(ms)[..|ms| - 1] == Yields(ms[..|ms| - 1]);
      YieldedYields(ms[..|ms| - 1]);
      assert ms == ms[..|ms| - 1] + [ms[|ms| - 1]];
    }
  }

  lemma {:induction false} YieldedOther(s: seq<Action>, a: Action)
    requires !a.Yield?
    ensures Yielded(s + [a]) == Yielded(s)
  {
  }

  lemma {:induction false} YieldsKeepExactlyOnce(log: seq<Message>, after: int, f: Follower, d: Conn)
    requires OnceInOrder(log, after, f)
    requires d.yielded + Above(log, d.cursor) == Above(log, f.cursor)
    ensures OnceInOrder(log, after, f.(cursor := d.cursor, trace := f.trace + Yields(d.yielded)))
  {
    YieldedAppend(f.trace, Yields(d.yielded));
    YieldedYields(d.yielded);
    assert Yielded(f.trace) + d.yielded + Above(log, d.cursor) == Yielded(f.trace) + (d.yielded + Above(log, d.cursor));
  }

  lemma {:induction false} DeliverKeepsExactlyOnce(log: seq<Message>, after: int, f: Follower, ms: seq<Message>)
    requires IsLog(log) && OnceInOrder(log, after, f) && GapFree(log, f.cursor, ms)
    ensures var d := Deliver(Conn(f.cursor, [], Open), ms);
      OnceInOrder(log, after, f.(cursor := d.cursor, trace := f.trace + Yields(d.yielded)))
  {
    var d := Deliver(Conn(f.cursor, [], Open), ms);
    assert d.yielded + Above(log, d.cursor) == Above(log, f.cursor) by {
      assert ms[0..] == ms;
      DeliverExact(log, f.cursor, ms, 0, Conn(f.cursor, [], Open));
      assert [] + Above(log, f.cursor) == Above(log, f.cursor);
    }
    YieldsKeepExactlyOnce(log, after, f, d);
  }

  lemma {:induction false} ResyncExactlyOnce(
    log: seq<Message>, after: int, f: Follower, pages: nat -> Option<Page>, n: nat)
    requires IsLog(log) && OnceInOrder(log, after, f) && HonestPages(log, f.cursor, pages, n)
    ensures OnceInOrder(log, after, ResyncPages(f, pages, n))
    decreases I64_MAX - f.cursor
  {
    var asked := f.Log([PageRequest(f.cursor)]);
    YieldedOther(f.trace, PageRequest(f.cursor));
    match pages(n)
    case None => YieldedOther(asked.trace, Fail(PageFailed));
    case Some(Page(items, nextCursor)) =>
      var c := Deliver(Conn(f.cursor, [], Open), items);
      var read := asked.(cursor := c.cursor, trace := asked.trace + Yields(c.yielded));
      DeliverKeepsExactlyOnce(log, after, asked, items);
      YieldedOther(read.trace, Resynced);
      YieldedOther(read.trace, Fail(IncoherentPage));
      if nextCursor.Some? && c.cursor > f.cursor && nextCursor.value == c.cursor {
        ResyncExactlyOnce(log, after, read, pages, n + 1);
      }
  }

  lemma {:induction false} GapFreePrefix(log: seq<Message>, cursor: int, ms: seq<Message>, n: nat)
    requires n <= |ms| && GapFree(log, cursor, ms)
    ensures GapFree(log, cursor, ms[..n])
  {
    forall i | 0 <= i < n && ms[i].sequence > cursor
      ensures ms[i] in log
      ensures forall e :: e in log && cursor < e.sequence < ms[i].sequence ==> e in ms[..n][..i]
    {
      assert ms[..n][..i] == ms[..i];
    }
  }

  lemma {:induction false} OtherKeepsExactlyOnce(log: seq<Message>, after: int, f: Follower, a: Action)
    requires OnceInOrder(log, after, f) && !a.Yield?
    ensures OnceInOrder(log, after, f.Log([a]))
  {
  }

  lemma {:induction false} AskedAndDone(f: Follower, a: Action)
    requires !a.Yield?
    ensures Yielded(f.trace + [Request(f.cursor)] + [a]) == Yielded(f.trace)
  {
    YieldedOther(f.trace, Request(f.cursor));
    YieldedOther(f.trace + [Request(f.cursor)], a);
  }

  /** Attempts that read no body yield nothing. */
  lemma {:induction false} NoBodyYields(read: Reader, f: Follower, reply: Reply)
    requires f.cursor < 0 || reply.SendFailed? || !(200 <= reply.status < 300)
    ensures Attempt(read, f, reply).cursor == f.cursor
    ensures Yielded(Attempt(read, f, reply).trace) == Yielded(f.trace)
  {
    if f.cursor < 0 {
      YieldedOther(f.trace, Fail(NegativeCursor));
    } else {
      AskedAndDone(f, Wait(f.delayMs));
      AskedAndDone(f, Fail(AuthorizationRequired));
      if reply.Response? {
        AskedAndDone(f, Fail(HttpStatus(reply.status)));
      }
    }
  }

  lemma {:induction false} NoBodyExactlyOnce(read: Reader, log: seq<Message>, after: int, f: Follower, reply: Reply)
    requires OnceInOrder(log, after, f)
    requires f.cursor < 0 || reply.SendFailed? || !(200 <= reply.status < 300)
    ensures OnceInOrder(log, after, Attempt(read, f, reply))
  {
    NoBodyYields(read, f, reply);
  }

  lemma {:induction false} AttemptExactlyOnce(read: Reader, log: seq<Message>, after: int, f: Follower, reply: Reply)
    requires IsLog(log) && OnceInOrder(log, after, f) && HonestReply(read, log, f.cursor, reply)
    ensures OnceInOrder(log, after, Attempt(read, f, reply))
  {
    if f.cursor < 0 || reply.SendFailed? || !(200 <= reply.status < 300) {
      NoBodyExactlyOnce(read, log, after, f, reply);
    } else {
      OtherKeepsExactlyOnce(log, after, f, Request(f.cursor));
      BodyExactlyOnce(read, log, after, f.Log([Request(f.cursor)]), reply);
    }
  }

  lemma {:induction false} BodyExactlyOnce(read: Reader, log: seq<Message>, after: int, f: Follower, reply: Reply)
    requires IsLog(log) && OnceInOrder(log, after, f)
    requires reply.Response? && HonestReply(read, log, f.cursor, reply)
    ensures OnceInOrder(log, after,
      AfterBody(f, FeedChunks(read, Reading(Conn(f.cursor, [], Open), []), reply.chunks).conn, reply.pages))
  {
    var c := Conn(f.cursor, [], Open);
    var done := FeedChunks(read, Reading(c, []), reply.chunks).conn;
    var ms := MessagesOf(read, Concat(reply.chunks));
    var n := FeedDelivers(read, c, reply.chunks);
    GapFreePrefix(log, f.cursor, ms, n);
    DeliverKeepsExactlyOnce(log, after, f, ms[..n]);
    var read := f.(cursor := done.cursor, trace := f.trace + Yields(done.yielded));
    match done.stop
    case Open => YieldedOther(read.trace, Wait(read.delayMs));
    case Resync => ResyncExactlyOnce(log, after, read, reply.pages, 0);
    case Failed(error) => YieldedOther(read.trace, Fail(error));
  }

  lemma {:induction false} RunExactlyOnce(read: Reader, log: seq<Message>, after: int, f: Follower, replies: seq<Reply>)
    requires IsLog(log) && OnceInOrder(log, after, f) && HonestRun(read, log, f, replies)
    ensures OnceInOrder(log, after, Run(read, f, replies))
    decreases |replies|
  {
    if replies != [] && !f.ended {
      AttemptExactlyOnce(read, log, after, f, replies[0]);
      RunExactlyOnce(read, log, after, Attempt(read, f, replies[0]), replies[1..]);
    }
  }

  /**
   Ordered exactly-once delivery: with any chunking, drops mid-event,
   retryable statuses and resyncs, what the stream has yielded is a prefix of
   the log above `after`, and what it has not is what stands above its cursor.
   */
  lemma {:induction false} DeliveredExactlyOnce(read: Reader, log: seq<Message>, after: I64, replies: seq<Reply>)
    requires IsLog(log) && HonestRun(read, log, Start(after), replies)
    ensures var f := Run(read, Start(after), replies);
      Yielded(f.trace) <= Above(log, after) && Yielded(f.trace) + Above(log, f.cursor) == Above(log, after)
  {
    assert [] + Above(log, after) == Above(log, after);
    RunExactlyOnce(read, log, after, Start(after), replies);
  }

  // ---------------------------------------------------------------------
  // Resyncs that reach the end of the log
  // ---------------------------------------------------------------------

  lemma {:induction false} AboveNone(log: seq<Message>, cursor: int)
    requires forall m :: m in log ==> m.sequence <= cursor
    ensures Above(log, cursor) == []
    decreases |log|
  {
    if log != [] {
      assert log[0] in log;
      AboveNone(log[1..], cursor);
    }
  }

  /** The greatest sequence on a page. */
  ghost predicate Greatest(items: seq<Message>, x: I64) {
    (exists i :: 0 <= i < |items| && items[i].sequence == x) && forall i :: 0 <= i < |items| ==> items[i].sequence <= x
  }

  /**
   Pages that are gap-free, name the last sequence they hold as the next
   cursor, above the one asked for, and end on one that holds the rest of the
   log.
   */
  ghost predicate CompletePages(log: seq<Message>, cursor: I64, pages: nat -> Option<Page>, n: nat)
    decreases I64_MAX - cursor
  {
    && pages(n).Some?
    && var Page(items, next) := pages(n).value;
      && GapFree(log, cursor, items)
      && match next
         case None => forall e :: e in log && e.sequence > cursor ==> e in items
         case Some(x) => x > cursor && Greatest(items, x) && CompletePages(log, x, pages, n + 1)
  }

  /** Delivery moves the cursor to the greatest sequence offered, if that is above it. */
  lemma {:induction false} DeliveredCursor(c: Conn, ms: seq<Message>)
    ensures var d := Deliver(c, ms);
      && d.cursor >= c.cursor
      && (forall i :: 0 <= i < |ms| ==> ms[i].sequence <= d.cursor)
      && (d.cursor == c.cursor || exists i :: 0 <= i < |ms| && ms[i].sequence == d.cursor)
    decreases |ms|
  {
    if ms != [] {
      var rest, d := ms[1..], Deliver(c, ms);
      DeliveredCursor(Offer(c, ms[0]), rest);
      assert forall i :: 0 < i < |ms| ==> ms[i] == rest[i - 1];
      if exists i :: 0 <= i < |rest| && rest[i].sequence == d.cursor {
        var i :| 0 <= i < |rest| && rest[i].sequence == d.cursor;
        assert ms[i + 1].sequence == d.cursor;
      }
    }
  }

  /** The stream has yielded all there is, and is ready to connect again. */
  ghost predicate UpToDate(log: seq<Message>, after: int, f: Follower) {
    && !f.ended
    && f.delayMs == 250
    && Above(log, f.cursor) == []
    && Yielded(f.trace) == Above(log, after)
  }

  lemma {:induction false} LastPage(log: seq<Message>, after: int, read: Follower, items: seq<Message>, cursor: int)
    requires OnceInOrder(log, after, read) && !read.ended && read.cursor >= cursor
    requires forall i :: 0 <= i < |items| ==> items[i].sequence <= read.cursor
    requires forall e :: e in log && e.sequence > cursor ==> e in items
    ensures UpToDate(log, after, read.(delayMs := 250, trace := read.trace + [Resynced]))
  {
    AboveNone(log, read.cursor);
    YieldedOther(read.trace, Resynced);
    assert Yielded(read.trace) + [] == Yielded(read.trace);
  }

  /** A resync over complete pages does not fail, and leaves nothing of the log behind. */
  lemma {:induction false} ResyncedUpToDate(
    log: seq<Message>, after: int, f: Follower, pages: nat -> Option<Page>, n: nat)
    requires IsLog(log) && OnceInOrder(log, after, f) && !f.ended
    requires CompletePages(log, f.cursor, pages, n)
    ensures UpToDate(log, after, ResyncPages(f, pages, n))
    decreases I64_MAX - f.cursor
  {
    var asked := f.Log([PageRequest(f.cursor)]);
    var Page(items, next) := pages(n).value;
    var c := Deliver(Conn(f.cursor, [], Open), items);
    var read := asked.(cursor := c.cursor, trace := asked.trace + Yields(c.yielded));
    YieldedOther(f.trace, PageRequest(f.cursor));
    DeliverKeepsExactlyOnce(log, after, asked, items);
    DeliveredCursor(Conn(f.cursor, [], Open), items);
    match next
    case None => LastPage(log, after, read, items, f.cursor);
    case Some(x) =>
      assert c.cursor == x;
      ResyncedUpToDate(log, after, read, pages, n + 1);
  }

  lemma {:induction false} BodyCaughtUp(
    log: seq<Message>, after: int, f: Follower, c: Conn, ms: seq<Message>, pages: nat -> Option<Page>)
    requires IsLog(log) && OnceInOrder(log, after, f) && !f.ended && GapFree(log, f.cursor, ms)
    requires c.(stop := Open) == Deliver(Conn(f.cursor, [], Open), ms) && c.stop.Resync?
    requires CompletePages(log, c.cursor, pages, 0)
    ensures UpToDate(log, after, AfterBody(f, c, pages))
  {
    DeliverKeepsExactlyOnce(log, after, f, ms);
    ResyncedUpToDate(log, after, f.(cursor := c.cursor, trace := f.trace + Yields(c.yielded)), pages, 0);
  }

  /** A connection that asks for a resync, followed by complete pages, brings the stream up to date. */
  lemma {:induction false} CaughtUp(read: Reader, log: seq<Message>, after: int, f: Follower, reply: Reply)
    requires IsLog(log) && OnceInOrder(log, after, f) && !f.ended && f.cursor >= 0
    requires reply.Response? && 200 <= reply.status < 300
      && GapFree(log, f.cursor, MessagesOf(read, Concat(reply.chunks)))
    requires var c := FeedChunks(read, Reading(Conn(f.cursor, [], Open), []), reply.chunks).conn;
      c.stop.Resync? && CompletePages(log, c.cursor, reply.pages, 0)
    ensures UpToDate(log, after, Attempt(read, f, reply))
  {
    var start := Conn(f.cursor, [], Open);
    var all := MessagesOf(read, Concat(reply.chunks));
    var n := FeedDelivers(read, start, reply.chunks);
    GapFreePrefix(log, f.cursor, all, n);
    OtherKeepsExactlyOnce(log, after, f, Request(f.cursor));
    var c := FeedChunks(read, Reading(start, []), reply.chunks).conn;
    BodyCaughtUp(log, after, f.Log([Request(f.cursor)]), c, all[..n], reply.pages);
  }

  /** A connection cut at any byte of a gap-free body is gap-free. */
  lemma {:induction false} CutIsGapFree(read: Reader, log: seq<Message>, cursor: I64, body: Bytes, received: Bytes)
    requires received <= body && GapFree(log, cursor, MessagesOf(read, body))
    ensures GapFree(log, cursor, MessagesOf(read, received))
  {
    var all, got := MessagesOf(read, body), MessagesOf(read, received);
    assert body == received + body[|received|..];
    MessagesOfPrefix(read, received, body[|received|..]);
    GapFreePrefix(log, cursor, all, |got|);
    assert all[..|got|] == got;
  }
}
