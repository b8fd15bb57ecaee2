/**
 The resumable conversation stream: one cursor followed over connections that
 drop anywhere, answer with retryable statuses, or ask for a resync through
 paged reads. The network is the input: a list of replies, one for each
 connection attempt.
 */
module EventStream {
  import opened Wrappers
  import opened Ordering
  import opened SseSplitter
  import opened EventConnection

  const FIRST_DELAY_MS: nat := 250
  const MAX_DELAY_MS: nat := 30000

  datatype Page = Page(items: seq<Message>, nextCursor: Option<I64>)

  /** What one connection attempt meets; `pages(n)` answers the n-th page request of a resync. */
  datatype Reply =
    | SendFailed
    | Response(status: nat, chunks: seq<Bytes>, pages: nat -> Option<Page>)

  datatype Action =
    | Request(after: int)
    | PageRequest(after: int)
    | Yield(message: Message)
    | Wait(ms: nat)
    | Resynced
    | Fail(error: StreamError)

  datatype Follower = Follower(cursor: I64, delayMs: nat, trace: seq<Action>, ended: bool) {
    function Log(actions: seq<Action>): Follower {
      this.(trace := trace + actions)
    }

    function End(error: StreamError): Follower {
      this.(trace := trace + [Fail(error)], ended := true)
    }

    /** Sleeps, then doubles the delay up to the cap. */
    function BackOff(): Follower {
      this.(trace := trace + [Wait(delayMs)],
            delayMs := if 2 * delayMs < MAX_DELAY_MS then 2 * delayMs else MAX_DELAY_MS)
    }
  }

  function Start(after: I64): Follower {
    Follower(after, FIRST_DELAY_MS, [], false)
  }

  function Yields(ms: seq<Message>): (actions: seq<Action>)
    ensures |actions| == |ms| && forall i :: 0 <= i < |ms| ==> actions[i] == Yield(ms[i])
  {
    seq(|ms|, i requires 0 <= i < |ms| => Yield(ms[i]))
  }

  lemma {:induction false} DeliverRaises(c: Conn, ms: seq<Message>)
    ensures Deliver(c, ms).cursor >= c.cursor && Deliver(c, ms).stop == c.stop
    decreases |ms|
  {
    if ms != [] {
      DeliverRaises(Offer(c, ms[0]), ms[1..]);
    }
  }

  /** Reads pages until one has no next cursor; every continuing page must raise the cursor. */
  function ResyncPages(f: Follower, pages: nat -> Option<Page>, n: nat): Follower
    decreases I64_MAX - f.cursor
  {
    var asked := f.Log([PageRequest(f.cursor)]);
    match pages(n)
    case None => asked.End(PageFailed)
    case Some(Page(items, nextCursor)) =>
      var c := Deliver(Conn(f.cursor, [], Open), items);
      var read := asked.(cursor := c.cursor, trace := asked.trace + Yields(c.yielded));
      if nextCursor.None? then read.(delayMs := FIRST_DELAY_MS, trace := read.trace + [Resynced])
      else if c.cursor <= f.cursor || nextCursor.value != c.cursor then read.End(IncoherentPage)
      else ResyncPages(read, pages, n + 1)
  }

  predicate Retryable(status: nat) {
    status == 408 || status == 429 || 500 <= status < 600
  }

  function AfterBody(f: Follower, c: Conn, pages: nat -> Option<Page>): Follower {
    var read := f.(cursor := c.cursor, trace := f.trace + Yields(c.yielded));
    match c.stop
    case Open => read.BackOff()
    case Resync => ResyncPages(read, pages, 0)
    case Failed(error) => read.End(error)
  }

  /** One turn of the reconnect loop. */
  function Attempt(read: Reader, f: Follower, reply: Reply): Follower {
    if f.cursor < 0 then f.End(NegativeCursor)
    else
      var asked := f.Log([Request(f.cursor)]);
      match reply
      case SendFailed => asked.BackOff()
      case Response(status, chunks, pages) =>
        if status == 401 || status == 403 then asked.End(AuthorizationRequired)
        else if 200 <= status < 300 then
          AfterBody(asked, FeedChunks(read, Reading(Conn(f.cursor, [], Open), []), chunks).conn, pages)
        else if Retryable(status) then asked.BackOff()
        else asked.End(HttpStatus(status))
  }

  function Run(read: Reader, f: Follower, replies: seq<Reply>): Follower
    decreases |replies|
  {
    if replies == [] || f.ended then f else Run(read, Attempt(read, f, replies[0]), replies[1..])
  }

  // ---------------------------------------------------------------------
  // Safety against any server
  // ---------------------------------------------------------------------

  function LastYield(after: int, trace: seq<Action>): int {
    if trace == [] then after
    else
      var last := trace[|trace| - 1];
      if last.Yield? then last.message.sequence else LastYield(after, trace[..|trace| - 1])
  }

  /** Waits since the start or the last resync. */
  function Waits(trace: seq<Action>): nat {
    if trace == [] then 0
    else
      var last := trace[|trace| - 1];
      var before := trace[..|trace| - 1];
      if last.Resynced? then 0 else if last.Wait? then 1 + Waits(before) else Waits(before)
  }

  function Pow2(k: nat): nat {
    if k == 0 then 1 else 2 * Pow2(k - 1)
  }

  function Delay(k: nat): nat {
    if 250 * Pow2(k) < 30000 then 250 * Pow2(k) else 30000
  }

  ghost predicate ActionOk(after: int, before: seq<Action>, a: Action) {
    match a
    case Yield(m) => m.sequence > LastYield(after, before)
    case Request(from) => from == LastYield(after, before)
    case PageRequest(from) => from == LastYield(after, before)
    case Wait(ms) => ms == Delay(Waits(before))
    case Resynced => true
    case Fail(_) => true
  }

  ghost predicate TraceOk(after: int, trace: seq<Action>) {
    trace == [] ||
    (var before := trace[..|trace| - 1];
     TraceOk(after, before) && ActionOk(after, before, trace[|trace| - 1]))
  }

  ghost predicate Tracked(after: int, f: Follower) {
    && TraceOk(after, f.trace)
    && f.cursor == LastYield(after, f.trace)
    && f.delayMs == Delay(Waits(f.trace))
  }

  lemma {:induction false} TraceOkSnoc(after: int, trace: seq<Action>, a: Action)
    requires TraceOk(after, trace) && ActionOk(after, trace, a)
    ensures TraceOk(after, trace + [a])
    ensures LastYield(after, trace + [a]) == if a.Yield? then a.message.sequence else LastYield(after, trace)
    ensures Waits(trace + [a]) == if a.Resynced? then 0 else if a.Wait? then 1 + Waits(trace) else Waits(trace)
  {
  }

  lemma {:induction false} DeliverTracked(after: int, f: Follower, c: Conn, ms: seq<Message>)
    requires Tracked(after, f.(cursor := c.cursor, trace := f.trace + Yields(c.yielded)))
    ensures var d := Deliver(c, ms);
      Tracked(after, f.(cursor := d.cursor, trace := f.trace + Yields(d.yielded)))
    decreases |ms|
  {
    if ms != [] {
      var d := Offer(c, ms[0]);
      if ms[0].sequence > c.cursor {
        assert Yields(d.yielded) == Yields(c.yielded) + [Yield(ms[0])];
        assert f.trace + Yields(d.yielded) == f.trace + Yields(c.yielded) + [Yield(ms[0])];
        TraceOkSnoc(after, f.trace + Yields(c.yielded), Yield(ms[0]));
      }
      DeliverTracked(after, f, d, ms[1..]);
    }
  }

  lemma {:induction false} DeliverAllTracked(after: int, f: Follower, ms: seq<Message>)
    requires Tracked(after, f)
    ensures var d := Deliver(Conn(f.cursor, [], Open), ms);
      Tracked(after, f.(cursor := d.cursor, trace := f.trace + Yields(d.yielded)))
  {
    assert f.trace + Yields([]) == f.trace;
    DeliverTracked(after, f, Conn(f.cursor, [], Open), ms);
  }

  lemma {:induction false} BackOffTracked(after: int, f: Follower)
    requires Tracked(after, f)
    ensures Tracked(after, f.BackOff())
  {
  }

  lemma {:induction false} ResyncTracked(after: int, f: Follower, pages: nat -> Option<Page>, n: nat)
    requires Tracked(after, f)
    ensures Tracked(after, ResyncPages(f, pages, n))
    decreases I64_MAX - f.cursor
  {
    var asked := f.Log([PageRequest(f.cursor)]);
    TraceOkSnoc(after, f.trace, PageRequest(f.cursor));
    match pages(n)
    case None => TraceOkSnoc(after, asked.trace, Fail(PageFailed));
    case Some(Page(items, nextCursor)) =>
      var c := Deliver(Conn(f.cursor, [], Open), items);
      var read := asked.(cursor := c.cursor, trace := asked.trace + Yields(c.yielded));
      DeliverAllTracked(after, asked, items);
      if nextCursor.None? {
        TraceOkSnoc(after, read.trace, Resynced);
      } else if c.cursor <= f.cursor || nextCursor.value != c.cursor {
        TraceOkSnoc(after, read.trace, Fail(IncoherentPage));
      } else {
        ResyncTracked(after, read, pages, n + 1);
      }
  }

  lemma {:induction false} EndTracked(after: int, f: Follower, error: StreamError)
    requires Tracked(after, f)
    ensures Tracked(after, f.End(error))
  {
  }

  lemma {:induction false} BodyTracked(
    read: Reader, after: int, f: Follower, chunks: seq<Bytes>, pages: nat -> Option<Page>)
    requires Tracked(after, f)
    ensures Tracked(after, AfterBody(f, FeedChunks(read, Reading(Conn(f.cursor, [], Open), []), chunks).conn, pages))
  {
    var done := FeedChunks(read, Reading(Conn(f.cursor, [], Open), []), chunks).conn;
    var n := FeedDelivers(read, Conn(f.cursor, [], Open), chunks);
    DeliverAllTracked(after, f, MessagesOf(read, Concat(chunks))[..n]);
    var got := f.(cursor := done.cursor, trace := f.trace + Yields(done.yielded));
    match done.stop
    case Open => BackOffTracked(after, got);
    case Resync => ResyncTracked(after, got, pages, 0);
    case Failed(error) => EndTracked(after, got, error);
  }

  lemma {:induction false} AttemptTracked(read: Reader, after: int, f: Follower, reply: Reply)
    requires Tracked(after, f)
    ensures Tracked(after, Attempt(read, f, reply))
  {
    EndTracked(after, f, NegativeCursor);
    TraceOkSnoc(after, f.trace, Request(f.cursor));
    var asked := f.Log([Request(f.cursor)]);
    BackOffTracked(after, asked);
    match reply
    case SendFailed =>
    case Response(status, chunks, pages) =>
      EndTracked(after, asked, AuthorizationRequired);
      EndTracked(after, asked, HttpStatus(status));
      BodyTracked(read, after, asked, chunks, pages);
  }

  /**
   Whatever the server sends: yielded sequences rise strictly from `after`,
   every request and every page request asks from the last yielded sequence,
   and the k-th wait since the start or a resync is min(250 * 2^k, 30000).
   */
  lemma {:induction false} RunSafe(read: Reader, after: int, f: Follower, replies: seq<Reply>)
    requires Tracked(after, f)
    ensures Tracked(after, Run(read, f, replies))
    decreases |replies|
  {
    if replies != [] && !f.ended {
      AttemptTracked(read, after, f, replies[0]);
      RunSafe(read, after, Attempt(read, f, replies[0]), replies[1..]);
    }
  }

  function Yielded(trace: seq<Action>): seq<Message> {
    if trace == [] then []
    else
      var last := trace[|trace| - 1];
      Yielded(trace[..|trace| - 1]) + (if last.Yield? then [last.message] else [])
  }

  ghost predicate Rising(after: int, ms: seq<Message>) {
    && (forall i :: 0 <= i < |ms| ==> ms[i].sequence > after)
    && (forall i, j :: 0 <= i < j < |ms| ==> ms[i].sequence < ms[j].sequence)
  }

  lemma {:induction false} TraceYieldsRise(after: int, trace: seq<Action>)
    requires TraceOk(after, trace)
    ensures Rising(after, Yielded(trace))
    ensures LastYield(after, trace) ==
      if Yielded(trace) == [] then after else Yielded(trace)[|Yielded(trace)| - 1].sequence
    decreases |trace|
  {
    if trace != [] {
      TraceYieldsRise(after, trace[..|trace| - 1]);
    }
  }

  /** Every stream yields each sequence at most once, in order, against any server. */
  lemma {:induction false} YieldsRise(read: Reader, after: I64, replies: seq<Reply>)
    ensures Rising(after, Yielded(Run(read, Start(after), replies).trace))
  {
    RunSafe(read, after, Start(after), replies);
    TraceYieldsRise(after, Run(read, Start(after), replies).trace);
  }

  function PageRequests(trace: seq<Action>): nat {
    if trace == [] then 0
    else PageRequests(trace[..|trace| - 1]) + (if trace[|trace| - 1].PageRequest? then 1 else 0)
  }

  lemma {:induction false} PageRequestsAppend(s: seq<Action>, t: seq<Action>)
    ensures PageRequests(s + t) == PageRequests(s) + PageRequests(t)
    decreases |t|
  {
    if t == [] {
      assert s + t == s;
    } else {
      assert (s + t)[..|s + t| - 1] == s + t[..|t| - 1];
      PageRequestsAppend(s, t[..|t| - 1]);
    }
  }

  lemma {:induction false} NoPageRequests(t: seq<Action>)
    requires forall i :: 0 <= i < |t| ==> !t[i].PageRequest?
    ensures PageRequests(t) == 0
    decreases |t|
  {
    if t != [] {
      NoPageRequests(t[..|t| - 1]);
    }
  }

  /** A resync asks at most one page more than it raises the cursor by. */
  lemma {:induction false} ResyncBounded(f: Follower, pages: nat -> Option<Page>, n: nat)
    ensures var g := ResyncPages(f, pages, n);
      && g.cursor >= f.cursor
      && PageRequests(g.trace) <= PageRequests(f.trace) + 1 + (g.cursor - f.cursor)
    decreases I64_MAX - f.cursor
  {
    var asked := f.Log([PageRequest(f.cursor)]);
    assert asked.trace[..|asked.trace| - 1] == f.trace;
    if pages(n).None? {
      PageRequestsAppend(asked.trace, [Fail(PageFailed)]);
    } else {
      var Page(items, nextCursor) := pages(n).value;
      var c := Deliver(Conn(f.cursor, [], Open), items);
      DeliverRaises(Conn(f.cursor, [], Open), items);
      var read := asked.(cursor := c.cursor, trace := asked.trace + Yields(c.yielded));
      PageRequestsAppend(asked.trace, Yields(c.yielded));
      NoPageRequests(Yields(c.yielded));
      PageRequestsAppend(read.trace, [Resynced]);
      PageRequestsAppend(read.trace, [Fail(IncoherentPage)]);
      if nextCursor.Some? && c.cursor > f.cursor && nextCursor.value == c.cursor {
        ResyncBounded(read, pages, n + 1);
      }
    }
  }
}
