/**
 What a flush does item by item, how long a rejected item waits, and that the
 step system of the file outbox flushes so when nothing disturbs it.
 */
module OutboxRetry {
  import opened Wrappers
  import opened OutboxQueue
  import RustOutbox
  import ConversationOutbox
  import OutboxProtocol

  // ---------------------------------------------------------------------
  // The wait
  // ---------------------------------------------------------------------

  const WAITS: seq<nat> := [500, 1000, 2000, 4000, 8000, 16000, 32000]

  /** The milliseconds an item waits after its k-th rejection. */
  function WaitAfter(k: nat): nat
    requires k > 0
  {
    if k <= 7 then WAITS[k - 1] else 60000
  }

  /** The first failure waits half a second, each of the next six twice as long, and every later one a minute. */
  lemma {:induction false} RetryDelayLaw(k: nat)
    requires k > 0
    ensures RetryDelay(k) == WaitAfter(k)
    ensures RetryDelay(1) == 500 && RetryDelay(7) == 32000
    ensures k <= 6 ==> RetryDelay(k + 1) == 2 * RetryDelay(k)
    ensures 500 <= RetryDelay(k) <= RetryDelay(k + 1) <= 60000
    ensures k >= 8 ==> RetryDelay(k) == 60000
  {
    assert Pow2(1) == 2 && Pow2(2) == 4 && Pow2(3) == 8 && Pow2(4) == 16;
    assert Pow2(5) == 32 && Pow2(6) == 64 && Pow2(7) == 128 && Pow2(8) == 256;
  }

  function Min(a: int, b: int): int {
    if a <= b then a else b
  }

  /** A rejected item: one more attempt, due after its wait, both cut to the widths Rust gives them. */
  lemma {:induction false} RejectedInRust(item: Item, now: int, error: string)
    ensures RustOutbox.SaturatingReschedule(item, now, error) ==
      Item(item.content, Min(item.attempts + 1, 0xFFFF_FFFF),
           Min(now + WaitAfter(item.attempts + 1), 0x7FFF_FFFF_FFFF_FFFF), Some(error))
  {
    RetryDelayLaw(item.attempts + 1);
    if item.attempts >= 0xFFFF_FFFF {
      RetryDelayLaw(0xFFFF_FFFF);
    }
  }

  lemma {:induction false} RejectedInTypeScript(item: Item, now: int, error: string)
    ensures ConversationOutbox.PlainReschedule(item, now, error) ==
      Item(item.content, item.attempts + 1, now + WaitAfter(item.attempts + 1), Some(error))
  {
    RetryDelayLaw(item.attempts + 1);
  }

  datatype Rejection = Rejection(now: int, error: string)

  /** A new item after some rejections. */
  function Rejected(content: Content, enqueued: int, reschedule: Rescheduler, rs: seq<Rejection>): Item {
    if rs == [] then Item(content, 0, enqueued, None)
    else
      var last := rs[|rs| - 1];
      reschedule(Rejected(content, enqueued, reschedule, rs[..|rs| - 1]), last.now, last.error)
  }

  /** The k-th rejection of an item makes it wait the k-th wait, in the file outbox ... */
  lemma {:induction false} KthRejectionInRust(content: Content, enqueued: int, rs: seq<Rejection>)
    ensures var item := Rejected(content, enqueued, RustOutbox.SaturatingReschedule, rs);
      && item.content == content
      && item.attempts == Min(|rs|, 0xFFFF_FFFF)
      && (rs != [] ==>
            var last := rs[|rs| - 1];
            && item.nextAttemptMs == Min(last.now + WaitAfter(|rs|), 0x7FFF_FFFF_FFFF_FFFF)
            && item.lastError == Some(last.error))
    decreases |rs|
  {
    if rs != [] {
      var last := rs[|rs| - 1];
      KthRejectionInRust(content, enqueued, rs[..|rs| - 1]);
      RejectedInRust(Rejected(content, enqueued, RustOutbox.SaturatingReschedule, rs[..|rs| - 1]), last.now,
        last.error);
    }
  }

  /** ... and in the TypeScript outbox. */
  lemma {:induction false} KthRejectionInTypeScript(content: Content, enqueued: int, rs: seq<Rejection>)
    ensures var item := Rejected(content, enqueued, ConversationOutbox.PlainReschedule, rs);
      && item.content == content
      && item.attempts == |rs|
      && (rs != [] ==>
            var last := rs[|rs| - 1];
            && item.nextAttemptMs == last.now + WaitAfter(|rs|)
            && item.lastError == Some(last.error))
    decreases |rs|
  {
    if rs != [] {
      var last := rs[|rs| - 1];
      var before := rs[..|rs| - 1];
      KthRejectionInTypeScript(content, enqueued, before);
      RejectedInTypeScript(Rejected(content, enqueued, ConversationOutbox.PlainReschedule, before), last.now,
        last.error);
    }
  }

  /** MarkFailed reschedules the item at the place of its identifier and touches no other. */
  lemma {:induction false} MarkFailedSets(file: seq<Item>, maxEntries: nat, k: nat, error: string, now: int)
    requires UniqueIds(file) && k < |file| <= maxEntries
    ensures RustOutbox.MarkFailedFile(file, maxEntries, file[k].Id(), error, now, true, Replaced) ==
      RustOutbox.Applied(
        file[k := Item(file[k].content, Min(file[k].attempts + 1, 0xFFFF_FFFF),
                       Min(now + WaitAfter(file[k].attempts + 1), 0x7FFF_FFFF_FFFF_FFFF), Some(error))], Ok(()))
  {
    RejectedInRust(file[k], now, error);
    assert IndexOf(file, file[k].Id()) == k;
  }

  // ---------------------------------------------------------------------
  // One flush, place by place
  // ---------------------------------------------------------------------

  /** How many items before place `i` are due. */
  function DueBefore(items: seq<Item>, now: int, i: nat): nat
    requires i <= |items|
  {
    if i == 0 then 0 else DueBefore(items, now, i - 1) + if items[i - 1].nextAttemptMs <= now then 1 else 0
  }

  /** The items a flush submits: the first `budget` of those whose time has come. */
  predicate Submitted(items: seq<Item>, now: int, budget: nat, i: nat)
    requires i < |items|
  {
    items[i].nextAttemptMs <= now && DueBefore(items, now, i) < budget
  }

  /** What place `i` becomes: nothing when accepted, the rescheduled item when rejected, itself when not submitted. */
  function Becomes(items: seq<Item>, now: int, budget: nat, server: Server, reschedule: Rescheduler, i: nat): seq<Item>
    requires i < |items|
  {
    if !Submitted(items, now, budget, i) then [items[i]]
    else
      match server(items[i].Id())
      case Accepted => []
      case Rejected(error) => [reschedule(items[i], now, error)]
  }

  /** All places from `i` on, and how many of them are accepted. */
  function Gathered(items: seq<Item>, now: int, budget: nat, server: Server, reschedule: Rescheduler, i: nat): Flushed
    requires i <= |items|
    decreases |items| - i
  {
    if i == |items| then Flushed([], 0)
    else
      var later := Gathered(items, now, budget, server, reschedule, i + 1);
      Flushed(Becomes(items, now, budget, server, reschedule, i) + later.items,
              later.sent + if Submitted(items, now, budget, i) && server(items[i].Id()).Accepted? then 1 else 0)
  }

  lemma {:induction false} FlushFrom(
    items: seq<Item>, now: int, budget: nat, server: Server, reschedule: Rescheduler, i: nat)
    requires i <= |items|
    ensures var used := DueBefore(items, now, i);
      Flush(items[i..], now, if used < budget then budget - used else 0, server, reschedule)
        == Gathered(items, now, budget, server, reschedule, i)
    decreases |items| - i
  {
    if i < |items| {
      assert items[i..][0] == items[i] && items[i..][1..] == items[i + 1..];
      FlushFrom(items, now, budget, server, reschedule, i + 1);
    }
  }

  /** A flush answers every place on its own. */
  lemma {:induction false} FlushByPlace(
    items: seq<Item>, now: int, budget: nat, server: Server, reschedule: Rescheduler)
    ensures Flush(items, now, budget, server, reschedule) == Gathered(items, now, budget, server, reschedule, 0)
  {
    FlushFrom(items, now, budget, server, reschedule, 0);
    assert items[0..] == items;
  }

  // ---------------------------------------------------------------------
  // The step system flushes
  // ---------------------------------------------------------------------

  /** The answers of the server to a flush in progress, each recorded at once. */
  function Answers(run: nat, due: seq<Item>, server: Server): seq<OutboxProtocol.Event> {
    if due == [] then []
    else
      [OutboxProtocol.SubmitReturns(run, server(due[0].Id())), OutboxProtocol.Mark(run, true, Replaced)]
        + Answers(run, due[1..], server)
  }

  /** Two events and then the rest. */
  lemma {:induction false} RunTwoMore(
    maxEntries: nat, s: OutboxProtocol.State, a: OutboxProtocol.Event, b: OutboxProtocol.Event,
    rest: seq<OutboxProtocol.Event>)
    ensures OutboxProtocol.Run(maxEntries, s, [a, b] + rest) ==
      OutboxProtocol.Run(maxEntries, OutboxProtocol.Step(maxEntries, OutboxProtocol.Step(maxEntries, s, a), b), rest)
  {
    assert ([a, b] + rest)[1..] == [b] + rest && ([b] + rest)[1..] == rest;
  }

  lemma {:induction false} OneAnswer(
    maxEntries: nat, s: OutboxProtocol.State, run: nat, before: seq<Item>, now: int, n: nat, server: Server)
    requires UniqueIds(before) && |before| <= maxEntries && n < |AllDue(before, now)|
    requires s.file == Flush(before, now, n, server, RustOutbox.SaturatingReschedule).items
    requires run < |s.runs| && s.runs[run].queue != [] && s.runs[run].queue[0] == AllDue(before, now)[n]
    requires s.runs[run].answer.None? && s.runs[run].now == now
    ensures var item := s.runs[run].queue[0];
      var t := OutboxProtocol.Step(maxEntries, s, OutboxProtocol.SubmitReturns(run, server(item.Id())));
      var u := OutboxProtocol.Step(maxEntries, t, OutboxProtocol.Mark(run, true, Replaced));
      && u.file == Flush(before, now, n + 1, server, RustOutbox.SaturatingReschedule).items
      && u.runs == s.runs[run := OutboxProtocol.FlushRun(s.runs[run].queue[1..], now, None)]
      && u.confirmed == s.confirmed
      && u.delivered == s.delivered + if server(item.Id()).Accepted? then {item.content} else {}
  {
    var item := s.runs[run].queue[0];
    RustOutbox.StillQueued(before, now, n, server, item);
    FlushOneMore(before, now, n, server, RustOutbox.SaturatingReschedule);
    FlushConserves(before, now, n, server, RustOutbox.SaturatingReschedule);
    FlushConserves(before, now, n + 1, server, RustOutbox.SaturatingReschedule);
  }

  /** The contents a flush of these items delivers. */
  function Taken(due: seq<Item>, server: Server): set<Content> {
    set x | x in due && server(x.Id()).Accepted? :: x.content
  }

  /** A flush in progress that has answered the first n due items of `before`. */
  ghost predicate Answered(
    maxEntries: nat, s: OutboxProtocol.State, run: nat, before: seq<Item>, now: int, limit: nat, n: nat,
      server: Server) {
    && UniqueIds(before) && |before| <= maxEntries && n <= |Due(before, now, limit)|
    && s.file == Flush(before, now, n, server, RustOutbox.SaturatingReschedule).items
    && run < |s.runs| && s.runs[run] == OutboxProtocol.FlushRun(Due(before, now, limit)[n..], now, None)
  }

  /** The next answer. */
  lemma {:induction false} NextAnswer(
    maxEntries: nat, s: OutboxProtocol.State, run: nat, before: seq<Item>, now: int, limit: nat, n: nat, server: Server)
    requires Answered(maxEntries, s, run, before, now, limit, n, server) && n < |Due(before, now, limit)|
    ensures var item := Due(before, now, limit)[n];
      var t := OutboxProtocol.Step(maxEntries, s, OutboxProtocol.SubmitReturns(run, server(item.Id())));
      var u := OutboxProtocol.Step(maxEntries, t, OutboxProtocol.Mark(run, true, Replaced));
      && Answered(maxEntries, u, run, before, now, limit, n + 1, server)
      && u.runs == s.runs[run := u.runs[run]] && u.confirmed == s.confirmed
      && u.delivered == s.delivered + if server(item.Id()).Accepted? then {item.content} else {}
  {
    var due := Due(before, now, limit);
    assert AllDue(before, now)[n] == due[n] && due[n..][0] == due[n] && due[n..][1..] == due[n + 1..];
    OneAnswer(maxEntries, s, run, before, now, n, server);
  }

  lemma {:induction false} AnswersFlush(
    maxEntries: nat, s: OutboxProtocol.State, run: nat, before: seq<Item>, now: int, limit: nat, n: nat, server: Server)
    requires Answered(maxEntries, s, run, before, now, limit, n, server)
    ensures var due := Due(before, now, limit);
      var t := OutboxProtocol.Run(maxEntries, s, Answers(run, due[n..], server));
      && Answered(maxEntries, t, run, before, now, limit, |due|, server)
      && t.confirmed == s.confirmed && t.delivered == s.delivered + Taken(due[n..], server)
    decreases |Due(before, now, limit)| - n
  {
    var due := Due(before, now, limit);
    if n < |due| {
      var a, b := OutboxProtocol.SubmitReturns(run, server(due[n].Id())), OutboxProtocol.Mark(run, true, Replaced);
      var u := OutboxProtocol.Step(maxEntries, OutboxProtocol.Step(maxEntries, s, a), b);
      NextAnswer(maxEntries, s, run, before, now, limit, n, server);
      RunTwoMore(maxEntries, s, a, b, Answers(run, due[n + 1..], server));
      AnswersFlush(maxEntries, u, run, before, now, limit, n + 1, server);
      TakenCons(due[n], due[n + 1..], server);
      AnswersCons(run, due, n, server);
    }
  }

  lemma {:induction false} AnswersCons(run: nat, due: seq<Item>, n: nat, server: Server)
    requires n < |due|
    ensures due[n..] == [due[n]] + due[n + 1..]
    ensures Answers(run, due[n..], server) ==
      [OutboxProtocol.SubmitReturns(run, server(due[n].Id())), OutboxProtocol.Mark(run, true, Replaced)]
        + Answers(run, due[n + 1..], server)
  {
    assert due[n..][1..] == due[n + 1..];
  }

  lemma {:induction false} TakenCons(item: Item, later: seq<Item>, server: Server)
    ensures Taken([item] + later, server) ==
      (if server(item.Id()).Accepted? then {item.content} else {}) + Taken(later, server)
  {
  }

  /** A flush that nothing disturbs is the flush of the specification, and delivers what the server accepts. */
  lemma {:induction false} AloneFlushes(
    maxEntries: nat, s: OutboxProtocol.State, now: int, limit: nat, server: Server)
    requires OutboxProtocol.Bounded(maxEntries, s)
    ensures var due := Due(s.file, now, limit);
      var events := [OutboxProtocol.BeginFlush(now, limit, true)] + Answers(|s.runs|, due, server);
      var t := OutboxProtocol.Run(maxEntries, s, events);
      && t.file == Flush(s.file, now, limit, server, RustOutbox.SaturatingReschedule).items
      && t.delivered == s.delivered + Taken(due, server) && t.confirmed == s.confirmed
  {
    var due := Due(s.file, now, limit);
    var begin := OutboxProtocol.BeginFlush(now, limit, true);
    var t := OutboxProtocol.Step(maxEntries, s, begin);
    assert ([begin] + Answers(|s.runs|, due, server))[1..] == Answers(|s.runs|, due, server);
    FlushNothing(s.file, now, server, RustOutbox.SaturatingReschedule);
    assert due[0..] == due;
    AnswersFlush(maxEntries, t, |s.runs|, s.file, now, limit, 0, server);
    if limit >= |AllDue(s.file, now)| {
      FlushAllDue(s.file, now, limit, server, RustOutbox.SaturatingReschedule);
    }
  }

  // ---------------------------------------------------------------------
  // Enqueueing and marking, case by case
  // ---------------------------------------------------------------------

  /** What replacing the file leaves and says. */
  function Replacing(file: seq<Item>, items: seq<Item>, disk: Disk): RustOutbox.Applied {
    match disk
    case Replaced => RustOutbox.Applied(items, Ok(()))
    case ReplacedThenFailed => RustOutbox.Applied(items, Err(NotStored))
    case Unchanged => RustOutbox.Applied(file, Err(NotStored))
  }

  /** A new identifier is appended, never tried and due at once, while there is room. */
  lemma {:induction false} EnqueueNew(file: seq<Item>, maxEntries: nat, c: Content, now: int, disk: Disk)
    requires |file| <= maxEntries
    requires forall i :: 0 <= i < |file| ==> file[i].content.request.messageId != c.request.messageId
    ensures RustOutbox.EnqueueFile(file, maxEntries, c, now, true, disk) ==
      if |file| < maxEntries then Replacing(file, file + [Item(c, 0, now, None)], disk)
      else RustOutbox.Applied(file, Err(EntryLimit))
  {
  }

  /** A queued identifier absorbs its own content and refuses any other; nothing is written. */
  lemma {:induction false} EnqueueQueued(file: seq<Item>, maxEntries: nat, c: Content, now: int, disk: Disk, k: nat)
    requires |file| <= maxEntries && UniqueIds(file)
    requires k < |file| && file[k].content.request.messageId == c.request.messageId
    ensures RustOutbox.EnqueueFile(file, maxEntries, c, now, true, disk) ==
      RustOutbox.Applied(file, if file[k].content == c then Ok(()) else Err(Conflict))
  {
    assert IndexOf(file, c.request.messageId) == k;
  }

  /** A file that cannot be read is left alone by every operation. */
  lemma {:induction false} UnreadableFile(file: seq<Item>, maxEntries: nat, c: Content, id: string, error: string,
    now: int, disk: Disk)
    ensures RustOutbox.EnqueueFile(file, maxEntries, c, now, false, disk) == RustOutbox.Applied(file, Err(Unreadable))
    ensures RustOutbox.MarkSentFile(file, maxEntries, id, false, disk) == RustOutbox.Applied(file, Err(Unreadable))
    ensures RustOutbox.MarkFailedFile(file, maxEntries, id, error, now, false, disk)
         == RustOutbox.Applied(file, Err(Unreadable))
  {
  }

  /** Marking an item sent cuts it out; marking a missing one failed is an error. */
  lemma {:induction false} MarkSentCuts(file: seq<Item>, maxEntries: nat, k: nat, disk: Disk)
    requires UniqueIds(file) && k < |file| <= maxEntries
    ensures RustOutbox.MarkSentFile(file, maxEntries, file[k].Id(), true, disk)
         == Replacing(file, file[..k] + file[k + 1..], disk)
  {
    assert IndexOf(file, file[k].Id()) == k;
    ConversationOutbox.RemoveFirst(file, file[k].Id());
  }

  lemma {:induction false} MarkFailedMissing(file: seq<Item>, maxEntries: nat, id: string, error: string, now: int,
    disk: Disk)
    requires |file| <= maxEntries && forall i :: 0 <= i < |file| ==> file[i].Id() != id
    ensures RustOutbox.MarkFailedFile(file, maxEntries, id, error, now, true, disk)
         == RustOutbox.Applied(file, Err(NotFound))
  {
  }
}
