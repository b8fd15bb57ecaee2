/**
 The TypeScript outbox: it loads the queue once, edits it in memory over a
 whole flush, and saves it once. Compared with the file outbox.
 */
module ConversationOutbox {
  import opened Wrappers
  import opened Numbers
  import opened OutboxQueue
  import opened CanonicalJson
  import opened CanonicalEquality
  import RustOutbox

  datatype TsError = IdConflict | EntryLimitReached | EntryLimitExceeded | BadLimit | NotJson | StoreFailed

  /** Attempts and times do not saturate. */
  function PlainReschedule(item: Item, now: int, error: string): Item {
    item.(attempts := item.attempts + 1, nextAttemptMs := now + RetryDelay(item.attempts + 1), lastError := Some(error))
  }

  /** Requests are compared by their canonical text. */
  function EnqueuedByText(items: seq<Item>, maxEntries: nat, content: Content, now: int): Result<seq<Item>, TsError> {
    var k := IndexOf(items, content.request.messageId);
    if k < |items| then
      var existing := items[k].content;
      if existing.conversationId != content.conversationId then Err(IdConflict)
      else
        var a, b := Canonical(existing.request.body), Canonical(content.request.body);
        if a.None? || b.None? then Err(NotJson)
        else if a == b then Ok(items)
        else Err(IdConflict)
    else if |items| >= maxEntries then Err(EntryLimitReached)
    else Ok(items + [Item(content, 0, now, None)])
  }

  class ConversationOutbox {
    const maxEntries: nat
    var stored: seq<Item>

    ghost predicate Valid()
      reads this
    {
      UniqueIds(stored) && |stored| <= maxEntries
    }

    constructor (maxEntries: nat)
      ensures Valid() && stored == [] && this.maxEntries == maxEntries
    {
      this.maxEntries := maxEntries;
      stored := [];
    }

    method Load(ok: bool) returns (r: Result<seq<Item>, TsError>)
      ensures r == if !ok then Err(StoreFailed)
                   else if |stored| > maxEntries then Err(EntryLimitExceeded)
                   else Ok(stored)
    {
      if !ok {
        return Err(StoreFailed);
      }
      r := if |stored| > maxEntries then Err(EntryLimitExceeded) else Ok(stored);
    }

    method Save(items: seq<Item>, disk: Disk) returns (r: Result<(), TsError>)
      modifies this
      ensures r == if |items| > maxEntries then Err(EntryLimitExceeded)
                   else if disk.Replaced? then Ok(())
                   else Err(StoreFailed)
      ensures stored == if |items| <= maxEntries && !disk.Unchanged? then items else old(stored)
    {
      if |items| > maxEntries {
        return Err(EntryLimitExceeded);
      }
      if !disk.Unchanged? {
        stored := items;
      }
      r := if disk.Replaced? then Ok(()) else Err(StoreFailed);
    }

    method Enqueue(content: Content, now: int, loads: bool, disk: Disk) returns (r: Result<(), TsError>)
      requires Valid()
      modifies this
      ensures Valid()
      ensures var wanted := EnqueuedByText(old(stored), maxEntries, content, now);
        && stored == (if loads && wanted.Ok? && !disk.Unchanged? then wanted.value else old(stored))
        && r == if !loads then Err(StoreFailed)
                else if wanted.Err? then Err(wanted.error)
                else if disk.Replaced? || wanted.value == old(stored) then Ok(())
                else Err(StoreFailed)
    {
      var items :- Load(loads);
      var k := IndexOf(items, content.request.messageId);
      if k < |items| {
        var existing := items[k].content;
        if existing.conversationId != content.conversationId {
          return Err(IdConflict);
        }
        var a, b := Canonical(existing.request.body), Canonical(content.request.body);
        if a.None? || b.None? {
          return Err(NotJson);
        }
        if a == b {
          return Ok(());
        }
        return Err(IdConflict);
      }
      if |items| >= maxEntries {
        return Err(EntryLimitReached);
      }
      r := Save(items + [Item(content, 0, now, None)], disk);
    }

    /** Submits the due items, edits the loaded queue in place, saves it once. */
    method Flush(now: int, limit: int, server: Server, loads: bool, disk: Disk) returns (r: Result<nat, TsError>)
      requires Valid()
      modifies this
      ensures Valid()
      ensures limit <= 0 || !loads ==>
        stored == old(stored) && r == Err(if limit <= 0 then BadLimit else StoreFailed)
      ensures limit > 0 && loads ==>
        var f := OutboxQueue.Flush(old(stored), now, limit, server, PlainReschedule);
        && stored == (if disk.Unchanged? then old(stored) else f.items)
        && r == if disk.Replaced? then Ok(f.sent) else Err(StoreFailed)
    {
      if limit <= 0 {
        return Err(BadLimit);
      }
      var items :- Load(loads);
      FlushUnique(items, now, limit, server, PlainReschedule);
      FlushConserves(items, now, limit, server, PlainReschedule);
      var sent;
      items, sent := SubmitDue(items, now, limit, server);
      var saved := Save(items, disk);
      if saved.Err? {
        return Err(saved.error);
      }
      r := Ok(sent);
    }
  }

  /** The loop of a flush, which edits the loaded queue. */
  method SubmitDue(loaded: seq<Item>, now: int, limit: nat, server: Server) returns (items: seq<Item>, sent: nat)
    requires UniqueIds(loaded)
    ensures Flushed(items, sent) == OutboxQueue.Flush(loaded, now, limit, server, PlainReschedule)
  {
    items, sent := loaded, 0;
    var due := Due(items, now, limit);
    FlushNothing(loaded, now, server, PlainReschedule);
    for n := 0 to |due|
      invariant Flushed(items, sent) == OutboxQueue.Flush(loaded, now, n, server, PlainReschedule)
    {
      var id := due[n].Id();
      QueuedAt(loaded, now, n, server, due[n]);
      FlushOneMore(loaded, now, n, server, PlainReschedule);
      var k := IndexOf(items, id);
      match server(id) {
        case Accepted =>
          RemoveFirst(items, id);
          items := items[..k] + items[k + 1..];
          sent := sent + 1;
        case Rejected(error) =>
          items := items[k := PlainReschedule(items[k], now, error)];
      }
    }
    if limit >= |AllDue(loaded, now)| {
      FlushAllDue(loaded, now, limit, server, PlainReschedule);
    }
  }

  lemma {:induction false} FlushUnique(items: seq<Item>, now: int, budget: nat, server: Server, reschedule: Rescheduler)
    requires UniqueIds(items) && KeepsContent(reschedule)
    ensures UniqueIds(Flush(items, now, budget, server, reschedule).items)
    decreases |items|
  {
    if items != [] {
      var b := if items[0].nextAttemptMs <= now && budget > 0 then budget - 1 else budget;
      var rest := Flush(items[1..], now, b, server, reschedule).items;
      FlushUnique(items[1..], now, b, server, reschedule);
      FlushKeepsContents(items[1..], now, b, server, reschedule);
      forall j | 0 <= j < |rest|
        ensures rest[j].Id() != items[0].Id()
      {
        assert rest[j] in rest;
        var i :| 0 <= i < |items[1..]| && items[1..][i].content == rest[j].content;
        assert items[i + 1].Id() == rest[j].Id();
      }
    }
  }

  /** Cutting out the first item with an identifier removes all of them. */
  lemma {:induction false} RemoveFirst(items: seq<Item>, id: string)
    requires UniqueIds(items) && IndexOf(items, id) < |items|
    ensures var k := IndexOf(items, id); items[..k] + items[k + 1..] == Without(items, id)
    decreases |items|
  {
    var k := IndexOf(items, id);
    if k == 0 {
      assert forall i :: 0 <= i < |items[1..]| ==> items[1..][i] == items[i + 1];
      WithoutMissing(items[1..], id);
    } else {
      RemoveFirst(items[1..], id);
      assert items[..k] + items[k + 1..] == [items[0]] + (items[1..][..k - 1] + items[1..][k..]);
    }
  }

  lemma {:induction false} QueuedAt(before: seq<Item>, now: int, n: nat, server: Server, item: Item)
    requires UniqueIds(before) && n < |AllDue(before, now)| && item == AllDue(before, now)[n]
    ensures var items := Flush(before, now, n, server, PlainReschedule).items;
      UniqueIds(items) && IndexOf(items, item.Id()) < |items|
  {
    var items := Flush(before, now, n, server, PlainReschedule).items;
    FlushUnique(before, now, n, server, PlainReschedule);
    NotYetFlushed(before, now, n, server, PlainReschedule);
    var i :| 0 <= i < |items| && items[i] == item;
    assert IndexOf(items, item.Id()) <= i;
  }

  // ---------------------------------------------------------------------
  // The two outboxes compared
  // ---------------------------------------------------------------------

  /** A failed attempt now fits the 32-bit counter and the 64-bit clock. */
  predicate RoomToFail(item: Item, now: int) {
    item.attempts < U32_MAX && now + RetryDelay(item.attempts + 1) <= I64_MAX
  }

  lemma {:induction false} ReschedulesAgree(item: Item, now: int, error: string)
    ensures RustOutbox.SaturatingReschedule(item, now, error) == PlainReschedule(item, now, error)
      <==> RoomToFail(item, now)
  {
  }

  /** Every due item the server rejects can still be counted and dated. */
  ghost predicate CountersLeft(due: seq<Item>, server: Server, now: int) {
    forall k :: 0 <= k < |due| && server(due[k].Id()).Rejected? ==> RoomToFail(due[k], now)
  }

  lemma {:induction false} CountersLeftCons(item: Item, later: seq<Item>, server: Server, now: int)
    ensures CountersLeft([item] + later, server, now) <==>
      (server(item.Id()).Rejected? ==> RoomToFail(item, now)) && CountersLeft(later, server, now)
  {
    var due := [item] + later;
    assert due[0] == item;
    assert forall k :: 0 <= k < |later| ==> due[k + 1] == later[k];
  }

  lemma {:induction false} SameQueues(x: Item, xs: seq<Item>, y: Item, ys: seq<Item>)
    ensures [x] + xs == [y] + ys <==> x == y && xs == ys
  {
    assert ([x] + xs)[0] == x && ([x] + xs)[1..] == xs && ([y] + ys)[0] == y && ([y] + ys)[1..] == ys;
  }

  /**
   Both flushes give the same queue and the same count for the same server
   answers exactly when the attempt counter and the next time of every
   rejected item fit the widths Rust gives them.
   */
  lemma {:induction false} FlushesAgree(items: seq<Item>, now: int, budget: nat, server: Server)
    ensures Flush(items, now, budget, server, RustOutbox.SaturatingReschedule)
         == Flush(items, now, budget, server, PlainReschedule)
      <==> CountersLeft(Due(items, now, budget), server, now)
    decreases |items|
  {
    if items != [] {
      var item, rest := items[0], items[1..];
      var taken := item.nextAttemptMs <= now && budget > 0;
      var b := if taken then budget - 1 else budget;
      var a, c :=
        Flush(rest, now, b, server, RustOutbox.SaturatingReschedule),
        Flush(rest, now, b, server, PlainReschedule);
      FlushesAgree(rest, now, b, server);
      SentCountsAgree(rest, now, b, server, RustOutbox.SaturatingReschedule, PlainReschedule);
      if taken {
        assert Due(items, now, budget) == [item] + Due(rest, now, b);
        CountersLeftCons(item, Due(rest, now, b), server, now);
        if server(item.Id()).Rejected? {
          var error := server(item.Id()).error;
          ReschedulesAgree(item, now, error);
          SameQueues(
            RustOutbox.SaturatingReschedule(item, now, error), a.items, PlainReschedule(item, now, error), c.items);
        }
      } else {
        assert Due(items, now, budget) == Due(rest, now, budget);
        SameQueues(item, a.items, item, c.items);
      }
    }
  }

  /** They differ on an item whose counter is full. */
  lemma {:induction false} FlushesDiffer(content: Content, now: int, error: string)
    ensures var items, server: Server := [Item(content, U32_MAX, now, None)], (id => Rejected(error));
      Flush(items, now, 1, server, RustOutbox.SaturatingReschedule) != Flush(items, now, 1, server, PlainReschedule)
  {
    var item := Item(content, U32_MAX, now, None);
    var server: Server := id => Rejected(error);
    assert Due([item], now, 1)[0] == item && !RoomToFail(item, now);
    FlushesAgree([item], now, 1, server);
  }

  /** Sent counts agree even then. */
  lemma {:induction false} SentCountsAgree(
    items: seq<Item>, now: int, budget: nat, server: Server, r: Rescheduler, q: Rescheduler)
    ensures Flush(items, now, budget, server, r).sent == Flush(items, now, budget, server, q).sent
    decreases |items|
  {
    if items != [] {
      SentCountsAgree(items[1..], now, budget, server, r, q);
      if budget > 0 {
        SentCountsAgree(items[1..], now, budget - 1, server, r, q);
      }
    }
  }

  lemma {:induction false} TextsDecide(v: Json, w: Json)
    requires WellFormed(v) && WellFormed(w) && Serializable(v) && Serializable(w)
    ensures Canonical(v).Some? && Canonical(w).Some? && (Canonical(v) == Canonical(w) <==> Same(v, w))
  {
    CanonicalIffSerializable(v);
    CanonicalIffSerializable(w);
    CanonicalDecidesEquality(v, w);
  }

  /** A queued identifier refuses another conversation, and throws when one of the two requests is not JSON. */
  lemma {:induction false} NotComparable(items: seq<Item>, k: nat, maxEntries: nat, content: Content, now: int)
    requires k == IndexOf(items, content.request.messageId) < |items|
    ensures var existing, r := items[k].content, EnqueuedByText(items, maxEntries, content, now);
      if existing.conversationId != content.conversationId then r == Err(IdConflict)
      else !Serializable(existing.request.body) || !Serializable(content.request.body) ==> r == Err(NotJson)
  {
    CanonicalIffSerializable(items[k].content.request.body);
    CanonicalIffSerializable(content.request.body);
  }

  /**
   An identifier that is queued is absorbed exactly when the conversation and
   the JSON value of the request are the same.
   */
  lemma {:induction false} AbsorbsExactlySame(items: seq<Item>, k: nat, maxEntries: nat, content: Content, now: int)
    requires k == IndexOf(items, content.request.messageId) < |items|
    requires WellFormed(items[k].content.request.body) && Serializable(items[k].content.request.body)
    requires WellFormed(content.request.body) && Serializable(content.request.body)
    ensures var existing := items[k].content;
      EnqueuedByText(items, maxEntries, content, now) ==
        if existing.conversationId == content.conversationId && Same(existing.request.body, content.request.body)
        then Ok(items) else Err(IdConflict)
  {
    TextsDecide(items[k].content.request.body, content.request.body);
  }
}
