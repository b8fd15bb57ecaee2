/**
 The durable outbox queue: what an item is, what enqueueing and one flush do
 to the queue, and the facts both implementations share.
 */
module OutboxQueue {
  import opened Wrappers
  import opened CanonicalJson

  const I64_MAX: int := 0x7FFF_FFFF_FFFF_FFFF

  /** A signed request; `body` is all of it as JSON. */
  datatype SubmitRequest = SubmitRequest(messageId: string, body: Json)

  /** What a message identifier is bound to. */
  datatype Content = Content(conversationId: string, request: SubmitRequest)

  datatype Item = Item(
    content: Content,
    attempts: nat,
    nextAttemptMs: int,
    lastError: Option<string>
  ) {
    function Id(): string {
      content.request.messageId
    }
  }

  /** What the server answered to one submit. */
  datatype Outcome = Accepted | Rejected(error: string)

  datatype OutboxError = Conflict | EntryLimit | NotFound | Unreadable | NotStored

  /** Replacing the stored queue succeeds, fails and leaves it replaced all the same, or fails and leaves it alone. */
  datatype Disk = Replaced | ReplacedThenFailed | Unchanged

  ghost predicate HasContent(items: seq<Item>, c: Content) {
    exists i :: 0 <= i < |items| && items[i].content == c
  }

  ghost predicate UniqueIds(items: seq<Item>) {
    forall i, j :: 0 <= i < j < |items| ==> items[i].Id() != items[j].Id()
  }

  // ---------------------------------------------------------------------
  // Edits of the queue
  // ---------------------------------------------------------------------

  /** The first position of a message identifier, or the length. */
  function IndexOf(items: seq<Item>, id: string): (k: nat)
    ensures k <= |items| && (k < |items| ==> items[k].Id() == id)
    ensures forall i :: 0 <= i < k ==> items[i].Id() != id
  {
    if items == [] || items[0].Id() == id then 0 else 1 + IndexOf(items[1..], id)
  }

  /** All items but those with the identifier. */
  function Without(items: seq<Item>, id: string): seq<Item> {
    if items == [] then []
    else (if items[0].Id() == id then [] else [items[0]]) + Without(items[1..], id)
  }

  type Rescheduler = (Item, int, string) -> Item

  /** The wait after a failure, when `attempts` submits have failed. */
  function RetryDelay(attempts: nat): nat {
    var doubled := 250 * Pow2(if attempts < 8 then attempts else 8);
    if doubled < 60000 then doubled else 60000
  }

  function Pow2(k: nat): nat {
    if k == 0 then 1 else 2 * Pow2(k - 1)
  }

  /** Reschedules the first item with the identifier. */
  function Failed(items: seq<Item>, id: string, reschedule: Rescheduler, now: int, error: string): seq<Item> {
    var k := IndexOf(items, id);
    if k < |items| then items[k := reschedule(items[k], now, error)] else items
  }

  /** Enqueueing: repeats of one request are absorbed, reuse of an identifier is refused. */
  function Enqueued(items: seq<Item>, maxEntries: nat, content: Content, same: (Content, Content) -> bool, now: int)
    : Result<seq<Item>, OutboxError>
  {
    var k := IndexOf(items, content.request.messageId);
    if k < |items| then
      if same(items[k].content, content) then Ok(items) else Err(Conflict)
    else if |items| >= maxEntries then Err(EntryLimit)
    else Ok(items + [Item(content, 0, now, None)])
  }

  function AllDue(items: seq<Item>, now: int): seq<Item> {
    if items == [] then []
    else (if items[0].nextAttemptMs <= now then [items[0]] else []) + AllDue(items[1..], now)
  }

  function Due(items: seq<Item>, now: int, limit: nat): (due: seq<Item>)
    ensures due <= AllDue(items, now)
    ensures |due| == if limit < |AllDue(items, now)| then limit else |AllDue(items, now)|
  {
    var all := AllDue(items, now);
    if limit < |all| then all[..limit] else all
  }

  // ---------------------------------------------------------------------
  // One flush, as one pass over the queue
  // ---------------------------------------------------------------------

  datatype Flushed = Flushed(items: seq<Item>, sent: nat)

  type Server = string -> Outcome

  /** The first `budget` due items are submitted: accepted ones leave, rejected ones stay in place, rescheduled. */
  function Flush(items: seq<Item>, now: int, budget: nat, server: Server, reschedule: Rescheduler): Flushed {
    if items == [] then Flushed([], 0)
    else
      var item := items[0];
      if item.nextAttemptMs <= now && budget > 0 then
        var rest := Flush(items[1..], now, budget - 1, server, reschedule);
        match server(item.Id())
        case Accepted => Flushed(rest.items, rest.sent + 1)
        case Rejected(error) => Flushed([reschedule(item, now, error)] + rest.items, rest.sent)
      else
        var rest := Flush(items[1..], now, budget, server, reschedule);
        Flushed([item] + rest.items, rest.sent)
  }

  /** Rescheduling never changes what the item carries. */
  ghost predicate KeepsContent(reschedule: Rescheduler) {
    forall item, now, error :: reschedule(item, now, error).content == item.content
  }

  lemma {:induction false} FlushNothing(items: seq<Item>, now: int, server: Server, reschedule: Rescheduler)
    ensures Flush(items, now, 0, server, reschedule) == Flushed(items, 0)
    decreases |items|
  {
    if items != [] {
      FlushNothing(items[1..], now, server, reschedule);
      assert items == [items[0]] + items[1..];
    }
  }

  /** A budget beyond the due items changes nothing. */
  lemma {:induction false} FlushAllDue(items: seq<Item>, now: int, budget: nat, server: Server, reschedule: Rescheduler)
    requires budget >= |AllDue(items, now)|
    ensures Flush(items, now, budget, server, reschedule)
         == Flush(items, now, |AllDue(items, now)|, server, reschedule)
    decreases |items|
  {
    if items != [] {
      if items[0].nextAttemptMs <= now {
        FlushAllDue(items[1..], now, budget - 1, server, reschedule);
      } else {
        FlushAllDue(items[1..], now, budget, server, reschedule);
      }
    }
  }

  lemma {:induction false} WithoutMissing(items: seq<Item>, id: string)
    requires forall i :: 0 <= i < |items| ==> items[i].Id() != id
    ensures Without(items, id) == items
    decreases |items|
  {
    if items != [] {
      WithoutMissing(items[1..], id);
      assert items == [items[0]] + items[1..];
    }
  }

  /** Every item of a flushed queue carries what an item of the queue carried. */
  lemma {:induction false} FlushKeepsContents(
    items: seq<Item>, now: int, budget: nat, server: Server, reschedule: Rescheduler)
    requires KeepsContent(reschedule)
    ensures forall x :: x in Flush(items, now, budget, server, reschedule).items ==>
      exists i :: 0 <= i < |items| && items[i].content == x.content
    decreases |items|
  {
    if items != [] {
      var rest := items[1..];
      FlushKeepsContents(rest, now, budget, server, reschedule);
      if budget > 0 {
        FlushKeepsContents(rest, now, budget - 1, server, reschedule);
      }
      forall x | x in Flush(items, now, budget, server, reschedule).items
        ensures exists i :: 0 <= i < |items| && items[i].content == x.content
      {
        if i :| 0 <= i < |rest| && rest[i].content == x.content {
          assert items[i + 1].content == x.content;
        } else {
          assert items[0].content == x.content;
        }
      }
    }
  }

  lemma {:induction false} DueFirst(items: seq<Item>, now: int, budget: nat)
    requires items != []
    ensures Due(items, now, budget) ==
      if items[0].nextAttemptMs <= now && budget > 0 then [items[0]] + Due(items[1..], now, budget - 1)
      else Due(items[1..], now, budget)
  {
  }

  lemma {:induction false} HasContentLater(front: seq<Item>, items: seq<Item>, c: Content)
    requires HasContent(items, c)
    ensures HasContent(front + items, c)
  {
    var k :| 0 <= k < |items| && items[k].content == c;
    assert (front + items)[|front| + k] == items[k];
  }

  /** What a flush makes of the first item, before what it makes of the rest. */
  function Front(items: seq<Item>, now: int, budget: nat, server: Server, reschedule: Rescheduler): (front: seq<Item>)
    requires items != []
  {
    if !(items[0].nextAttemptMs <= now && budget > 0) then [items[0]]
    else
      match server(items[0].Id())
      case Accepted => []
      case Rejected(error) => [reschedule(items[0], now, error)]
  }

  lemma {:induction false} FlushFront(items: seq<Item>, now: int, budget: nat, server: Server, reschedule: Rescheduler)
    requires items != []
    ensures var b := if items[0].nextAttemptMs <= now && budget > 0 then budget - 1 else budget;
      Flush(items, now, budget, server, reschedule).items
        == Front(items, now, budget, server, reschedule) + Flush(items[1..], now, b, server, reschedule).items
  {
  }

  /** Content leaves a queue only by being accepted. */
  lemma {:induction false} FlushKeepsUnaccepted(
    items: seq<Item>, now: int, budget: nat, server: Server, reschedule: Rescheduler, i: nat)
    requires i < |items| && KeepsContent(reschedule)
    ensures HasContent(Flush(items, now, budget, server, reschedule).items, items[i].content)
      || (items[i] in Due(items, now, budget) && server(items[i].Id()).Accepted?)
    decreases |items|
  {
    var b := if items[0].nextAttemptMs <= now && budget > 0 then budget - 1 else budget;
    var front := Front(items, now, budget, server, reschedule);
    var later := Flush(items[1..], now, b, server, reschedule).items;
    FlushFront(items, now, budget, server, reschedule);
    DueFirst(items, now, budget);
    if i > 0 {
      FlushKeepsUnaccepted(items[1..], now, b, server, reschedule, i - 1);
      if HasContent(later, items[i].content) {
        HasContentLater(front, later, items[i].content);
      }
    } else if front != [] {
      assert (front + later)[0].content == items[0].content;
    }
  }

  lemma {:induction false} DueIsQueued(items: seq<Item>, now: int, k: nat)
    requires k < |AllDue(items, now)|
    ensures exists i :: 0 <= i < |items| && items[i] == AllDue(items, now)[k]
    decreases |items|
  {
    var rest := items[1..];
    if items[0].nextAttemptMs <= now && k == 0 {
      assert items[0] == AllDue(items, now)[0];
    } else {
      var k' := if items[0].nextAttemptMs <= now then k - 1 else k;
      DueIsQueued(rest, now, k');
      var i :| 0 <= i < |rest| && rest[i] == AllDue(rest, now)[k'];
      assert items[i + 1] == AllDue(items, now)[k];
    }
  }

  /** The queue after one more due item has been answered. */
  function Answered(f: Flushed, id: string, now: int, outcome: Outcome, reschedule: Rescheduler): Flushed {
    match outcome
    case Accepted => Flushed(Without(f.items, id), f.sent + 1)
    case Rejected(error) => Flushed(Failed(f.items, id, reschedule, now, error), f.sent)
  }

  lemma {:induction false} AnsweredCons(
    item: Item, rest: Flushed, extra: nat, id: string, now: int, outcome: Outcome, reschedule: Rescheduler)
    requires item.Id() != id
    ensures Answered(Flushed([item] + rest.items, rest.sent + extra), id, now, outcome, reschedule)
      == var a := Answered(rest, id, now, outcome, reschedule); Flushed([item] + a.items, a.sent + extra)
  {
  }

  /** The first item is the first due one. */
  lemma {:induction false} FlushFirst(items: seq<Item>, now: int, server: Server, reschedule: Rescheduler)
    requires items != [] && UniqueIds(items) && items[0].nextAttemptMs <= now
    ensures var id := items[0].Id();
      Flush(items, now, 1, server, reschedule) == Answered(Flushed(items, 0), id, now, server(id), reschedule)
  {
    var item, rest := items[0], items[1..];
    FlushNothing(rest, now, server, reschedule);
    match server(item.Id())
    case Accepted =>
      assert forall i :: 0 <= i < |rest| ==> rest[i] == items[i + 1];
      WithoutMissing(rest, item.Id());
    case Rejected(error) =>
      assert items[0 := reschedule(item, now, error)] == [reschedule(item, now, error)] + rest;
  }

  /** What answering a later item does under an item that is passed over or answered first. */
  lemma {:induction false} FlushUnder(
    items: seq<Item>, now: int, k: nat, server: Server, reschedule: Rescheduler, id: string)
    requires items != [] && items[0].Id() != id && KeepsContent(reschedule)
    requires items[0].nextAttemptMs <= now ==> k > 0
    requires var k' := if items[0].nextAttemptMs <= now then k - 1 else k;
      Flush(items[1..], now, k' + 1, server, reschedule)
        == Answered(Flush(items[1..], now, k', server, reschedule), id, now, server(id), reschedule)
    ensures Flush(items, now, k + 1, server, reschedule)
      == Answered(Flush(items, now, k, server, reschedule), id, now, server(id), reschedule)
  {
    var item := items[0];
    if item.nextAttemptMs <= now {
      var f := Flush(items[1..], now, k - 1, server, reschedule);
      match server(item.Id())
      case Accepted =>
      case Rejected(error) => AnsweredCons(reschedule(item, now, error), f, 0, id, now, server(id), reschedule);
    } else {
      AnsweredCons(item, Flush(items[1..], now, k, server, reschedule), 0, id, now, server(id), reschedule);
    }
  }

  /** A due item beyond the budget is still queued after the flush. */
  lemma {:induction false} NotYetFlushed(items: seq<Item>, now: int, k: nat, server: Server, reschedule: Rescheduler)
    requires k < |AllDue(items, now)|
    ensures AllDue(items, now)[k] in Flush(items, now, k, server, reschedule).items
    decreases |items|
  {
    if items[0].nextAttemptMs <= now {
      if k > 0 {
        assert AllDue(items, now)[k] == AllDue(items[1..], now)[k - 1];
        NotYetFlushed(items[1..], now, k - 1, server, reschedule);
      } else {
        FlushNothing(items, now, server, reschedule);
      }
    } else {
      NotYetFlushed(items[1..], now, k, server, reschedule);
    }
  }

  /** Answering the k-th due item item by item is flushing with a budget of k + 1. */
  lemma {:induction false} FlushOneMore(items: seq<Item>, now: int, k: nat, server: Server, reschedule: Rescheduler)
    requires UniqueIds(items) && KeepsContent(reschedule) && k < |AllDue(items, now)|
    ensures var id := AllDue(items, now)[k].Id();
      Flush(items, now, k + 1, server, reschedule)
        == Answered(Flush(items, now, k, server, reschedule), id, now, server(id), reschedule)
    decreases |items|
  {
    var due := items[0].nextAttemptMs <= now;
    if due && k == 0 {
      FlushNothing(items, now, server, reschedule);
      FlushFirst(items, now, server, reschedule);
    } else {
      var k' := if due then k - 1 else k;
      assert AllDue(items, now)[k] == AllDue(items[1..], now)[k'];
      DueIsQueued(items[1..], now, k');
      FlushOneMore(items[1..], now, k', server, reschedule);
      FlushUnder(items, now, k, server, reschedule, AllDue(items, now)[k].Id());
    }
  }

  // ---------------------------------------------------------------------
  // What a flush keeps
  // ---------------------------------------------------------------------

  /** Items before are items after and items sent. */
  lemma {:induction false} FlushConserves(
    items: seq<Item>, now: int, budget: nat, server: Server, reschedule: Rescheduler)
    ensures var f := Flush(items, now, budget, server, reschedule); |items| == |f.items| + f.sent
    decreases |items|
  {
    if items != [] {
      FlushConserves(items[1..], now, budget, server, reschedule);
      if budget > 0 {
        FlushConserves(items[1..], now, budget - 1, server, reschedule);
      }
    }
  }

  /** `kept` is `items` with some left out and the others edited in place, in order. */
  ghost predicate InOrder(kept: seq<Item>, items: seq<Item>) {
    kept == [] ||
    (items != [] && ((kept[0].content == items[0].content && InOrder(kept[1..], items[1..]))
      || InOrder(kept, items[1..])))
  }

  lemma {:induction false} FlushKeepsOrder(
    items: seq<Item>, now: int, budget: nat, server: Server, reschedule: Rescheduler)
    requires KeepsContent(reschedule)
    ensures InOrder(Flush(items, now, budget, server, reschedule).items, items)
    decreases |items|
  {
    if items != [] {
      var f := Flush(items, now, budget, server, reschedule);
      FlushKeepsOrder(items[1..], now, budget, server, reschedule);
      if items[0].nextAttemptMs <= now && budget > 0 {
        var rest := Flush(items[1..], now, budget - 1, server, reschedule);
        FlushKeepsOrder(items[1..], now, budget - 1, server, reschedule);
        match server(items[0].Id())
        case Accepted => assert f.items == rest.items;
        case Rejected(_) => assert f.items[1..] == rest.items;
      } else {
        assert f.items[1..] == Flush(items[1..], now, budget, server, reschedule).items;
      }
    }
  }
}
