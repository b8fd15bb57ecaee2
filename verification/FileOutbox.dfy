/**
 The file outbox: every operation loads the file, edits the queue and replaces
 the file atomically. What the disk does is an input.
 */
module RustOutbox {
  import opened Wrappers
  import opened Numbers
  import opened OutboxQueue

  /** The file after an operation, and what the caller is told. */
  datatype Applied = Applied(file: seq<Item>, result: Result<(), OutboxError>)

  /** Attempts and times saturate at their integer widths. */
  function SaturatingReschedule(item: Item, now: int, error: string): Item {
    var attempts := if item.attempts < U32_MAX then item.attempts + 1 else U32_MAX;
    var next := now + RetryDelay(attempts);
    item.(attempts := attempts, nextAttemptMs := if next < I64_MAX then next else I64_MAX, lastError := Some(error))
  }

  function SameContent(a: Content, b: Content): bool {
    a == b
  }

  function LoadFile(file: seq<Item>, maxEntries: nat, readable: bool): Result<seq<Item>, OutboxError> {
    if !readable then Err(Unreadable)
    else if |file| > maxEntries then Err(EntryLimit)
    else Ok(file)
  }

  function StoreFile(file: seq<Item>, maxEntries: nat, items: seq<Item>, disk: Disk): Applied {
    if |items| > maxEntries then Applied(file, Err(EntryLimit))
    else
      match disk
      case Replaced => Applied(items, Ok(()))
      case ReplacedThenFailed => Applied(items, Err(NotStored))
      case Unchanged => Applied(file, Err(NotStored))
  }

  function EnqueueFile(
    file: seq<Item>, maxEntries: nat, content: Content, now: int, readable: bool, disk: Disk): Applied {
    match LoadFile(file, maxEntries, readable)
    case Err(error) => Applied(file, Err(error))
    case Ok(items) =>
      match Enqueued(items, maxEntries, content, SameContent, now)
      case Err(error) => Applied(file, Err(error))
      case Ok(items') => if items' == items then Applied(file, Ok(())) else StoreFile(file, maxEntries, items', disk)
  }

  function MarkSentFile(file: seq<Item>, maxEntries: nat, id: string, readable: bool, disk: Disk): Applied {
    match LoadFile(file, maxEntries, readable)
    case Err(error) => Applied(file, Err(error))
    case Ok(items) => StoreFile(file, maxEntries, Without(items, id), disk)
  }

  function MarkFailedFile(
    file: seq<Item>, maxEntries: nat, id: string, error: string, now: int, readable: bool, disk: Disk): Applied
  {
    match LoadFile(file, maxEntries, readable)
    case Err(e) => Applied(file, Err(e))
    case Ok(items) =>
      if IndexOf(items, id) == |items| then Applied(file, Err(NotFound))
      else StoreFile(file, maxEntries, Failed(items, id, SaturatingReschedule, now, error), disk)
  }

  class FileOutbox {
    const maxEntries: nat
    var file: seq<Item>

    ghost predicate Valid()
      reads this
    {
      UniqueIds(file) && |file| <= maxEntries
    }

    constructor (maxEntries: nat)
      ensures Valid() && file == [] && this.maxEntries == maxEntries
    {
      this.maxEntries := maxEntries;
      file := [];
    }

    method Load(readable: bool) returns (r: Result<seq<Item>, OutboxError>)
      ensures r == LoadFile(file, maxEntries, readable)
    {
      if !readable {
        return Err(Unreadable);
      }
      if |file| > maxEntries {
        return Err(EntryLimit);
      }
      r := Ok(file);
    }

    method Store(items: seq<Item>, disk: Disk) returns (r: Result<(), OutboxError>)
      modifies this
      ensures Applied(file, r) == StoreFile(old(file), maxEntries, items, disk)
    {
      if |items| > maxEntries {
        return Err(EntryLimit);
      }
      match disk {
        case Replaced =>
          file := items;
          r := Ok(());
        case ReplacedThenFailed =>
          file := items;
          r := Err(NotStored);
        case Unchanged =>
          r := Err(NotStored);
      }
    }

    method Enqueue(content: Content, now: int, readable: bool, disk: Disk) returns (r: Result<(), OutboxError>)
      modifies this
      ensures Applied(file, r) == EnqueueFile(old(file), maxEntries, content, now, readable, disk)
    {
      var items :- Load(readable);
      var k := 0;
      while k < |items| && items[k].Id() != content.request.messageId
        invariant 0 <= k <= |items|
        invariant forall i :: 0 <= i < k ==> items[i].Id() != content.request.messageId
      {
        k := k + 1;
      }
      assert k == IndexOf(items, content.request.messageId);
      if k < |items| {
        if items[k].content == content {
          return Ok(());
        }
        return Err(Conflict);
      }
      if |items| >= maxEntries {
        return Err(EntryLimit);
      }
      r := Store(items + [Item(content, 0, now, None)], disk);
    }

    method MarkSent(id: string, readable: bool, disk: Disk) returns (r: Result<(), OutboxError>)
      modifies this
      ensures Applied(file, r) == MarkSentFile(old(file), maxEntries, id, readable, disk)
    {
      var items :- Load(readable);
      r := Store(Without(items, id), disk);
    }

    method MarkFailed(id: string, error: string, now: int, readable: bool, disk: Disk)
      returns (r: Result<(), OutboxError>)
      modifies this
      ensures Applied(file, r) == MarkFailedFile(old(file), maxEntries, id, error, now, readable, disk)
    {
      var items :- Load(readable);
      var k := IndexOf(items, id);
      if k == |items| {
        return Err(NotFound);
      }
      items := items[k := SaturatingReschedule(items[k], now, error)];
      r := Store(items, disk);
    }

    /** Records the outcome of one submit. */
    method Record(id: string, outcome: Outcome, now: int, readable: bool, disk: Disk)
      returns (r: Result<(), OutboxError>)
      requires |file| <= maxEntries
      modifies this
      ensures var answered := Answered(Flushed(old(file), 0), id, now, outcome, SaturatingReschedule).items;
        && (file == answered || file == old(file))
        && (r.Ok? ==> file == answered)
        && (readable && disk == Replaced && |answered| <= maxEntries && IndexOf(old(file), id) < |old(file)| ==> r.Ok?)
    {
      match outcome {
        case Accepted => r := MarkSent(id, readable, disk);
        case Rejected(error) => r := MarkFailed(id, error, now, readable, disk);
      }
    }

    /**
     Submits the due items one by one and records each outcome. Nobody else
     touches the file meanwhile. `readable` and `disk` say what the file
     system does at each step.
     */
    method Flush(now: int, limit: nat, server: Server, readable: nat -> bool, disk: nat -> Disk)
      returns (r: Result<nat, OutboxError>)
      requires Valid()
      modifies this
      ensures exists k: nat :: k <= |Due(old(file), now, limit)| && FlushedTo(old(file), now, k, server, file)
      ensures r.Ok? ==> Flushed(file, r.value) == OutboxQueue.Flush(old(file), now, limit, server, SaturatingReschedule)
      ensures (forall n :: readable(n) && disk(n) == Replaced) ==> r.Ok?
    {
      ghost var before := file;
      FlushNothing(before, now, server, SaturatingReschedule);
      assert FlushedTo(before, now, 0, server, file);
      var loaded := Load(readable(0));
      if loaded.Err? {
        return Err(loaded.error);
      }
      var items := Due(loaded.value, now, limit);
      var sent := 0;
      for k := 0 to |items|
        invariant |file| <= maxEntries
        invariant Flushed(file, sent) == OutboxQueue.Flush(before, now, k, server, SaturatingReschedule)
      {
        var id := items[k].Id();
        StillQueued(before, now, k, server, items[k]);
        FlushOneMore(before, now, k, server, SaturatingReschedule);
        FlushConserves(before, now, k + 1, server, SaturatingReschedule);
        var marked := Record(id, server(id), now, readable(k + 1), disk(k + 1));
        assert FlushedTo(before, now, k, server, file) || FlushedTo(before, now, k + 1, server, file);
        if marked.Err? {
          return Err(marked.error);
        }
        if server(id).Accepted? {
          sent := sent + 1;
        }
      }
      assert FlushedTo(before, now, |items|, server, file);
      if limit >= |AllDue(before, now)| {
        FlushAllDue(before, now, limit, server, SaturatingReschedule);
      }
      r := Ok(sent);
    }
  }

  /** The file holds the queue after the first `k` due items were answered. */
  ghost predicate FlushedTo(before: seq<Item>, now: int, k: nat, server: Server, file: seq<Item>) {
    file == OutboxQueue.Flush(before, now, k, server, SaturatingReschedule).items
  }

  lemma {:induction false} StillQueued(before: seq<Item>, now: int, k: nat, server: Server, item: Item)
    requires k < |AllDue(before, now)| && item == AllDue(before, now)[k]
    ensures var file := OutboxQueue.Flush(before, now, k, server, SaturatingReschedule).items;
      IndexOf(file, item.Id()) < |file|
  {
    var file := OutboxQueue.Flush(before, now, k, server, SaturatingReschedule).items;
    NotYetFlushed(before, now, k, server, SaturatingReschedule);
    var i :| 0 <= i < |file| && file[i] == item;
    assert IndexOf(file, item.Id()) <= i;
  }
}
