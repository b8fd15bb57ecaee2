/**
 The file outbox shared by any number of concurrent callers: enqueues and
 flushes interleave at every lock release, submits answer in any order, and
 the process may die between or inside operations.
 */
module OutboxProtocol {
  import opened Wrappers
  import opened OutboxQueue
  import opened RustOutbox

  /** A flush in progress: the items left of its snapshot, the first one being submitted. */
  datatype FlushRun = FlushRun(queue: seq<Item>, now: int, answer: Option<Outcome>)

  /**
   The file, the flushes in progress, and two records of the past: contents
   whose enqueue was confirmed, and contents a submit of which succeeded.
   */
  datatype State = State(file: seq<Item>, runs: seq<FlushRun>, confirmed: set<Content>, delivered: set<Content>)

  /** One atomic step; each outbox operation runs under its lock. */
  datatype Event =
    | Enqueue(content: Content, now: int, readable: bool, disk: Disk)
    | BeginFlush(now: int, limit: nat, readable: bool)
    | SubmitReturns(run: nat, outcome: Outcome)
    | Mark(run: nat, readable: bool, disk: Disk)
    | Crash

  const EMPTY: State := State([], [], {}, {})

  /** What recording the pending answer of a run does to the file. */
  function MarkFile(s: State, maxEntries: nat, r: FlushRun, readable: bool, disk: Disk): Applied
    requires r.queue != [] && r.answer.Some?
  {
    var id := r.queue[0].Id();
    match r.answer.value
    case Accepted => MarkSentFile(s.file, maxEntries, id, readable, disk)
    case Rejected(error) => MarkFailedFile(s.file, maxEntries, id, error, r.now, readable, disk)
  }

  /** Events that do not apply leave the state alone. */
  function Step(maxEntries: nat, s: State, e: Event): State {
    match e
    case Enqueue(content, now, readable, disk) =>
      var done := EnqueueFile(s.file, maxEntries, content, now, readable, disk);
      s.(file := done.file, confirmed := if done.result.Ok? then s.confirmed + {content} else s.confirmed)
    case BeginFlush(now, limit, readable) =>
      (match LoadFile(s.file, maxEntries, readable)
       case Ok(items) => s.(runs := s.runs + [FlushRun(Due(items, now, limit), now, None)])
       case Err(_) => s)
    case SubmitReturns(i, outcome) =>
      if i < |s.runs| && s.runs[i].queue != [] && s.runs[i].answer.None? then
        s.(runs := s.runs[i := s.runs[i].(answer := Some(outcome))],
           delivered := if outcome.Accepted? then s.delivered + {s.runs[i].queue[0].content} else s.delivered)
      else s
    case Mark(i, readable, disk) =>
      if i < |s.runs| && s.runs[i].queue != [] && s.runs[i].answer.Some? then
        var r := s.runs[i];
        var done := MarkFile(s, maxEntries, r, readable, disk);
        // an error ends the flush, otherwise it goes on to the next item
        var queue := if done.result.Ok? then r.queue[1..] else [];
        s.(file := done.file, runs := s.runs[i := FlushRun(queue, r.now, None)])
      else s
    case Crash => s.(runs := [])
  }

  function Run(maxEntries: nat, s: State, events: seq<Event>): State
    decreases |events|
  {
    if events == [] then s else Run(maxEntries, Step(maxEntries, s, events[0]), events[1..])
  }

  // ---------------------------------------------------------------------
  // Safety
  // ---------------------------------------------------------------------

  /** Every confirmed content is still in the file, or a submit of it succeeded. */
  ghost predicate NothingLost(s: State) {
    forall c :: c in s.confirmed ==> c in s.delivered || HasContent(s.file, c)
  }

  ghost predicate Bounded(maxEntries: nat, s: State) {
    UniqueIds(s.file) && |s.file| <= maxEntries
  }

  /** A flush in progress holds no identifier twice, and an accepted head has been delivered. */
  ghost predicate RunSane(s: State, r: FlushRun) {
    UniqueIds(r.queue) && (r.queue != [] && r.answer == Some(Accepted) ==> r.queue[0].content in s.delivered)
  }

  ghost predicate Sane(maxEntries: nat, s: State) {
    && Bounded(maxEntries, s)
    && NothingLost(s)
    && forall i :: 0 <= i < |s.runs| ==> RunSane(s, s.runs[i])
  }

  /**
   A flush can come to submit its k-th item. A pending rejection stops it
   there: the head is passed without being marked sent, and the flush ends if
   the head is no longer in the file.
   */
  predicate CanReach(file: seq<Item>, r: FlushRun, k: nat)
    requires k < |r.queue|
  {
    r.answer.Some? && r.answer.value.Rejected? ==> k > 0 && IndexOf(file, r.queue[0].Id()) < |file|
  }

  /** A flush in progress can come to mark `c` sent on the strength of other content with its identifier. */
  ghost predicate Hazard(s: State, i: nat, k: nat, c: Content) {
    && i < |s.runs| && k < |s.runs[i].queue|
    && c in s.confirmed && c !in s.delivered
    && s.runs[i].queue[k].Id() == c.request.messageId
    && s.runs[i].queue[k].content != c
    && CanReach(s.file, s.runs[i], k)
  }

  ghost predicate NoHazard(s: State) {
    forall i: nat, k: nat, c :: !Hazard(s, i, k, c)
  }

  // ---------------------------------------------------------------------
  // Edits of the file
  // ---------------------------------------------------------------------

  /** A queue that holds the same contents, apart from items with the identifier. */
  ghost predicate KeepsOthers(before: seq<Item>, after: seq<Item>, id: string) {
    && (forall i :: 0 <= i < |before| && before[i].Id() != id ==> HasContent(after, before[i].content))
    && (forall i :: 0 <= i < |after| ==> HasContent(before, after[i].content))
  }

  lemma {:induction false} WithoutMembers(items: seq<Item>, id: string)
    ensures |Without(items, id)| <= |items|
    ensures forall x :: x in Without(items, id) <==> x in items && x.Id() != id
    decreases |items|
  {
    if items != [] {
      WithoutMembers(items[1..], id);
      assert items == [items[0]] + items[1..];
    }
  }

  lemma {:induction false} WithoutUnique(items: seq<Item>, id: string)
    requires UniqueIds(items)
    ensures UniqueIds(Without(items, id))
    decreases |items|
  {
    if items != [] {
      var rest := items[1..];
      var tail := Without(rest, id);
      WithoutUnique(rest, id);
      WithoutMembers(rest, id);
      forall j | 0 <= j < |tail|
        ensures tail[j].Id() != items[0].Id()
      {
        assert tail[j] in rest;
        var k :| 0 <= k < |rest| && rest[k] == tail[j];
        assert items[k + 1] == tail[j];
      }
    }
  }

  lemma {:induction false} MarkSentKeeps(file: seq<Item>, maxEntries: nat, id: string, readable: bool, disk: Disk)
    requires UniqueIds(file) && |file| <= maxEntries
    ensures var after := MarkSentFile(file, maxEntries, id, readable, disk).file;
      UniqueIds(after) && |after| <= maxEntries && KeepsOthers(file, after, id)
  {
    WithoutUnique(file, id);
    WithoutMembers(file, id);
    var after := Without(file, id);
    forall i | 0 <= i < |file| && file[i].Id() != id
      ensures HasContent(after, file[i].content)
    {
      assert file[i] in after;
      var j :| 0 <= j < |after| && after[j] == file[i];
    }
    forall i | 0 <= i < |after|
      ensures HasContent(file, after[i].content)
    {
      assert after[i] in file;
      var j :| 0 <= j < |file| && file[j] == after[i];
    }
  }

  lemma {:induction false} MarkFailedKeeps(
    file: seq<Item>, maxEntries: nat, id: string, error: string, now: int, readable: bool, disk: Disk)
    requires UniqueIds(file) && |file| <= maxEntries
    ensures var after := MarkFailedFile(file, maxEntries, id, error, now, readable, disk).file;
      && |after| == |file| && UniqueIds(after) && |after| <= maxEntries
      && forall i :: 0 <= i < |file| ==> after[i].content == file[i].content
  {
  }

  lemma {:induction false} EnqueueKeeps(
    file: seq<Item>, maxEntries: nat, content: Content, now: int, readable: bool, disk: Disk)
    requires UniqueIds(file) && |file| <= maxEntries
    ensures var done := EnqueueFile(file, maxEntries, content, now, readable, disk);
      && UniqueIds(done.file) && |done.file| <= maxEntries
      && (done.file == file || done.file == file + [Item(content, 0, now, None)])
      && (done.result.Ok? ==> HasContent(done.file, content))
  {
    var items := file + [Item(content, 0, now, None)];
    assert items[|file|].content == content;
    var k := IndexOf(file, content.request.messageId);
    if k < |file| && file[k].content == content {
      assert HasContent(file, content);
    }
  }

  // ---------------------------------------------------------------------
  // One step
  // ---------------------------------------------------------------------

  lemma {:induction false} AllDueUnique(items: seq<Item>, now: int)
    requires UniqueIds(items)
    ensures forall x :: x in AllDue(items, now) ==> x in items
    ensures UniqueIds(AllDue(items, now))
    decreases |items|
  {
    if items != [] {
      var rest := AllDue(items[1..], now);
      AllDueUnique(items[1..], now);
      forall j | 0 <= j < |rest|
        ensures rest[j] in items && rest[j].Id() != items[0].Id()
      {
        assert rest[j] in items[1..];
        var k :| 0 <= k < |items[1..]| && items[1..][k] == rest[j];
        assert items[k + 1] == rest[j];
      }
    }
  }

  lemma {:induction false} DueFacts(items: seq<Item>, now: int, limit: nat)
    requires UniqueIds(items)
    ensures UniqueIds(Due(items, now, limit))
    ensures forall k :: 0 <= k < |Due(items, now, limit)| ==> Due(items, now, limit)[k] in items
  {
    var due, all := Due(items, now, limit), AllDue(items, now);
    AllDueUnique(items, now);
    assert forall k :: 0 <= k < |due| ==> due[k] == all[k];
  }

  lemma {:induction false} EnqueueSane(maxEntries: nat, s: State, e: Event)
    requires Sane(maxEntries, s) && e.Enqueue?
    ensures Sane(maxEntries, Step(maxEntries, s, e))
  {
    EnqueueKeeps(s.file, maxEntries, e.content, e.now, e.readable, e.disk);
    var t := Step(maxEntries, s, e);
    forall c | HasContent(s.file, c)
      ensures HasContent(t.file, c)
    {
      var i :| 0 <= i < |s.file| && s.file[i].content == c;
      assert t.file[i].content == c;
    }
    assert forall i :: 0 <= i < |t.runs| ==> RunSane(s, s.runs[i]);
  }

  lemma {:induction false} BeginFlushSane(maxEntries: nat, s: State, e: Event)
    requires Sane(maxEntries, s) && e.BeginFlush?
    ensures Sane(maxEntries, Step(maxEntries, s, e))
  {
    var t := Step(maxEntries, s, e);
    DueFacts(s.file, e.now, e.limit);
    forall i | 0 <= i < |t.runs|
      ensures RunSane(t, t.runs[i])
    {
      if i < |s.runs| {
        assert RunSane(s, s.runs[i]);
      }
    }
  }

  lemma {:induction false} SubmitReturnsSane(maxEntries: nat, s: State, e: Event)
    requires Sane(maxEntries, s) && e.SubmitReturns?
    ensures Sane(maxEntries, Step(maxEntries, s, e))
  {
    var t := Step(maxEntries, s, e);
    forall i | 0 <= i < |t.runs|
      ensures RunSane(t, t.runs[i])
    {
      assert RunSane(s, s.runs[i]);
    }
  }

  ghost predicate CanMark(s: State, i: nat) {
    i < |s.runs| && s.runs[i].queue != [] && s.runs[i].answer.Some?
  }

  /** Marking an accepted item sent loses nothing: what leaves the file is what was submitted. */
  lemma {:induction false} MarkKeepsConfirmed(maxEntries: nat, s: State, e: Event)
    requires Sane(maxEntries, s) && NoHazard(s) && e.Mark? && CanMark(s, e.run)
    ensures Bounded(maxEntries, Step(maxEntries, s, e)) && NothingLost(Step(maxEntries, s, e))
  {
    var t := Step(maxEntries, s, e);
    var r := s.runs[e.run];
    var id := r.queue[0].Id();
    assert RunSane(s, r);
    match r.answer.value {
      case Accepted => MarkSentKeeps(s.file, maxEntries, id, e.readable, e.disk);
      case Rejected(error) => MarkFailedKeeps(s.file, maxEntries, id, error, r.now, e.readable, e.disk);
    }
    forall c | c in t.confirmed && c !in t.delivered
      ensures HasContent(t.file, c)
    {
      assert !Hazard(s, e.run, 0, c);
      var i :| 0 <= i < |s.file| && s.file[i].content == c;
      if r.answer.value.Rejected? {
        assert t.file[i].content == c;
      } else {
        assert s.file[i].Id() != id;
      }
    }
  }

  lemma {:induction false} MarkSane(maxEntries: nat, s: State, e: Event)
    requires Sane(maxEntries, s) && NoHazard(s) && e.Mark? && CanMark(s, e.run)
    ensures Sane(maxEntries, Step(maxEntries, s, e))
  {
    var t := Step(maxEntries, s, e);
    MarkKeepsConfirmed(maxEntries, s, e);
    forall i | 0 <= i < |t.runs|
      ensures RunSane(t, t.runs[i])
    {
      assert RunSane(s, s.runs[i]);
    }
  }

  /** Without a hazard no step, of whatever kind, loses anything. */
  lemma {:induction false} StepSane(maxEntries: nat, s: State, e: Event)
    requires Sane(maxEntries, s) && NoHazard(s)
    ensures Sane(maxEntries, Step(maxEntries, s, e))
  {
    match e
    case Enqueue(_, _, _, _) => EnqueueSane(maxEntries, s, e);
    case BeginFlush(_, _, _) => BeginFlushSane(maxEntries, s, e);
    case SubmitReturns(_, _) => SubmitReturnsSane(maxEntries, s, e);
    case Mark(i, _, _) =>
      if CanMark(s, i) {
        MarkSane(maxEntries, s, e);
      }
    case Crash =>
  }

  // ---------------------------------------------------------------------
  // Clean enqueues
  // ---------------------------------------------------------------------

  /** No flush in progress holds the identifier with other content. */
  ghost predicate CleanFor(runs: seq<FlushRun>, c: Content) {
    forall i, k :: 0 <= i < |runs| && 0 <= k < |runs[i].queue| && runs[i].queue[k].Id() == c.request.messageId
                   ==> runs[i].queue[k].content == c
  }

  /** Every enqueue of the run is clean at its moment. */
  ghost predicate CleanRun(maxEntries: nat, s: State, events: seq<Event>)
    decreases |events|
  {
    events == [] ||
    (&& (events[0].Enqueue? ==> CleanFor(s.runs, events[0].content))
     && CleanRun(maxEntries, Step(maxEntries, s, events[0]), events[1..]))
  }

  /** Flushes in progress agree with the file. */
  ghost predicate Agree(s: State) {
    forall j :: 0 <= j < |s.file| ==> CleanFor(s.runs, s.file[j].content)
  }

  lemma {:induction false} AgreeNoHazard(maxEntries: nat, s: State)
    requires Sane(maxEntries, s) && Agree(s)
    ensures NoHazard(s)
  {
    forall i: nat, k: nat, c
      ensures !Hazard(s, i, k, c)
    {
      if c in s.confirmed && c !in s.delivered {
        var j :| 0 <= j < |s.file| && s.file[j].content == c;
        assert CleanFor(s.runs, c);
      }
    }
  }

  lemma {:induction false} FewerRuns(runs: seq<FlushRun>, i: nat, r: FlushRun, c: Content)
    requires CleanFor(runs, c) && i < |runs|
    requires forall k :: 0 <= k < |r.queue| ==> r.queue[k] in runs[i].queue
    ensures CleanFor(runs[i := r], c)
  {
    forall k | 0 <= k < |r.queue| && r.queue[k].Id() == c.request.messageId
      ensures r.queue[k].content == c
    {
      var l :| 0 <= l < |runs[i].queue| && runs[i].queue[l] == r.queue[k];
    }
  }

  lemma {:induction false} BeginFlushAgree(maxEntries: nat, s: State, e: Event)
    requires Sane(maxEntries, s) && Agree(s) && e.BeginFlush?
    ensures Agree(Step(maxEntries, s, e))
  {
    var t := Step(maxEntries, s, e);
    DueFacts(s.file, e.now, e.limit);
    forall j, i, k | 0 <= j < |t.file| && 0 <= i < |t.runs| && 0 <= k < |t.runs[i].queue|
                     && t.runs[i].queue[k].Id() == t.file[j].Id()
      ensures t.runs[i].queue[k].content == t.file[j].content
    {
      assert CleanFor(s.runs, s.file[j].content);
      if i == |s.runs| {
        var l :| 0 <= l < |s.file| && s.file[l] == t.runs[i].queue[k];
      }
    }
  }

  lemma {:induction false} MarkAgree(maxEntries: nat, s: State, e: Event)
    requires Sane(maxEntries, s) && Agree(s) && e.Mark? && CanMark(s, e.run)
    ensures Agree(Step(maxEntries, s, e))
  {
    var t := Step(maxEntries, s, e);
    var r := s.runs[e.run];
    var id := r.queue[0].Id();
    match r.answer.value {
      case Accepted => MarkSentKeeps(s.file, maxEntries, id, e.readable, e.disk);
      case Rejected(error) => MarkFailedKeeps(s.file, maxEntries, id, error, r.now, e.readable, e.disk);
    }
    forall j | 0 <= j < |t.file|
      ensures CleanFor(t.runs, t.file[j].content)
    {
      assert HasContent(s.file, t.file[j].content);
      var l :| 0 <= l < |s.file| && s.file[l].content == t.file[j].content;
      FewerRuns(s.runs, e.run, t.runs[e.run], s.file[l].content);
    }
  }

  lemma {:induction false} EnqueueAgree(maxEntries: nat, s: State, e: Event)
    requires Sane(maxEntries, s) && Agree(s) && e.Enqueue? && CleanFor(s.runs, e.content)
    ensures Agree(Step(maxEntries, s, e))
  {
    EnqueueKeeps(s.file, maxEntries, e.content, e.now, e.readable, e.disk);
  }

  lemma {:induction false} StepAgree(maxEntries: nat, s: State, e: Event)
    requires Sane(maxEntries, s) && Agree(s) && (e.Enqueue? ==> CleanFor(s.runs, e.content))
    ensures Agree(Step(maxEntries, s, e))
  {
    match e
    case Enqueue(_, _, _, _) => EnqueueAgree(maxEntries, s, e);
    case BeginFlush(_, _, _) => BeginFlushAgree(maxEntries, s, e);
    case SubmitReturns(i, outcome) =>
      if i < |s.runs| {
        forall j | 0 <= j < |s.file|
          ensures CleanFor(Step(maxEntries, s, e).runs, s.file[j].content)
        {
          FewerRuns(s.runs, i, s.runs[i].(answer := Some(outcome)), s.file[j].content);
        }
      }
    case Mark(i, _, _) =>
      if CanMark(s, i) {
        MarkAgree(maxEntries, s, e);
      }
    case Crash =>
  }

  lemma {:induction false} RunAgree(maxEntries: nat, s: State, events: seq<Event>)
    requires Sane(maxEntries, s) && Agree(s) && CleanRun(maxEntries, s, events)
    ensures Sane(maxEntries, Run(maxEntries, s, events)) && Agree(Run(maxEntries, s, events))
    decreases |events|
  {
    if events != [] {
      AgreeNoHazard(maxEntries, s);
      StepSane(maxEntries, s, events[0]);
      StepAgree(maxEntries, s, events[0]);
      RunAgree(maxEntries, Step(maxEntries, s, events[0]), events[1..]);
    }
  }

  /**
   In every interleaving, with crashes: queued identifiers are unique, the
   bound holds, and no confirmed message is lost, when nothing is enqueued
   while a flush in progress holds its identifier with other content.
   */
  lemma {:induction false} OutboxSafe(maxEntries: nat, events: seq<Event>)
    requires CleanRun(maxEntries, EMPTY, events)
    ensures var s := Run(maxEntries, EMPTY, events); Bounded(maxEntries, s) && NothingLost(s)
  {
    RunAgree(maxEntries, EMPTY, events);
  }

  // ---------------------------------------------------------------------
  // Identifiers that are never reused
  // ---------------------------------------------------------------------

  /** Identifiers stand for one content for ever. */
  type Binding = string -> Content

  ghost predicate Binds(bind: Binding, c: Content) {
    c == bind(c.request.messageId)
  }

  ghost predicate NoReuse(bind: Binding, events: seq<Event>) {
    forall i :: 0 <= i < |events| && events[i].Enqueue? ==> Binds(bind, events[i].content)
  }

  ghost predicate AllBound(bind: Binding, items: seq<Item>) {
    forall k :: 0 <= k < |items| ==> Binds(bind, items[k].content)
  }

  ghost predicate StateBound(bind: Binding, s: State) {
    AllBound(bind, s.file) && forall i :: 0 <= i < |s.runs| ==> AllBound(bind, s.runs[i].queue)
  }

  lemma {:induction false} StepBound(maxEntries: nat, bind: Binding, s: State, e: Event)
    requires Bounded(maxEntries, s) && StateBound(bind, s) && (e.Enqueue? ==> Binds(bind, e.content))
    ensures Bounded(maxEntries, Step(maxEntries, s, e)) && StateBound(bind, Step(maxEntries, s, e))
  {
    match e
    case Enqueue(content, now, readable, disk) => EnqueueKeeps(s.file, maxEntries, content, now, readable, disk);
    case BeginFlush(now, limit, _) => DueFacts(s.file, now, limit);
    case Mark(i, readable, disk) =>
      if CanMark(s, i) {
        var id := s.runs[i].queue[0].Id();
        match s.runs[i].answer.value
        case Accepted => MarkSentKeeps(s.file, maxEntries, id, readable, disk);
        case Rejected(error) => MarkFailedKeeps(s.file, maxEntries, id, error, s.runs[i].now, readable, disk);
      }
    case _ =>
  }

  /** A run that never reuses an identifier for other content is clean. */
  lemma {:induction false} NoReuseIsClean(maxEntries: nat, bind: Binding, s: State, events: seq<Event>)
    requires Bounded(maxEntries, s) && StateBound(bind, s) && NoReuse(bind, events)
    ensures CleanRun(maxEntries, s, events)
    decreases |events|
  {
    if events != [] {
      StepBound(maxEntries, bind, s, events[0]);
      assert forall i :: 0 <= i < |events[1..]| ==> events[1..][i] == events[i + 1];
      NoReuseIsClean(maxEntries, bind, Step(maxEntries, s, events[0]), events[1..]);
    }
  }

  /** So it loses nothing. */
  lemma {:induction false} SafeWithoutReuse(maxEntries: nat, bind: Binding, events: seq<Event>)
    requires NoReuse(bind, events)
    ensures var s := Run(maxEntries, EMPTY, events); Bounded(maxEntries, s) && NothingLost(s)
  {
    NoReuseIsClean(maxEntries, bind, EMPTY, events);
    OutboxSafe(maxEntries, events);
  }

  /** Uniqueness and the bound need no assumption. */
  lemma {:induction false} AlwaysBounded(maxEntries: nat, s: State, events: seq<Event>)
    requires Bounded(maxEntries, s)
    ensures Bounded(maxEntries, Run(maxEntries, s, events))
    decreases |events|
  {
    if events != [] {
      var e := events[0];
      match e {
        case Enqueue(content, now, readable, disk) => EnqueueKeeps(s.file, maxEntries, content, now, readable, disk);
        case Mark(i, readable, disk) =>
          if i < |s.runs| && s.runs[i].queue != [] && s.runs[i].answer.Some? {
            var id := s.runs[i].queue[0].Id();
            match s.runs[i].answer.value
            case Accepted => MarkSentKeeps(s.file, maxEntries, id, readable, disk);
            case Rejected(error) => MarkFailedKeeps(s.file, maxEntries, id, error, s.runs[i].now, readable, disk);
          }
        case _ =>
      }
      AlwaysBounded(maxEntries, Step(maxEntries, s, e), events[1..]);
    }
  }

  lemma {:induction false} RunSplit(maxEntries: nat, s: State, events: seq<Event>, k: nat)
    requires k <= |events|
    ensures Run(maxEntries, s, events) == Run(maxEntries, Run(maxEntries, s, events[..k]), events[k..])
    decreases k
  {
    if k > 0 {
      assert events[..k][1..] == events[1..][..k - 1] && events[k..] == events[1..][k - 1..];
      RunSplit(maxEntries, Step(maxEntries, s, events[0]), events[1..], k - 1);
    } else {
      assert events[..0] == [] && events[0..] == events;
    }
  }
}
