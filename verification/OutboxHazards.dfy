/**
 When messages can be lost: exactly when a flush in progress can come to mark
 a message sent that it never submitted.
 */
module OutboxHazards {
  import opened Wrappers
  import opened OutboxQueue
  import opened RustOutbox
  import opened OutboxProtocol
  import opened CanonicalJson

  // ---------------------------------------------------------------------
  // No hazard arises without an enqueue
  // ---------------------------------------------------------------------

  ghost predicate Quiet(events: seq<Event>) {
    forall i :: 0 <= i < |events| ==> !events[i].Enqueue?
  }

  lemma {:induction false} BeginFlushHazardFree(maxEntries: nat, s: State, e: Event)
    requires Sane(maxEntries, s) && NoHazard(s) && e.BeginFlush?
    ensures NoHazard(Step(maxEntries, s, e))
  {
    var t := Step(maxEntries, s, e);
    DueFacts(s.file, e.now, e.limit);
    forall i: nat, k: nat, c
      ensures !Hazard(t, i, k, c)
    {
      assert !Hazard(s, i, k, c);
    }
  }

  lemma {:induction false} SubmitReturnsHazardFree(maxEntries: nat, s: State, e: Event)
    requires Sane(maxEntries, s) && NoHazard(s) && e.SubmitReturns?
    ensures NoHazard(Step(maxEntries, s, e))
  {
    var t := Step(maxEntries, s, e);
    forall i: nat, k: nat, c
      ensures !Hazard(t, i, k, c)
    {
      assert !Hazard(s, i, k, c);
    }
  }

  /** Marks only take identifiers out of the file. */
  lemma {:induction false} MarkShrinks(maxEntries: nat, s: State, e: Event, id: string)
    requires Bounded(maxEntries, s) && e.Mark? && CanMark(s, e.run)
    ensures var t := Step(maxEntries, s, e);
      IndexOf(t.file, id) < |t.file| ==> IndexOf(s.file, id) < |s.file|
  {
    var t := Step(maxEntries, s, e);
    var r := s.runs[e.run];
    match r.answer.value {
      case Accepted => MarkSentKeeps(s.file, maxEntries, r.queue[0].Id(), e.readable, e.disk);
      case Rejected(error) => MarkFailedKeeps(s.file, maxEntries, r.queue[0].Id(), error, r.now, e.readable, e.disk);
    }
    if IndexOf(t.file, id) < |t.file| {
      var j := IndexOf(t.file, id);
      assert HasContent(s.file, t.file[j].content);
      var l :| 0 <= l < |s.file| && s.file[l].content == t.file[j].content;
      assert IndexOf(s.file, id) <= l;
    }
  }

  lemma {:induction false} MarkHazardFree(maxEntries: nat, s: State, e: Event)
    requires Sane(maxEntries, s) && NoHazard(s) && e.Mark? && CanMark(s, e.run)
    ensures NoHazard(Step(maxEntries, s, e))
  {
    var t := Step(maxEntries, s, e);
    forall i: nat, k: nat, c
      ensures !Hazard(t, i, k, c)
    {
      if Hazard(t, i, k, c) {
        if i == e.run {
          assert t.runs[i].queue == s.runs[i].queue[1..];
          assert Hazard(s, i, k + 1, c);
        } else {
          MarkShrinks(maxEntries, s, e, s.runs[i].queue[0].Id());
          assert Hazard(s, i, k, c);
        }
      }
    }
  }

  lemma {:induction false} QuietStep(maxEntries: nat, s: State, e: Event)
    requires Sane(maxEntries, s) && NoHazard(s) && !e.Enqueue?
    ensures Sane(maxEntries, Step(maxEntries, s, e)) && NoHazard(Step(maxEntries, s, e))
  {
    StepSane(maxEntries, s, e);
    match e
    case BeginFlush(_, _, _) => BeginFlushHazardFree(maxEntries, s, e);
    case SubmitReturns(_, _) => SubmitReturnsHazardFree(maxEntries, s, e);
    case Mark(i, _, _) =>
      if CanMark(s, i) {
        MarkHazardFree(maxEntries, s, e);
      }
    case Crash =>
  }

  lemma {:induction false} QuietRun(maxEntries: nat, s: State, events: seq<Event>)
    requires Sane(maxEntries, s) && NoHazard(s) && Quiet(events)
    ensures Sane(maxEntries, Run(maxEntries, s, events)) && NoHazard(Run(maxEntries, s, events))
    decreases |events|
  {
    if events != [] {
      QuietStep(maxEntries, s, events[0]);
      QuietRun(maxEntries, Step(maxEntries, s, events[0]), events[1..]);
    }
  }

  // ---------------------------------------------------------------------
  // A hazard comes true
  // ---------------------------------------------------------------------

  /** The flush submits and marks its next `n` items; a pending answer is used first. */
  function Rounds(i: nat, n: nat): seq<Event> {
    if n == 0 then [] else [SubmitReturns(i, Accepted), Mark(i, true, Replaced)] + Rounds(i, n - 1)
  }

  function AfterRound(maxEntries: nat, s: State, i: nat): State {
    Step(maxEntries, Step(maxEntries, s, SubmitReturns(i, Accepted)), Mark(i, true, Replaced))
  }

  lemma {:induction false} RunRound(maxEntries: nat, s: State, i: nat, n: nat)
    requires n > 0
    ensures Run(maxEntries, s, Rounds(i, n)) == Run(maxEntries, AfterRound(maxEntries, s, i), Rounds(i, n - 1))
  {
    var events := Rounds(i, n);
    assert events[0] == SubmitReturns(i, Accepted) && events[1..][0] == Mark(i, true, Replaced);
    assert events[1..][1..] == Rounds(i, n - 1);
  }

  lemma {:induction false} Round(maxEntries: nat, s: State, i: nat)
    requires Bounded(maxEntries, s) && i < |s.runs| && s.runs[i].queue != []
    requires s.runs[i].answer.Some? && s.runs[i].answer.value.Rejected? ==>
      IndexOf(s.file, s.runs[i].queue[0].Id()) < |s.file|
    ensures var t, r := AfterRound(maxEntries, s, i), s.runs[i];
      && Bounded(maxEntries, t) && t.confirmed == s.confirmed
      && t.delivered <= s.delivered + {r.queue[0].content}
      && t.runs == s.runs[i := FlushRun(r.queue[1..], r.now, None)]
      && (!(r.answer.Some? && r.answer.value.Rejected?) ==> t.file == Without(s.file, r.queue[0].Id()))
  {
    var r := s.runs[i];
    var id := r.queue[0].Id();
    WithoutMembers(s.file, id);
    WithoutUnique(s.file, id);
    var u := Step(maxEntries, s, SubmitReturns(i, Accepted));
    assert u.file == s.file && u.runs[i].queue == r.queue && u.runs[i].now == r.now && u.runs[i].answer.Some?;
    if u.runs[i].answer.value.Rejected? {
      MarkFailedKeeps(s.file, maxEntries, id, u.runs[i].answer.value.error, r.now, true, Replaced);
    }
  }

  lemma {:induction false} Gone(file: seq<Item>, c: Content)
    ensures !HasContent(Without(file, c.request.messageId), c)
  {
    WithoutMembers(file, c.request.messageId);
    var after := Without(file, c.request.messageId);
    forall j | 0 <= j < |after|
      ensures after[j].content != c
    {
      assert after[j] in after;
    }
  }

  /** The flush goes on to the item at fault, and the message is lost. */
  lemma {:induction false} HazardLoses(maxEntries: nat, s: State, i: nat, k: nat, c: Content)
    requires Bounded(maxEntries, s) && Hazard(s, i, k, c) && UniqueIds(s.runs[i].queue)
    ensures var t := Run(maxEntries, s, Rounds(i, k + 1));
      c in t.confirmed && c !in t.delivered && !HasContent(t.file, c)
    decreases k
  {
    var r, t := s.runs[i], AfterRound(maxEntries, s, i);
    Round(maxEntries, s, i);
    RunRound(maxEntries, s, i, k + 1);
    if k == 0 {
      Gone(s.file, c);
    } else {
      assert r.queue[0].Id() != r.queue[k].Id();
      assert t.runs[i].queue[k - 1] == r.queue[k];
      assert Hazard(t, i, k - 1, c);
      HazardLoses(maxEntries, t, i, k - 1, c);
    }
  }

  lemma {:induction false} RoundsAreQuiet(i: nat, n: nat)
    ensures Quiet(Rounds(i, n))
    decreases n
  {
    if n > 0 {
      RoundsAreQuiet(i, n - 1);
    }
  }

  // ---------------------------------------------------------------------
  // Both together
  // ---------------------------------------------------------------------

  /** Nothing is lost before anything else is enqueued. */
  ghost predicate SafeUntilEnqueue(maxEntries: nat, s: State) {
    forall events :: Quiet(events) ==> NothingLost(Run(maxEntries, s, events))
  }

  /** From any sane state some continuation without an enqueue loses a message if and only if there is a hazard. */
  lemma {:induction false} SafeIffNoHazard(maxEntries: nat, s: State)
    requires Sane(maxEntries, s)
    ensures SafeUntilEnqueue(maxEntries, s) <==> NoHazard(s)
  {
    if NoHazard(s) {
      forall events | Quiet(events)
        ensures NothingLost(Run(maxEntries, s, events))
      {
        QuietRun(maxEntries, s, events);
      }
    } else {
      var i: nat, k: nat, c :| Hazard(s, i, k, c);
      assert RunSane(s, s.runs[i]);
      HazardLoses(maxEntries, s, i, k, c);
      RoundsAreQuiet(i, k + 1);
      assert !NothingLost(Run(maxEntries, s, Rounds(i, k + 1)));
    }
  }

  // ---------------------------------------------------------------------
  // Which enqueues bring a hazard about
  // ---------------------------------------------------------------------

  /** A flush in progress holds the identifier with other content and can come to submit it. */
  ghost predicate RisksItself(s: State, c: Content) {
    c !in s.delivered
    && exists i: nat, k: nat :: HeldOtherwise(s, i, k, c) && CanReach(s.file, s.runs[i], k)
  }

  ghost predicate HeldOtherwise(s: State, i: nat, k: nat, c: Content) {
    && i < |s.runs| && k < |s.runs[i].queue|
    && s.runs[i].queue[k].Id() == c.request.messageId && s.runs[i].queue[k].content != c
  }

  /**
   A flush about to end, because its rejected head has left the file, would
   find the identifier again and go on to put another message at risk.
   */
  ghost predicate Revives(s: State, c: Content) {
    exists i: nat, k: nat, d ::
      && HeldOtherwise(s, i, k, d) && k > 0
      && d in s.confirmed && d !in s.delivered
      && s.runs[i].answer.Some? && s.runs[i].answer.value.Rejected?
      && s.runs[i].queue[0].Id() == c.request.messageId
  }

  ghost predicate Confirms(maxEntries: nat, s: State, e: Event)
    requires e.Enqueue?
  {
    EnqueueFile(s.file, maxEntries, e.content, e.now, e.readable, e.disk).result.Ok?
  }

  lemma {:induction false} IndexOfSnoc(items: seq<Item>, x: Item, id: string)
    ensures IndexOf(items + [x], id) < |items| + 1 <==> IndexOf(items, id) < |items| || x.Id() == id
  {
    var more := items + [x];
    assert more[|items|] == x;
    var k := IndexOf(items, id);
    if k < |items| {
      assert more[k] == items[k];
    }
    var m := IndexOf(more, id);
    if m < |items| {
      assert more[m] == items[m];
    }
  }

  lemma {:induction false} InFileAfter(maxEntries: nat, s: State, e: Event, id: string)
    requires Sane(maxEntries, s) && e.Enqueue?
    ensures var t := Step(maxEntries, s, e);
      IndexOf(t.file, id) < |t.file| <==>
      IndexOf(s.file, id) < |s.file| || (HasContent(t.file, e.content) && id == e.content.request.messageId)
  {
    var t := Step(maxEntries, s, e);
    EnqueueKeeps(s.file, maxEntries, e.content, e.now, e.readable, e.disk);
    var x := Item(e.content, 0, e.now, None);
    if t.file == s.file + [x] {
      IndexOfSnoc(s.file, x, id);
      assert t.file[|s.file|].content == e.content;
    } else if HasContent(s.file, e.content) {
      var j :| 0 <= j < |s.file| && s.file[j].content == e.content;
      assert IndexOf(s.file, e.content.request.messageId) <= j;
    }
  }

  lemma {:induction false} HazardAfterEnqueue(maxEntries: nat, s: State, e: Event, i: nat, k: nat, d: Content)
    requires Sane(maxEntries, s) && NoHazard(s) && e.Enqueue?
    requires Hazard(Step(maxEntries, s, e), i, k, d)
    ensures (Confirms(maxEntries, s, e) && RisksItself(s, e.content))
         || (HasContent(Step(maxEntries, s, e).file, e.content) && Revives(s, e.content))
  {
    var t, r := Step(maxEntries, s, e), s.runs[i];
    InFileAfter(maxEntries, s, e, r.queue[0].Id());
    assert !Hazard(s, i, k, d) && RunSane(s, r);
    assert HeldOtherwise(s, i, k, d);
    assert k > 0 ==> r.queue[0].Id() != r.queue[k].Id();
  }

  lemma {:induction false} RiskIsHazard(maxEntries: nat, s: State, e: Event)
    requires Sane(maxEntries, s) && e.Enqueue? && Confirms(maxEntries, s, e) && RisksItself(s, e.content)
    ensures !NoHazard(Step(maxEntries, s, e))
  {
    var t := Step(maxEntries, s, e);
    var i: nat, k: nat :| HeldOtherwise(s, i, k, e.content) && CanReach(s.file, s.runs[i], k);
    InFileAfter(maxEntries, s, e, s.runs[i].queue[0].Id());
    assert Hazard(t, i, k, e.content);
  }

  lemma {:induction false} RevivalIsHazard(maxEntries: nat, s: State, e: Event)
    requires Sane(maxEntries, s) && e.Enqueue? && HasContent(Step(maxEntries, s, e).file, e.content)
      && Revives(s, e.content)
    ensures !NoHazard(Step(maxEntries, s, e))
  {
    var t := Step(maxEntries, s, e);
    var i: nat, k: nat, d :| HeldOtherwise(s, i, k, d) && k > 0 && d in s.confirmed && d !in s.delivered
      && s.runs[i].answer.Some? && s.runs[i].answer.value.Rejected?
      && s.runs[i].queue[0].Id() == e.content.request.messageId;
    InFileAfter(maxEntries, s, e, s.runs[i].queue[0].Id());
    assert Hazard(t, i, k, d);
  }

  /**
   An enqueue that is not confirmed while a flush can still submit other
   content under its identifier, and does not put back the identifier a
   doomed flush is waiting for.
   */
  ghost predicate SafeEnqueue(maxEntries: nat, s: State, e: Event)
    requires e.Enqueue?
  {
    && !(Confirms(maxEntries, s, e) && RisksItself(s, e.content))
    && !(HasContent(Step(maxEntries, s, e).file, e.content) && Revives(s, e.content))
  }

  /** These are the enqueues that keep a safe outbox safe, and no others. */
  lemma {:induction false} EnqueueSafeIff(maxEntries: nat, s: State, e: Event)
    requires Sane(maxEntries, s) && NoHazard(s) && e.Enqueue?
    ensures SafeUntilEnqueue(maxEntries, Step(maxEntries, s, e))
        <==> SafeEnqueue(maxEntries, s, e)
  {
    var t := Step(maxEntries, s, e);
    EnqueueSane(maxEntries, s, e);
    SafeIffNoHazard(maxEntries, t);
    if Confirms(maxEntries, s, e) && RisksItself(s, e.content) {
      RiskIsHazard(maxEntries, s, e);
    }
    if HasContent(t.file, e.content) && Revives(s, e.content) {
      RevivalIsHazard(maxEntries, s, e);
    }
    if !NoHazard(t) {
      var i: nat, k: nat, d :| Hazard(t, i, k, d);
      HazardAfterEnqueue(maxEntries, s, e, i, k, d);
    }
  }

  /** The queue takes the content: it holds it already, or has room for a new identifier. */
  predicate Admits(maxEntries: nat, file: seq<Item>, c: Content) {
    var k := IndexOf(file, c.request.messageId);
    if k < |file| then file[k].content == c else |file| < maxEntries
  }

  lemma {:induction false} OutcomesOf(maxEntries: nat, s: State, e: Event)
    requires Sane(maxEntries, s) && e.Enqueue?
    ensures Confirms(maxEntries, s, e) || HasContent(Step(maxEntries, s, e).file, e.content)
        ==> Admits(maxEntries, s.file, e.content)
    ensures Admits(maxEntries, s.file, e.content) && e.readable && e.disk.Replaced?
        ==> Confirms(maxEntries, s, e) && HasContent(Step(maxEntries, s, e).file, e.content)
  {
    EnqueueKeeps(s.file, maxEntries, e.content, e.now, e.readable, e.disk);
    InFileAfter(maxEntries, s, e, e.content.request.messageId);
    if HasContent(s.file, e.content) {
      var j :| 0 <= j < |s.file| && s.file[j].content == e.content;
      assert IndexOf(s.file, e.content.request.messageId) == j;
    }
  }

  /** Whether an enqueue is safe however reading and storing go, decided by the state before it. */
  lemma {:induction false} MayEnqueueIff(maxEntries: nat, s: State, c: Content, now: int)
    requires Sane(maxEntries, s) && NoHazard(s)
    ensures
      (forall readable, disk :: SafeUntilEnqueue(maxEntries, Step(maxEntries, s, Enqueue(c, now, readable, disk))))
        <==> (Admits(maxEntries, s.file, c) ==> !RisksItself(s, c) && !Revives(s, c))
  {
    forall readable, disk
      ensures SafeUntilEnqueue(maxEntries, Step(maxEntries, s, Enqueue(c, now, readable, disk)))
          <==> SafeEnqueue(maxEntries, s, Enqueue(c, now, readable, disk))
    {
      EnqueueSafeIff(maxEntries, s, Enqueue(c, now, readable, disk));
    }
    forall readable, disk
      ensures (Admits(maxEntries, s.file, c) ==> !RisksItself(s, c) && !Revives(s, c))
          ==> SafeEnqueue(maxEntries, s, Enqueue(c, now, readable, disk))
    {
      OutcomesOf(maxEntries, s, Enqueue(c, now, readable, disk));
    }
    OutcomesOf(maxEntries, s, Enqueue(c, now, true, Replaced));
  }

  ghost predicate SafeEnqueues(maxEntries: nat, s: State, events: seq<Event>)
    decreases |events|
  {
    events == [] ||
    (&& (events[0].Enqueue? ==> SafeEnqueue(maxEntries, s, events[0]))
     && SafeEnqueues(maxEntries, Step(maxEntries, s, events[0]), events[1..]))
  }

  /** The outbox is safe wherever the run may stop enqueueing. */
  ghost predicate SafeThroughout(maxEntries: nat, s: State, events: seq<Event>) {
    forall n :: 0 <= n <= |events| ==> SafeUntilEnqueue(maxEntries, Run(maxEntries, s, events[..n]))
  }

  lemma {:induction false} ThroughoutStep(maxEntries: nat, s: State, events: seq<Event>)
    requires events != []
    ensures SafeThroughout(maxEntries, s, events)
        <==> SafeUntilEnqueue(maxEntries, s) && SafeThroughout(maxEntries, Step(maxEntries, s, events[0]), events[1..])
  {
    var t := Step(maxEntries, s, events[0]);
    assert events[..0] == [];
    forall n | 0 < n <= |events|
      ensures Run(maxEntries, s, events[..n]) == Run(maxEntries, t, events[1..][..n - 1])
    {
      assert events[..n][1..] == events[1..][..n - 1];
    }
    if SafeThroughout(maxEntries, s, events) {
      assert SafeUntilEnqueue(maxEntries, Run(maxEntries, s, events[..0]));
      forall n | 0 <= n <= |events[1..]|
        ensures SafeUntilEnqueue(maxEntries, Run(maxEntries, t, events[1..][..n]))
      {
        assert SafeUntilEnqueue(maxEntries, Run(maxEntries, s, events[..n + 1]));
      }
    }
  }

  /**
   In every interleaving, with crashes: no message can be lost at any point
   if and only if every enqueue of the run is safe at its moment.
   */
  lemma {:induction false} RunSafeIff(maxEntries: nat, s: State, events: seq<Event>)
    requires Sane(maxEntries, s) && NoHazard(s)
    ensures SafeThroughout(maxEntries, s, events) <==> SafeEnqueues(maxEntries, s, events)
    decreases |events|
  {
    SafeIffNoHazard(maxEntries, s);
    if events == [] {
      assert events[..0] == [];
    } else {
      var e := events[0];
      var t := Step(maxEntries, s, e);
      ThroughoutStep(maxEntries, s, events);
      if e.Enqueue? {
        EnqueueSafeIff(maxEntries, s, e);
      } else {
        QuietStep(maxEntries, s, e);
      }
      StepSane(maxEntries, s, e);
      SafeIffNoHazard(maxEntries, t);
      if SafeUntilEnqueue(maxEntries, t) {
        RunSafeIff(maxEntries, t, events[1..]);
      } else {
        StartsSafe(maxEntries, t, events[1..]);
      }
    }
  }

  lemma {:induction false} StartsSafe(maxEntries: nat, s: State, events: seq<Event>)
    ensures SafeThroughout(maxEntries, s, events) ==> SafeUntilEnqueue(maxEntries, s)
  {
    assert events[..0] == [];
    assert SafeThroughout(maxEntries, s, events) ==> SafeUntilEnqueue(maxEntries, Run(maxEntries, s, events[..0]));
  }

  // ---------------------------------------------------------------------
  // A run that loses a message
  // ---------------------------------------------------------------------

  /**
   Without the proviso a message can be lost: two flushes hold a snapshot of
   one item; after the first delivers it, its identifier is enqueued again
   with different content, and the second flush marks that one sent.
   */
  lemma {:induction false} ReuseCanLose(id: string, a: Json, b: Json)
    requires a != b
    ensures exists events :: !NothingLost(Run(10, EMPTY, events))
  {
    var first := Content("c", SubmitRequest(id, a));
    var second := Content("c", SubmitRequest(id, b));
    var snapshot: seq<Event> := [
      Enqueue(first, 0, true, Replaced), BeginFlush(0, 1, true), BeginFlush(0, 1, true), SubmitReturns(0, Accepted)];
    var overtake: seq<Event> := [
      Mark(0, true, Replaced), Enqueue(second, 0, true, Replaced), SubmitReturns(1, Accepted), Mark(1, true, Replaced)];
    TwoSnapshots(first, snapshot);
    Overtaken(first, second, overtake);
    var events := snapshot + overtake;
    assert events[..4] == snapshot && events[4..] == overtake;
    RunSplit(10, EMPTY, events, 4);
    assert second in Run(10, EMPTY, events).confirmed;
  }

  function Snapshot(c: Content, answer: Option<Outcome>): FlushRun {
    FlushRun([Item(c, 0, 0, None)], 0, answer)
  }

  /** Two flushes have read one item, and the first has delivered it. */
  function Overlap(first: Content): State {
    State([Item(first, 0, 0, None)], [Snapshot(first, Some(Accepted)), Snapshot(first, None)], {first}, {first})
  }

  lemma {:induction false} TwoSnapshots(first: Content, events: seq<Event>)
    requires events == [
      Enqueue(first, 0, true, Replaced), BeginFlush(0, 1, true), BeginFlush(0, 1, true), SubmitReturns(0, Accepted)]
    ensures Run(10, EMPTY, events) == Overlap(first)
  {
    var x := Item(first, 0, 0, None);
    assert AllDue([x], 0) == [x] && Due([x], 0, 1) == [x];
    var s1 := Step(10, EMPTY, events[0]);
    assert s1.file == [x];
    var s3 := Step(10, Step(10, s1, events[1]), events[2]);
    assert s3.runs == [Snapshot(first, None), Snapshot(first, None)];
    RunFour(10, EMPTY, events);
  }

  lemma {:induction false} Overtaken(first: Content, second: Content, events: seq<Event>)
    requires first != second && first.request.messageId == second.request.messageId
    requires events == [
      Mark(0, true, Replaced), Enqueue(second, 0, true, Replaced), SubmitReturns(1, Accepted), Mark(1, true, Replaced)]
    ensures var s := Run(10, Overlap(first), events);
      s.file == [] && second in s.confirmed && second !in s.delivered
  {
    var x, y := Item(first, 0, 0, None), Item(second, 0, 0, None);
    LoneItemLeaves(x);
    LoneItemLeaves(y);
    var s1 := Step(10, Overlap(first), events[0]);
    assert s1.file == [] && s1.runs[1] == Snapshot(first, None);
    var s2 := Step(10, s1, events[1]);
    assert s2.file == [y] && s2.runs == s1.runs;
    var s3 := Step(10, s2, events[2]);
    assert s3.runs[1] == Snapshot(first, Some(Accepted)) && s3.file == [y];
    RunFour(10, Overlap(first), events);
  }

  lemma {:induction false} LoneItemLeaves(x: Item)
    ensures Without([x], x.Id()) == []
  {
  }

  lemma {:induction false} RunFour(maxEntries: nat, s: State, events: seq<Event>)
    requires |events| == 4
    ensures Run(maxEntries, s, events) ==
      var t := Step(maxEntries, Step(maxEntries, s, events[0]), events[1]);
      Step(maxEntries, Step(maxEntries, t, events[2]), events[3])
  {
    RunSplit(maxEntries, s, events, 2);
    RunTwo(maxEntries, s, events[..2]);
    RunTwo(maxEntries, Run(maxEntries, s, events[..2]), events[2..]);
  }

  lemma {:induction false} RunTwo(maxEntries: nat, s: State, events: seq<Event>)
    requires |events| == 2
    ensures Run(maxEntries, s, events) == Step(maxEntries, Step(maxEntries, s, events[0]), events[1])
  {
    var t := Step(maxEntries, s, events[0]);
    assert Run(maxEntries, t, events[1..]) == Run(maxEntries, Step(maxEntries, t, events[1]), events[1..][1..]);
  }

  // ---------------------------------------------------------------------
  // A run that comes to wait on an identifier
  // ---------------------------------------------------------------------

  function Fresh(c: Content): Item {
    Item(c, 0, 0, None)
  }

  function BothQueued(a: Content, b: Content, answer: Option<Outcome>): FlushRun {
    FlushRun([Fresh(a), Fresh(b)], 0, answer)
  }

  /** Two flushes have read `a` and `b`; the server refused `a` to the first and has not answered the second. */
  function Refused(a: Content, b: Content): State {
    State([Fresh(a), Fresh(b)], [BothQueued(a, b, Some(Rejected(""))), BothQueued(a, b, None)], {a, b}, {})
  }

  /** The second flush has delivered both, and `b'` has been enqueued under the identifier of `b`. */
  function Waiting(a: Content, b: Content, b': Content): State {
    State([Fresh(b')], [BothQueued(a, b, Some(Rejected(""))), FlushRun([], 0, None)], {a, b, b'}, {a, b})
  }

  lemma {:induction false} TwoEnqueued(a: Content, b: Content)
    requires a.request.messageId != b.request.messageId
    ensures var s := Step(10, EMPTY, Enqueue(a, 0, true, Replaced));
      Step(10, s, Enqueue(b, 0, true, Replaced)) == State([Fresh(a), Fresh(b)], [], {a, b}, {})
  {
    var s := Step(10, EMPTY, Enqueue(a, 0, true, Replaced));
    assert s.file == [Fresh(a)];
    assert IndexOf(s.file, b.request.messageId) == 1;
  }

  lemma {:induction false} BothDue(a: Content, b: Content)
    ensures Due([Fresh(a), Fresh(b)], 0, 2) == [Fresh(a), Fresh(b)]
  {
    assert AllDue([Fresh(b)], 0) == [Fresh(b)];
    assert AllDue([Fresh(a), Fresh(b)], 0) == [Fresh(a), Fresh(b)];
  }

  lemma {:induction false} RunToRefused(a: Content, b: Content, begin: seq<Event>)
    requires a.request.messageId != b.request.messageId
    requires begin == [
      Enqueue(a, 0, true, Replaced), Enqueue(b, 0, true, Replaced), BeginFlush(0, 2, true), BeginFlush(0, 2, true)]
    ensures Step(10, Run(10, EMPTY, begin), SubmitReturns(0, Rejected(""))) == Refused(a, b)
  {
    TwoEnqueued(a, b);
    BothDue(a, b);
    RunFour(10, EMPTY, begin);
  }

  lemma {:induction false} RunToWaiting(a: Content, b: Content, b': Content, finish: seq<Event>)
    requires a.request.messageId != b.request.messageId == b'.request.messageId
    requires finish == [
      SubmitReturns(1, Accepted), Mark(1, true, Replaced), SubmitReturns(1, Accepted), Mark(1, true, Replaced)]
    ensures Step(10, Run(10, Refused(a, b), finish), Enqueue(b', 0, true, Replaced)) == Waiting(a, b, b')
  {
    var x, y := Fresh(a), Fresh(b);
    LoneItemLeaves(y);
    assert [x, y][1..] == [y];
    WithoutMissing([y], x.Id());
    assert Without([x, y], x.Id()) == [y];
    var s1 := Step(10, Refused(a, b), finish[0]);
    var s2 := Step(10, s1, finish[1]);
    assert s2.file == [y] && s2.runs[1] == FlushRun([y], 0, None);
    var s3 := Step(10, s2, finish[2]);
    assert s3.delivered == {a, b};
    var s4 := Step(10, s3, finish[3]);
    assert s4.file == [] && s4.runs == Waiting(a, b, b').runs;
    RunFour(10, Refused(a, b), finish);
  }

  lemma {:induction false} WaitingState(a: Content, b: Content, b': Content)
    requires a.request.messageId != b.request.messageId == b'.request.messageId && b != b'
    ensures Sane(10, Waiting(a, b, b')) && NoHazard(Waiting(a, b, b'))
    ensures Revives(Waiting(a, b, b'), a) && Admits(10, Waiting(a, b, b').file, a)
  {
    var s := Waiting(a, b, b');
    assert s.file[0].content == b';
    assert HeldOtherwise(s, 0, 1, b');
    assert IndexOf(s.file, a.request.messageId) == 1;
    forall i: nat, k: nat, c
      ensures !Hazard(s, i, k, c)
    {
    }
  }

  lemma {:induction false} ReachesWaiting(a: Content, b: Content, b': Content) returns (events: seq<Event>)
    requires a.request.messageId != b.request.messageId == b'.request.messageId
    ensures |events| == 10 && Run(10, EMPTY, events) == Waiting(a, b, b')
  {
    var begin: seq<Event> := [
      Enqueue(a, 0, true, Replaced), Enqueue(b, 0, true, Replaced), BeginFlush(0, 2, true), BeginFlush(0, 2, true)];
    var finish: seq<Event> := [
      SubmitReturns(1, Accepted), Mark(1, true, Replaced), SubmitReturns(1, Accepted), Mark(1, true, Replaced)];
    RunToRefused(a, b, begin);
    RunToWaiting(a, b, b', finish);
    var first, second := begin + [SubmitReturns(0, Rejected(""))], finish + [Enqueue(b', 0, true, Replaced)];
    RunSnoc(10, EMPTY, begin, SubmitReturns(0, Rejected("")));
    RunSnoc(10, Refused(a, b), finish, Enqueue(b', 0, true, Replaced));
    events := first + second;
    RunSplit(10, EMPTY, events, 5);
    assert events[..5] == first && events[5..] == second;
  }

  /** A state in which no message is at risk, until enqueueing `a` once more brings one about. */
  ghost predicate RisksByReviving(s: State, a: Content) {
    && SafeUntilEnqueue(10, s)
    && Revives(s, a)
    && !SafeUntilEnqueue(10, Step(10, s, Enqueue(a, 0, true, Replaced)))
  }

  /** The second kind of unsafe enqueue is reached as well: from the empty outbox, in ten events. */
  lemma {:induction false} RevivalCanLose(a: Content, b: Content, b': Content)
    requires a.request.messageId != b.request.messageId == b'.request.messageId && b != b'
    ensures exists events :: RisksByReviving(Run(10, EMPTY, events), a)
  {
    var s := Waiting(a, b, b');
    WaitingState(a, b, b');
    SafeIffNoHazard(10, s);
    OutcomesOf(10, s, Enqueue(a, 0, true, Replaced));
    EnqueueSafeIff(10, s, Enqueue(a, 0, true, Replaced));
    assert RisksByReviving(s, a);
    var events := ReachesWaiting(a, b, b');
    assert RisksByReviving(Run(10, EMPTY, events), a);
  }

  lemma {:induction false} RunSnoc(maxEntries: nat, s: State, events: seq<Event>, e: Event)
    ensures Run(maxEntries, s, events + [e]) == Step(maxEntries, Run(maxEntries, s, events), e)
  {
    RunSplit(maxEntries, s, events + [e], |events|);
    var t := Run(maxEntries, s, events);
    assert (events + [e])[..|events|] == events && (events + [e])[|events|..] == [e];
    assert Run(maxEntries, t, [e]) == Run(maxEntries, Step(maxEntries, t, e), [e][1..]);
  }
}
