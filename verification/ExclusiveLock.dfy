/**
 The promise chain that serializes the TypeScript outbox. A call replaces the
 tail promise by its own, waits for the previous one, runs its operation and
 resolves its promise whether or not the operation threw. Operations await
 the store and the server, so the steps of different calls interleave.
 */
module ExclusiveLock {
  import opened Wrappers
  import opened OutboxQueue
  import opened ConversationOutbox
  import opened CanonicalJson

  datatype Op =
    | Enqueue(content: Content, now: int)
    | FlushDue(now: int, limit: nat, server: Server)

  /**
   Where a call is: waiting for the promise before it, entered, working on a
   loaded queue with items left to submit, or done. A done call remembers
   whether it replaced the store and whether it returned rather than threw: a
   store may persist the queue and reject all the same.
   */
  datatype Phase =
    | Waiting
    | Entered
    | Working(items: seq<Item>, due: seq<Item>)
    | Done(saved: bool, returned: bool)

  datatype Call = Call(op: Op, phase: Phase)

  /** The store and all calls so far, in call order; call i waits for the promise of call i - 1. */
  datatype State = State(stored: seq<Item>, calls: seq<Call>)

  datatype Event =
    | Invoke(op: Op)
    | Enter(call: nat)
    | Load(call: nat, ok: bool)
    | Submit(call: nat)
    | Save(call: nat, disk: Disk)

  function With(s: State, i: nat, phase: Phase): State
    requires i < |s.calls|
  {
    s.(calls := s.calls[i := s.calls[i].(phase := phase)])
  }

  predicate PreviousResolved(s: State, i: nat)
    requires i < |s.calls|
  {
    i == 0 || s.calls[i - 1].phase.Done?
  }

  /** What follows a successful load: a queue to work on, or an early end. */
  function AfterLoad(op: Op, maxEntries: nat, stored: seq<Item>): Phase {
    match op
    case Enqueue(content, now) =>
      var r := EnqueuedByText(stored, maxEntries, content, now);
      if r.Err? then Done(false, false)
      else if r.value == stored then Done(false, true)
      else Working(r.value, [])
    case FlushDue(now, limit, server) => Working(stored, Due(stored, now, limit))
  }

  /** One submit of a flush, and what it does to the loaded queue. */
  function AfterSubmit(op: Op, w: Phase): Phase
    requires w.Working? && w.due != []
  {
    match op
    case Enqueue(_, _) => w
    case FlushDue(now, _, server) =>
      var id := w.due[0].Id();
      Working(Answered(Flushed(w.items, 0), id, now, server(id), PlainReschedule).items, w.due[1..])
  }

  /** Events that do not apply leave the state alone. */
  function Step(maxEntries: nat, s: State, e: Event): State {
    match e
    case Invoke(op) => s.(calls := s.calls + [Call(op, Waiting)])
    case Enter(i) =>
      if i < |s.calls| && s.calls[i].phase.Waiting? && PreviousResolved(s, i) then With(s, i, Entered) else s
    case Load(i, ok) =>
      if i < |s.calls| && s.calls[i].phase.Entered? then
        if ok && |s.stored| <= maxEntries then With(s, i, AfterLoad(s.calls[i].op, maxEntries, s.stored))
        else With(s, i, Done(false, false))
      else s
    case Submit(i) =>
      if i < |s.calls| && s.calls[i].phase.Working? && s.calls[i].phase.due != [] then
        With(s, i, AfterSubmit(s.calls[i].op, s.calls[i].phase))
      else s
    case Save(i, disk) =>
      if i < |s.calls| && s.calls[i].phase.Working? && s.calls[i].phase.due == [] then
        var items := s.calls[i].phase.items;
        if |items| <= maxEntries && !disk.Unchanged? then With(s, i, Done(true, disk.Replaced?)).(stored := items)
        else With(s, i, Done(false, false))
      else s
  }

  function Run(maxEntries: nat, s: State, events: seq<Event>): State
    decreases |events|
  {
    if events == [] then s else Run(maxEntries, Step(maxEntries, s, events[0]), events[1..])
  }

  // ---------------------------------------------------------------------
  // The same operations, one after another
  // ---------------------------------------------------------------------

  /** What an operation makes of the queue when nothing disturbs it. */
  function Applied(op: Op, maxEntries: nat, stored: seq<Item>): seq<Item> {
    match op
    case Enqueue(content, now) =>
      var r := EnqueuedByText(stored, maxEntries, content, now);
      if r.Ok? then r.value else stored
    case FlushDue(now, limit, server) => Flush(stored, now, limit, server, PlainReschedule).items
  }

  /** The store after the calls have run in call order; a call that did not replace it changes nothing. */
  function Sequential(maxEntries: nat, stored: seq<Item>, calls: seq<Call>): seq<Item> {
    if calls == [] then stored
    else
      var last := calls[|calls| - 1];
      var before := Sequential(maxEntries, stored, calls[..|calls| - 1]);
      if last.phase.Done? && last.phase.saved then Applied(last.op, maxEntries, before) else before
  }

  // ---------------------------------------------------------------------
  // The invariant
  // ---------------------------------------------------------------------

  ghost predicate Bounded(maxEntries: nat, items: seq<Item>) {
    UniqueIds(items) && |items| <= maxEntries
  }

  /** The loaded queue of a working call is its operation half done on the store. */
  ghost predicate HalfDone(op: Op, maxEntries: nat, stored: seq<Item>, w: Phase)
    requires w.Working?
  {
    match op
    case Enqueue(content, now) => w.due == [] && EnqueuedByText(stored, maxEntries, content, now) == Ok(w.items)
    case FlushDue(now, limit, server) =>
      var due := Due(stored, now, limit);
      && |w.due| <= |due|
      && w.due == due[|due| - |w.due|..]
      && w.items == Flush(stored, now, |due| - |w.due|, server, PlainReschedule).items
  }

  /** A queued content stands for a request: it is that request, or an equal one that absorbed it. */
  ghost predicate StandsFor(queued: Content, c: Content) {
    queued == c ||
    (&& queued.conversationId == c.conversationId
     && queued.request.messageId == c.request.messageId
     && Canonical(queued.request.body).Some?
     && Canonical(queued.request.body) == Canonical(c.request.body))
  }

  ghost predicate Holds(items: seq<Item>, c: Content) {
    exists d :: HasContent(items, d) && StandsFor(d, c)
  }

  /** An enqueue that returned left the store holding its request. */
  ghost predicate KeepsPromise(call: Call, after: seq<Item>) {
    call.op.Enqueue? && call.phase.Done? && call.phase.returned ==> Holds(after, call.op.content)
  }

  ghost predicate Promises(maxEntries: nat, init: seq<Item>, calls: seq<Call>) {
    forall i :: 0 <= i < |calls| ==> KeepsPromise(calls[i], Sequential(maxEntries, init, calls[..i + 1]))
  }

  /** The first `k` calls are done, later ones than k wait, and call k may be anywhere. */
  ghost predicate Inv(maxEntries: nat, init: seq<Item>, s: State, k: nat) {
    && k <= |s.calls|
    && (forall i :: 0 <= i < k ==> s.calls[i].phase.Done?)
    && (forall i :: k < i < |s.calls| ==> s.calls[i].phase.Waiting?)
    && (k < |s.calls| ==> !s.calls[k].phase.Done?)
    && (k < |s.calls| && s.calls[k].phase.Working? ==> HalfDone(s.calls[k].op, maxEntries, s.stored, s.calls[k].phase))
    && s.stored == Sequential(maxEntries, init, s.calls[..k])
    && Promises(maxEntries, init, s.calls[..k])
    && Bounded(maxEntries, s.stored)
  }

  lemma {:induction false} InvokeInv(maxEntries: nat, init: seq<Item>, s: State, k: nat, op: Op)
    requires Inv(maxEntries, init, s, k)
    ensures Inv(maxEntries, init, Step(maxEntries, s, Invoke(op)), k)
  {
    assert Step(maxEntries, s, Invoke(op)).calls[..k] == s.calls[..k];
  }

  /** A call moves on without finishing. */
  lemma {:induction false} MoveInv(maxEntries: nat, init: seq<Item>, s: State, k: nat, phase: Phase)
    requires Inv(maxEntries, init, s, k) && k < |s.calls|
    requires !phase.Done? && (phase.Working? ==> HalfDone(s.calls[k].op, maxEntries, s.stored, phase))
    ensures Inv(maxEntries, init, With(s, k, phase), k)
  {
    assert With(s, k, phase).calls[..k] == s.calls[..k];
  }

  lemma {:induction false} OneMoreCall(maxEntries: nat, init: seq<Item>, calls: seq<Call>, call: Call)
    ensures var before, after := Sequential(maxEntries, init, calls), Sequential(maxEntries, init, calls + [call]);
      && after == (if call.phase.Done? && call.phase.saved then Applied(call.op, maxEntries, before) else before)
      && (Promises(maxEntries, init, calls) && KeepsPromise(call, after) ==> Promises(maxEntries, init, calls + [call]))
  {
    var more := calls + [call];
    assert more[..|calls|] == calls && more[..|more|] == more;
    forall i | Promises(maxEntries, init, calls) && 0 <= i < |calls|
      ensures KeepsPromise(more[i], Sequential(maxEntries, init, more[..i + 1]))
    {
      assert more[..i + 1] == calls[..i + 1];
    }
  }

  /** A call finishes: by an exception, by an early return, or by saving. */
  lemma {:induction false} FinishInv(
    maxEntries: nat, init: seq<Item>, s: State, k: nat, saved: bool, returned: bool, stored: seq<Item>)
    requires Inv(maxEntries, init, s, k) && k < |s.calls| && Bounded(maxEntries, stored)
    requires stored == if saved then Applied(s.calls[k].op, maxEntries, s.stored) else s.stored
    requires s.calls[k].op.Enqueue? && returned ==> Holds(stored, s.calls[k].op.content)
    ensures Inv(maxEntries, init, With(s, k, Done(saved, returned)).(stored := stored), k + 1)
  {
    var t := With(s, k, Done(saved, returned)).(stored := stored);
    var call := s.calls[k].(phase := Done(saved, returned));
    assert t.calls[..k + 1] == s.calls[..k] + [call];
    OneMoreCall(maxEntries, init, s.calls[..k], call);
  }

  /** What an enqueue leaves when it goes through. */
  lemma {:induction false} EnqueuedHolds(maxEntries: nat, stored: seq<Item>, content: Content, now: int)
    requires EnqueuedByText(stored, maxEntries, content, now).Ok?
    ensures Holds(EnqueuedByText(stored, maxEntries, content, now).value, content)
  {
    var items := EnqueuedByText(stored, maxEntries, content, now).value;
    var k := IndexOf(stored, content.request.messageId);
    var d := if k < |stored| then stored[k].content else content;
    assert items[k].content == d;
    assert HasContent(items, d) && StandsFor(d, content);
  }

  lemma {:induction false} LoadInv(maxEntries: nat, init: seq<Item>, s: State, k: nat, ok: bool) returns (k': nat)
    requires Inv(maxEntries, init, s, k) && k < |s.calls| && s.calls[k].phase.Entered?
    ensures Inv(maxEntries, init, Step(maxEntries, s, Load(k, ok)), k')
  {
    var op := s.calls[k].op;
    var after := AfterLoad(op, maxEntries, s.stored);
    if !ok || after.Done? {
      if ok && after.returned {
        EnqueuedHolds(maxEntries, s.stored, op.content, op.now);
      }
      FinishInv(maxEntries, init, s, k, false, ok && after.returned, s.stored);
      k' := k + 1;
    } else {
      if op.FlushDue? {
        FlushNothing(s.stored, op.now, op.server, PlainReschedule);
      }
      MoveInv(maxEntries, init, s, k, after);
      k' := k;
    }
  }

  lemma {:induction false} NextSubmit(stored: seq<Item>, now: int, limit: nat, server: Server, n: nat)
    requires UniqueIds(stored) && n < |Due(stored, now, limit)|
    ensures var f, id := Flush(stored, now, n, server, PlainReschedule), Due(stored, now, limit)[n].Id();
      Answered(Flushed(f.items, 0), id, now, server(id), PlainReschedule).items
        == Flush(stored, now, n + 1, server, PlainReschedule).items
  {
    assert AllDue(stored, now)[n] == Due(stored, now, limit)[n];
    FlushOneMore(stored, now, n, server, PlainReschedule);
  }

  lemma {:induction false} SubmitHalfDone(op: Op, maxEntries: nat, stored: seq<Item>, w: Phase)
    requires w.Working? && w.due != [] && HalfDone(op, maxEntries, stored, w) && UniqueIds(stored)
    ensures HalfDone(op, maxEntries, stored, AfterSubmit(op, w))
  {
    var FlushDue(now, limit, server) := op;
    var due := Due(stored, now, limit);
    var n := |due| - |w.due|;
    assert due[n] == w.due[0];
    NextSubmit(stored, now, limit, server, n);
    assert w.due[1..] == due[n + 1..];
  }

  lemma {:induction false} SaveApplies(op: Op, maxEntries: nat, stored: seq<Item>, w: Phase)
    requires w.Working? && w.due == [] && HalfDone(op, maxEntries, stored, w) && Bounded(maxEntries, stored)
    ensures w.items == Applied(op, maxEntries, stored) && UniqueIds(w.items)
  {
    match op
    case Enqueue(content, now) =>
    case FlushDue(now, limit, server) =>
      if limit >= |AllDue(stored, now)| {
        FlushAllDue(stored, now, limit, server, PlainReschedule);
      }
      FlushUnique(stored, now, limit, server, PlainReschedule);
  }

  lemma {:induction false} SaveInv(maxEntries: nat, init: seq<Item>, s: State, k: nat, disk: Disk)
    requires Inv(maxEntries, init, s, k) && k < |s.calls| && s.calls[k].phase.Working? && s.calls[k].phase.due == []
    ensures Inv(maxEntries, init, Step(maxEntries, s, Save(k, disk)), k + 1)
  {
    var items := s.calls[k].phase.items;
    SaveApplies(s.calls[k].op, maxEntries, s.stored, s.calls[k].phase);
    var op, saved := s.calls[k].op, |items| <= maxEntries && !disk.Unchanged?;
    if op.Enqueue? && saved {
      EnqueuedHolds(maxEntries, s.stored, op.content, op.now);
    }
    FinishInv(maxEntries, init, s, k, saved, saved && disk.Replaced?, if saved then items else s.stored);
  }

  lemma {:induction false} StepInv(maxEntries: nat, init: seq<Item>, s: State, k: nat, e: Event) returns (k': nat)
    requires Inv(maxEntries, init, s, k)
    ensures Inv(maxEntries, init, Step(maxEntries, s, e), k')
  {
    k' := k;
    match e {
      case Invoke(op) => InvokeInv(maxEntries, init, s, k, op);
      case Enter(i) =>
        if Step(maxEntries, s, e) != s {
          // a waiting call whose predecessor is done is call k
          assert i == k;
          MoveInv(maxEntries, init, s, k, Entered);
        }
      case Load(i, ok) =>
        if Step(maxEntries, s, e) != s {
          assert i == k;
          k' := LoadInv(maxEntries, init, s, k, ok);
        }
      case Submit(i) =>
        if Step(maxEntries, s, e) != s {
          assert i == k;
          SubmitHalfDone(s.calls[k].op, maxEntries, s.stored, s.calls[k].phase);
          MoveInv(maxEntries, init, s, k, AfterSubmit(s.calls[k].op, s.calls[k].phase));
        }
      case Save(i, disk) =>
        if Step(maxEntries, s, e) != s {
          assert i == k;
          SaveInv(maxEntries, init, s, k, disk);
          k' := k + 1;
        }
    }
  }

  lemma {:induction false} RunInv(
    maxEntries: nat, init: seq<Item>, s: State, k: nat, events: seq<Event>) returns (k': nat)
    requires Inv(maxEntries, init, s, k)
    ensures Inv(maxEntries, init, Run(maxEntries, s, events), k')
    decreases |events|
  {
    k' := k;
    if events != [] {
      k' := StepInv(maxEntries, init, s, k, events[0]);
      k' := RunInv(maxEntries, init, Step(maxEntries, s, events[0]), k', events[1..]);
    }
  }

  /**
   In every interleaving, with operations that throw: at most one call is
   inside its operation, calls finish in call order, and the store is what
   the finished calls leave when run one after another.
   */
  lemma {:induction false} SerializedInCallOrder(maxEntries: nat, init: seq<Item>, events: seq<Event>) returns (k: nat)
    requires Bounded(maxEntries, init)
    ensures var s := Run(maxEntries, State(init, []), events);
      && k <= |s.calls|
      && (forall i :: 0 <= i < |s.calls| ==> (s.calls[i].phase.Done? <==> i < k))
      && (forall i :: 0 <= i < |s.calls| && (s.calls[i].phase.Entered? || s.calls[i].phase.Working?) ==> i == k)
      && s.stored == Sequential(maxEntries, init, s.calls[..k])
      && Bounded(maxEntries, s.stored)
  {
    k := RunInv(maxEntries, init, State(init, []), 0, events);
  }

  // ---------------------------------------------------------------------
  // Nothing is lost
  // ---------------------------------------------------------------------

  /** A flush of this queue submits the content, and the server accepts it. */
  ghost predicate Delivers(op: Op, before: seq<Item>, c: Content) {
    op.FlushDue? && HasContent(Due(before, op.now, op.limit), c) && op.server(c.request.messageId).Accepted?
  }

  /** One of the calls from the n-th on has submitted the content, saved the queue without it, and so delivered it. */
  ghost predicate DeliveredFrom(maxEntries: nat, init: seq<Item>, calls: seq<Call>, n: nat, c: Content) {
    exists i :: n <= i < |calls| && DeliveredBy(calls[i], Sequential(maxEntries, init, calls[..i]), c)
  }

  ghost predicate DeliveredBy(call: Call, before: seq<Item>, c: Content) {
    call.phase.Done? && call.phase.saved && Delivers(call.op, before, c)
  }

  lemma {:induction false} DeliveredEarlier(
    maxEntries: nat, init: seq<Item>, calls: seq<Call>, m: nat, n: nat, c: Content)
    requires m <= |calls| && DeliveredFrom(maxEntries, init, calls[..m], n, c)
    ensures DeliveredFrom(maxEntries, init, calls, n, c)
  {
    var i :| n <= i < m && DeliveredBy(calls[..m][i], Sequential(maxEntries, init, calls[..m][..i]), c);
    assert calls[..m][..i] == calls[..i];
  }

  lemma {:induction false} AppliedKeeps(op: Op, maxEntries: nat, stored: seq<Item>, c: Content)
    requires HasContent(stored, c)
    ensures HasContent(Applied(op, maxEntries, stored), c) || Delivers(op, stored, c)
  {
    var i :| 0 <= i < |stored| && stored[i].content == c;
    match op
    case Enqueue(content, now) => assert Applied(op, maxEntries, stored)[i] == stored[i];
    case FlushDue(now, limit, server) =>
      FlushKeepsUnaccepted(stored, now, limit, server, PlainReschedule, i);
      if stored[i] in Due(stored, now, limit) {
        var k :| 0 <= k < |Due(stored, now, limit)| && Due(stored, now, limit)[k] == stored[i];
      }
  }

  lemma {:induction false} LastCallKeeps(maxEntries: nat, init: seq<Item>, calls: seq<Call>, c: Content)
    requires calls != [] && HasContent(Sequential(maxEntries, init, calls[..|calls| - 1]), c)
    ensures HasContent(Sequential(maxEntries, init, calls), c)
      || DeliveredBy(calls[|calls| - 1], Sequential(maxEntries, init, calls[..|calls| - 1]), c)
  {
    var last := calls[|calls| - 1];
    if last.phase.Done? && last.phase.saved {
      AppliedKeeps(last.op, maxEntries, Sequential(maxEntries, init, calls[..|calls| - 1]), c);
    }
  }

  /** Content in the store after some calls is still there after all, or a later call has delivered it. */
  lemma {:induction false} KeptOrDelivered(maxEntries: nat, init: seq<Item>, calls: seq<Call>, n: nat, c: Content)
    requires n <= |calls| && HasContent(Sequential(maxEntries, init, calls[..n]), c)
    ensures HasContent(Sequential(maxEntries, init, calls), c) || DeliveredFrom(maxEntries, init, calls, n, c)
    decreases |calls|
  {
    if n == |calls| {
      assert calls[..n] == calls;
    } else {
      var m := |calls| - 1;
      assert calls[..m][..n] == calls[..n];
      KeptOrDelivered(maxEntries, init, calls[..m], n, c);
      var before := Sequential(maxEntries, init, calls[..m]);
      if !HasContent(before, c) {
        DeliveredEarlier(maxEntries, init, calls, m, n, c);
      } else {
        LastCallKeeps(maxEntries, init, calls, c);
      }
    }
  }

  lemma {:induction false} PromiseKept(maxEntries: nat, init: seq<Item>, calls: seq<Call>, i: nat) returns (d: Content)
    requires Promises(maxEntries, init, calls)
    requires i < |calls| && calls[i].op.Enqueue? && calls[i].phase.Done? && calls[i].phase.returned
    ensures StandsFor(d, calls[i].op.content)
    ensures HasContent(Sequential(maxEntries, init, calls), d) || DeliveredFrom(maxEntries, init, calls, i + 1, d)
  {
    assert KeepsPromise(calls[i], Sequential(maxEntries, init, calls[..i + 1]));
    d :| HasContent(Sequential(maxEntries, init, calls[..i + 1]), d) && StandsFor(d, calls[i].op.content);
    KeptOrDelivered(maxEntries, init, calls, i + 1, d);
  }

  /**
   In every interleaving, also when identifiers are used again for other
   content: a request whose enqueue returned is still in the store, itself or
   as the equal request that absorbed it, or a later flush has delivered it.
   */
  lemma {:induction false} NothingLost(
    maxEntries: nat, init: seq<Item>, events: seq<Event>, i: nat) returns (d: Content)
    requires Bounded(maxEntries, init)
    requires var s := Run(maxEntries, State(init, []), events);
      i < |s.calls| && s.calls[i].op.Enqueue? && s.calls[i].phase.Done? && s.calls[i].phase.returned
    ensures var s := Run(maxEntries, State(init, []), events);
      && StandsFor(d, s.calls[i].op.content)
      && (HasContent(s.stored, d) || DeliveredFrom(maxEntries, init, s.calls, i + 1, d))
  {
    var s := Run(maxEntries, State(init, []), events);
    var k := RunInv(maxEntries, init, State(init, []), 0, events);
    assert s.calls[..k][i] == s.calls[i];
    d := PromiseKept(maxEntries, init, s.calls[..k], i);
    if !HasContent(s.stored, d) {
      DeliveredEarlier(maxEntries, init, s.calls, k, i + 1, d);
    }
  }
}
