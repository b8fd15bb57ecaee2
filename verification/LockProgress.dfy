/**
 The promise chain gets every call done: what a call leaves when its turn
 comes, for every answer of the store, and that no state is stuck.
 */
module LockProgress {
  import opened Wrappers
  import opened OutboxQueue
  import opened ConversationOutbox
  import opened ExclusiveLock

  lemma {:induction false} RunSplit(maxEntries: nat, s: State, xs: seq<Event>, ys: seq<Event>)
    ensures Run(maxEntries, s, xs + ys) == Run(maxEntries, Run(maxEntries, s, xs), ys)
    decreases |xs|
  {
    if xs == [] {
      assert xs + ys == ys;
    } else {
      assert (xs + ys)[0] == xs[0] && (xs + ys)[1..] == xs[1..] + ys;
      RunSplit(maxEntries, Step(maxEntries, s, xs[0]), xs[1..], ys);
    }
  }

  lemma {:induction false} RunOne(maxEntries: nat, s: State, e: Event)
    ensures Run(maxEntries, s, [e]) == Step(maxEntries, s, e)
  {
    assert Run(maxEntries, Step(maxEntries, s, e), [e][1..]) == Step(maxEntries, s, e);
  }

  // ---------------------------------------------------------------------
  // One call
  // ---------------------------------------------------------------------

  /** How a call ends, and the store it leaves. */
  datatype Ended = Ended(phase: Phase, stored: seq<Item>)

  /** Saving a queue: the store keeps it unless it is left alone, and the call returns when the store says so. */
  function Saved(stored: seq<Item>, items: seq<Item>, disk: Disk): Ended {
    match disk
    case Replaced => Ended(Done(true, true), items)
    case ReplacedThenFailed => Ended(Done(true, false), items)
    case Unchanged => Ended(Done(false, false), stored)
  }

  /**
   What the outbox of one caller would do: nothing when loading fails, an
   error for a refused request, nothing for an absorbed one, and otherwise
   the new queue saved.
   */
  function EndOf(op: Op, maxEntries: nat, stored: seq<Item>, loads: bool, disk: Disk): Ended {
    if !loads then Ended(Done(false, false), stored)
    else
      match op
      case Enqueue(content, now) =>
        (match EnqueuedByText(stored, maxEntries, content, now)
         case Err(_) => Ended(Done(false, false), stored)
         case Ok(items) => if items == stored then Ended(Done(false, true), stored) else Saved(stored, items, disk))
      case FlushDue(now, limit, server) =>
        Saved(stored, Flush(stored, now, limit, server, PlainReschedule).items, disk)
  }

  function With(s: State, k: nat, e: Ended): State
    requires k < |s.calls|
  {
    State(e.stored, s.calls[k := s.calls[k].(phase := e.phase)])
  }

  lemma {:induction false} AppliedFits(op: Op, maxEntries: nat, stored: seq<Item>)
    requires |stored| <= maxEntries
    ensures |Applied(op, maxEntries, stored)| <= maxEntries
  {
    match op
    case Enqueue(_, _) =>
    case FlushDue(now, limit, server) => FlushConserves(stored, now, limit, server, PlainReschedule);
  }

  /** Submitting all due items of the call whose turn it is. */
  lemma {:induction false} SubmitAll(maxEntries: nat, s: State, k: nat) returns (events: seq<Event>)
    requires k < |s.calls| && s.calls[k].phase.Working? && UniqueIds(s.stored)
    requires HalfDone(s.calls[k].op, maxEntries, s.stored, s.calls[k].phase)
    ensures var t := Run(maxEntries, s, events);
      && |t.calls| == |s.calls| && t.stored == s.stored
      && t.calls == s.calls[k := t.calls[k]] && t.calls[k].op == s.calls[k].op
      && t.calls[k].phase.Working? && t.calls[k].phase.due == []
      && HalfDone(s.calls[k].op, maxEntries, s.stored, t.calls[k].phase)
    decreases |s.calls[k].phase.due|
  {
    if s.calls[k].phase.due == [] {
      events := [];
      assert s.calls == s.calls[k := s.calls[k]];
    } else {
      var t := Step(maxEntries, s, Submit(k));
      SubmitHalfDone(s.calls[k].op, maxEntries, s.stored, s.calls[k].phase);
      var rest := SubmitAll(maxEntries, t, k);
      events := [Submit(k)] + rest;
      assert events[1..] == rest;
    }
  }

  /** A call with its queue loaded submits, saves and is done. */
  lemma {:induction false} WorkAndSave(maxEntries: nat, s: State, k: nat, disk: Disk) returns (events: seq<Event>)
    requires k < |s.calls| && s.calls[k].phase.Working? && Bounded(maxEntries, s.stored)
    requires HalfDone(s.calls[k].op, maxEntries, s.stored, s.calls[k].phase)
    ensures Run(maxEntries, s, events)
         == With(s, k, Saved(s.stored, Applied(s.calls[k].op, maxEntries, s.stored), disk))
  {
    var submits := SubmitAll(maxEntries, s, k);
    var t := Run(maxEntries, s, submits);
    SaveApplies(s.calls[k].op, maxEntries, s.stored, t.calls[k].phase);
    AppliedFits(s.calls[k].op, maxEntries, s.stored);
    events := submits + [Save(k, disk)];
    RunSplit(maxEntries, s, submits, [Save(k, disk)]);
    RunOne(maxEntries, t, Save(k, disk));
  }

  /** A call that has entered loads, works and is done. */
  lemma {:induction false} LoadAndWork(maxEntries: nat, s: State, k: nat, loads: bool, disk: Disk)
    returns (events: seq<Event>)
    requires k < |s.calls| && s.calls[k].phase.Entered? && Bounded(maxEntries, s.stored)
    ensures Run(maxEntries, s, events) == With(s, k, EndOf(s.calls[k].op, maxEntries, s.stored, loads, disk))
  {
    var op, load := s.calls[k].op, Load(k, loads);
    var t := Step(maxEntries, s, load);
    RunOne(maxEntries, s, load);
    events := [load];
    if loads && AfterLoad(op, maxEntries, s.stored).Working? {
      if op.FlushDue? {
        FlushNothing(s.stored, op.now, op.server, PlainReschedule);
      }
      var work := WorkAndSave(maxEntries, t, k, disk);
      events := [load] + work;
      RunSplit(maxEntries, s, [load], work);
    }
  }

  /**
   When its turn comes a call does what the outbox does for one caller: for
   every answer of the store there is a run to its end, in which no other
   call moves.
   */
  lemma {:induction false} CallEnds(
    maxEntries: nat, init: seq<Item>, s: State, k: nat, loads: bool, disk: Disk) returns (events: seq<Event>)
    requires Inv(maxEntries, init, s, k) && k < |s.calls| && s.calls[k].phase.Waiting?
    ensures Run(maxEntries, s, events) == With(s, k, EndOf(s.calls[k].op, maxEntries, s.stored, loads, disk))
  {
    var enter := Enter(k);
    var t := Step(maxEntries, s, enter);
    assert t == ExclusiveLock.With(s, k, Entered);
    var work := LoadAndWork(maxEntries, t, k, loads, disk);
    events := [enter] + work;
    RunOne(maxEntries, s, enter);
    RunSplit(maxEntries, s, [enter], work);
  }

  // ---------------------------------------------------------------------
  // No call is stuck
  // ---------------------------------------------------------------------

  lemma {:induction false} FinishOne(maxEntries: nat, init: seq<Item>, s: State, k: nat) returns (events: seq<Event>)
    requires Inv(maxEntries, init, s, k) && k < |s.calls|
    ensures var t := Run(maxEntries, s, events);
      && |t.calls| == |s.calls| && t.calls[k].phase.Done?
      && forall i :: 0 <= i < |s.calls| && i != k ==> t.calls[i] == s.calls[i]
  {
    match s.calls[k].phase
    case Waiting => events := CallEnds(maxEntries, init, s, k, true, Replaced);
    case Entered => events := LoadAndWork(maxEntries, s, k, true, Replaced);
    case Working(_, _) => events := WorkAndSave(maxEntries, s, k, Replaced);
  }

  lemma {:induction false} FinishFrom(maxEntries: nat, init: seq<Item>, s: State, k: nat) returns (events: seq<Event>)
    requires Inv(maxEntries, init, s, k)
    ensures var t := Run(maxEntries, s, events);
      |t.calls| == |s.calls| && forall i :: 0 <= i < |t.calls| ==> t.calls[i].phase.Done?
    decreases |s.calls| - k
  {
    events := [];
    if k < |s.calls| {
      var first := FinishOne(maxEntries, init, s, k);
      var t := Run(maxEntries, s, first);
      var k' := RunInv(maxEntries, init, s, k, first);
      assert k' > k;
      var rest := FinishFrom(maxEntries, init, t, k');
      events := first + rest;
      RunSplit(maxEntries, s, first, rest);
    }
  }

  /** From every state that any interleaving reaches, all calls made so far can still be done. */
  lemma {:induction false} NeverStuck(maxEntries: nat, init: seq<Item>, past: seq<Event>) returns (future: seq<Event>)
    requires Bounded(maxEntries, init)
    ensures var s := Run(maxEntries, State(init, []), past);
      var t := Run(maxEntries, s, future);
      |t.calls| == |s.calls| && forall i :: 0 <= i < |t.calls| ==> t.calls[i].phase.Done?
  {
    var k := RunInv(maxEntries, init, State(init, []), 0, past);
    future := FinishFrom(maxEntries, init, Run(maxEntries, State(init, []), past), k);
  }

  // ---------------------------------------------------------------------
  // What an enqueue takes
  // ---------------------------------------------------------------------

  /** A new identifier is taken while there is room, to be sent at once; never changed, never tried yet. */
  lemma {:induction false} NewIsTaken(items: seq<Item>, maxEntries: nat, content: Content, now: int)
    requires forall i :: 0 <= i < |items| ==> items[i].content.request.messageId != content.request.messageId
    ensures EnqueuedByText(items, maxEntries, content, now) ==
      if |items| < maxEntries then Ok(items + [Item(content, 0, now, None)]) else Err(EntryLimitReached)
  {
  }
}
