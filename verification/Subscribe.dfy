/**
  The hand-off from the engine to a subscriber: the one-deep mailbox
  (src/core/conflating_slot.h) and the race between subscribing and publishing
  (src/aggregator/service.cc, src/aggregator/engine.cc).
*/
module Subscribers {
  import opened Levels

  /** A mailbox that keeps only the newest value. */
  class ConflatingSlot<T> {
    var pending: Option<T>
    var stopped: bool
    var conflated: nat
    ghost var accepted: nat
    ghost var taken: nat

    /** Every accepted value was taken, was overwritten, or is still pending. */
    ghost predicate Valid()
      reads this
    {
      accepted == taken + conflated + (if pending.Some? then 1 else 0)
    }

    constructor ()
      ensures Valid() && pending.None? && !stopped && accepted == 0
    {
      pending, stopped, conflated, accepted, taken := None, false, 0, 0, 0;
    }

    /** Never blocks; overwrites an unread value and counts it. */
    method Publish(value: T) returns (ok: bool)
      requires Valid()
      modifies this
      ensures Valid() && ok == !old(stopped) && stopped == old(stopped) && taken == old(taken)
      ensures ok ==> pending == Some(value) && accepted == old(accepted) + 1
      ensures !ok ==> pending == old(pending) && accepted == old(accepted) && conflated == old(conflated)
    {
      if stopped {
        return false;
      }
      if pending.Some? {
        conflated := conflated + 1;
      }
      pending := Some(value);
      accepted := accepted + 1;
      ok := true;
    }

    /** What a wait does once it wakes: takes the value if there is one. */
    method TakePending() returns (r: Option<T>)
      requires Valid()
      modifies this`pending, this`taken
      ensures Valid() && r == old(pending) && pending.None?
      ensures taken == old(taken) + (if r.Some? then 1 else 0)
    {
      r := pending;
      if pending.Some? {
        taken := taken + 1;
      }
      pending := None;
    }

    method Stop()
      modifies this`stopped
      ensures stopped
    {
      stopped := true;
    }
  }

  // ----- one engine, one subscriber, every interleaving

  /** Where the engine is in a publish of sequence number n. */
  datatype Publisher = Idle | Built(n: nat) | Stored(n: nat)

  /** Where a stream handler is; `last` is the sequence number it last considered. */
  datatype Handler = New | Registered | Waiting(last: nat) | Holding(book: nat, last: nat) | Left

  datatype State = State(
    published: nat, latest: Option<nat>, engine: Publisher,
    registered: bool, pending: Option<nat>, stopped: bool,
    accepted: nat, taken: nat, conflated: nat,
    handler: Handler, emitted: seq<nat>)

  datatype Step =
    | BeginPublish                            // take the next sequence number and build the book
    | StoreLatest                             // under the latest lock
    | FanOut                                  // under the subscriber lock
    | Register                                // AddSubscriber
    | ReadLatest(written: bool)               // Latest, and the initial write
    | Wake                                    // a bounded wait ends, with or without a value
    | Consider(throttled: bool, written: bool) // filter, throttle, write
    | Leave                                   // cancellation, or the loop sees the slot stopped
    | Erase                                   // the slot is removed from the subscriber list
    | EngineStops                             // the engine is joined and stops every slot

  const INIT := State(0, None, Idle, false, None, false, 0, 0, 0, New, [])

  function Depart(s: State): State {
    s.(handler := Left, stopped := true)
  }

  function Delivered(s: State, n: nat): State {
    if !s.registered || s.stopped then s
    else s.(pending := Some(n), accepted := s.accepted + 1,
            conflated := s.conflated + (if s.pending.Some? then 1 else 0))
  }

  /** A step that is not possible does nothing. */
  function Next(s: State, step: Step): State {
    match step
    case BeginPublish => if s.engine.Idle? then s.(published := s.published + 1, engine := Built(s.published + 1)) else s
    case StoreLatest => if s.engine.Built? then s.(latest := Some(s.engine.n), engine := Stored(s.engine.n)) else s
    case FanOut => if s.engine.Stored? then Delivered(s, s.engine.n).(engine := Idle) else s
    case Register => if s.handler.New? then s.(registered := true, handler := Registered) else s
    case ReadLatest(written) =>
      if !s.handler.Registered? then s
      else if s.latest.None? then s.(handler := Waiting(0))
      else if !written then Depart(s)
      else s.(handler := Waiting(s.latest.value), emitted := s.emitted + [s.latest.value])
    case Wake =>
      if s.handler.Waiting? && s.pending.Some?
      then s.(handler := Holding(s.pending.value, s.handler.last), pending := None, taken := s.taken + 1)
      else s
    case Consider(throttled, written) =>
      if !s.handler.Holding? then s
      else if s.stopped then Depart(s)
      else if s.handler.book <= s.handler.last then s.(handler := Waiting(s.handler.last))
      else if throttled then s.(handler := Waiting(s.handler.book))
      else if !written then Depart(s)
      else s.(handler := Waiting(s.handler.book), emitted := s.emitted + [s.handler.book])
    case Leave => if s.handler.Waiting? then Depart(s) else s
    case Erase => if s.handler.Left? then s.(registered := false) else s
    case EngineStops => if s.engine.Idle? then s.(stopped := true, registered := false) else s
  }

  function After(steps: seq<Step>): State {
    if steps == [] then INIT else Next(After(steps[..|steps| - 1]), steps[|steps| - 1])
  }

  // ----- what every interleaving keeps

  /** The newest sequence number whose fan-out is complete. */
  function Fanned(s: State): int {
    if s.engine.Idle? then s.published else s.published - 1
  }

  ghost predicate EngineConsistent(s: State) {
    match s.engine
    case Idle => s.latest == if s.published == 0 then None else Some(s.published)
    case Built(n) => n == s.published && n > 0 && s.latest == if n == 1 then None else Some((n - 1) as nat)
    case Stored(n) => n == s.published && n > 0 && s.latest == Some(n)
  }

  /** The newest state this handler has considered or holds. */
  function Considered(h: Handler): nat {
    match h
    case Waiting(last) => last
    case Holding(book, last) => if book > last then book else last
    case _ => 0
  }

  ghost predicate Increasing(s: seq<nat>) {
    forall i, j :: 0 <= i < j < |s| ==> s[i] < s[j]
  }

  /** A complete fan-out is pending or already considered; nothing newer than published is. */
  ghost predicate NothingMissed(s: State) {
    && (s.pending.Some? ==> s.pending.value <= s.published)
    && Considered(s.handler) <= s.published
    && (s.registered && !s.stopped ==>
          && (s.pending.Some? ==> s.pending.value == Fanned(s))
          && (s.pending.None? && !s.handler.Registered? ==> Considered(s.handler) >= Fanned(s)))
  }

  ghost predicate Inv(s: State) {
    && EngineConsistent(s)
    && s.accepted == s.taken + s.conflated + (if s.pending.Some? then 1 else 0)
    && (s.handler.New? ==> !s.registered && s.pending.None? && s.emitted == [])
    && (s.handler.Registered? ==> s.emitted == [])
    && (s.handler.Left? ==> s.stopped)
    && NothingMissed(s)
    && Increasing(s.emitted)
    && (forall i :: 0 <= i < |s.emitted| && s.handler.Waiting? ==> s.emitted[i] <= s.handler.last)
    && (forall i :: 0 <= i < |s.emitted| && s.handler.Holding? ==> s.emitted[i] <= s.handler.last)
  }

  lemma EngineStepKeeps(s: State, step: Step)
    requires Inv(s) && (step.BeginPublish? || step.StoreLatest? || step.FanOut? || step.EngineStops?)
    ensures Inv(Next(s, step))
  {
  }

  lemma ConsiderKeeps(s: State, throttled: bool, written: bool)
    requires Inv(s)
    ensures Inv(Next(s, Consider(throttled, written)))
  {
  }

  lemma ReadLatestKeeps(s: State, written: bool)
    requires Inv(s)
    ensures Inv(Next(s, ReadLatest(written)))
  {
  }

  lemma WakeKeeps(s: State)
    requires Inv(s)
    ensures Inv(Next(s, Wake))
  {
  }

  lemma HandlerStepKeeps(s: State, step: Step)
    requires Inv(s) && (step.Register? || step.Leave? || step.Erase?)
    ensures Inv(Next(s, step))
  {
  }

  lemma NextKeeps(s: State, step: Step)
    requires Inv(s)
    ensures Inv(Next(s, step))
  {
    match step
    case Consider(throttled, written) => ConsiderKeeps(s, throttled, written);
    case ReadLatest(written) => ReadLatestKeeps(s, written);
    case Wake => WakeKeeps(s);
    case BeginPublish => EngineStepKeeps(s, step);
    case StoreLatest => EngineStepKeeps(s, step);
    case FanOut => EngineStepKeeps(s, step);
    case EngineStops => EngineStepKeeps(s, step);
    case _ => HandlerStepKeeps(s, step);
  }

  lemma {:induction false} AlwaysInv(steps: seq<Step>)
    ensures Inv(After(steps))
  {
    if steps != [] {
      AlwaysInv(steps[..|steps| - 1]);
      NextKeeps(After(steps[..|steps| - 1]), steps[|steps| - 1]);
    }
  }

  /** Emissions increase, and the newest considered is the newest published once the slot is drained with no publish in flight. */
  ghost predicate SeesNewest(s: State) {
    && Increasing(s.emitted)
    && (s.handler.Waiting? && s.registered && !s.stopped && s.pending.None? && s.engine.Idle? ==>
          s.handler.last == s.published)
  }

  /**
    Subscribing never misses the current state. Over every interleaving of publishes
    with registering, reading the latest book and waiting: the emitted sequence
    numbers strictly increase; and whenever the slot is drained with no publish in
    flight, the last sequence number the handler considered is the newest published.
  */
  lemma SubscriberSeesNewest(steps: seq<Step>)
    ensures SeesNewest(After(steps))
  {
    AlwaysInv(steps);
  }

  /** Accepted publishes are always accounted for: taken, conflated, or pending. */
  lemma DeliveriesAreConserved(steps: seq<Step>)
    ensures var s := After(steps);
            s.accepted == s.taken + s.conflated + (if s.pending.Some? then 1 else 0)
  {
    AlwaysInv(steps);
  }

  // ----- what reaches the client

  lemma AfterPush(steps: seq<Step>, s: State, step: Step)
    requires After(steps) == s
    ensures After(steps + [step]) == Next(s, step)
  {
    assert (steps + [step])[..|steps|] == steps;
  }

  lemma AfterTwo(steps: seq<Step>, s: State, a: Step, b: Step)
    requires After(steps) == s
    ensures After(steps + [a, b]) == Next(Next(s, a), b)
  {
    var next := Next(s, a);
    AfterPush(steps, s, a);
    AfterPush(steps + [a], next, b);
    assert steps + [a] + [b] == steps + [a, b];
  }

  /** A new stream is sent the latest book at once, if there is one. */
  lemma LatestIsSentFirst(steps: seq<Step>)
    requires After(steps).handler.Registered?
    ensures var s, t := After(steps), After(steps + [ReadLatest(true)]);
            if s.latest.None? then t.emitted == [] && t.handler == Waiting(0)
            else t.emitted == [s.latest.value] && t.handler == Waiting(s.latest.value)
  {
    AlwaysInv(steps);
    AfterPush(steps, After(steps), ReadLatest(true));
  }

  /**
    A waiting handler that wakes takes what is pending; if that is newer than what it last
    considered it is emitted, unless throttled, in which case it counts as considered.
  */
  lemma PendingIsEmitted(steps: seq<Step>, throttled: bool)
    requires var s := After(steps); s.handler.Waiting? && s.pending.Some? && !s.stopped
    ensures var s, t := After(steps), After(steps + [Wake, Consider(throttled, true)]);
            var newer := s.pending.value > s.handler.last;
            && t.pending.None? && t.taken == s.taken + 1
            && t.emitted == (if newer && !throttled then s.emitted + [s.pending.value] else s.emitted)
            && t.handler == Waiting(if newer then s.pending.value else s.handler.last)
  {
    AfterTwo(steps, After(steps), Wake, Consider(throttled, true));
  }

  /** A stream begins by registering its slot. */
  lemma StreamBegins(s: State)
    requires s.handler.New?
    ensures var t := Next(s, Register); t.registered && t.handler.Registered? && t.stopped == s.stopped && t.pending == s.pending
  {
  }

  /** A failed write or a stopped slot ends the stream; the engine, once joined, stops every slot. */
  lemma StreamEnds(s: State, throttled: bool)
    ensures s.engine.Idle? ==> Next(s, EngineStops).stopped && !Next(s, EngineStops).registered
    ensures Next(s, Leave).handler.Left? ==> s.handler.Left? || Next(s, Leave).stopped
    ensures s.handler.Holding? && s.stopped ==> Next(s, Consider(throttled, true)).handler.Left?
    ensures s.handler.Holding? && s.handler.book > s.handler.last ==> Next(s, Consider(false, false)).handler.Left?
    ensures s.handler.Registered? && s.latest.Some? ==> Next(s, ReadLatest(false)).handler.Left?
    ensures s.handler.Waiting? ==> Next(s, Leave).handler.Left?
    ensures s.handler.Left? ==> !Next(s, Erase).registered
  {
  }

  /** The engine's three steps of a publish put the new sequence number into the slot of a registered stream. */
  lemma PublishIsPending(steps: seq<Step>)
    requires var s := After(steps); s.engine.Idle? && s.registered && !s.stopped
    ensures var s, t := After(steps), After(steps + [BeginPublish, StoreLatest] + [FanOut]);
            && t.published == s.published + 1 && t.latest == Some(t.published) && t.pending == Some(t.published)
            && t.accepted == s.accepted + 1 && t.conflated == s.conflated + (if s.pending.Some? then 1 else 0)
            && t.handler == s.handler && t.emitted == s.emitted && t.registered && !t.stopped && t.engine.Idle?
  {
    var s := After(steps);
    AfterTwo(steps, s, BeginPublish, StoreLatest);
    AfterPush(steps + [BeginPublish, StoreLatest], Next(Next(s, BeginPublish), StoreLatest), FanOut);
  }

  /** A stream that keeps up is sent every publish. */
  lemma PublishReachesClient(steps: seq<Step>)
    requires var s := After(steps); s.engine.Idle? && s.registered && !s.stopped && s.handler.Waiting?
    ensures var s := After(steps);
            var t := After(steps + [BeginPublish, StoreLatest] + [FanOut] + [Wake, Consider(false, true)]);
            && t.emitted == s.emitted + [s.published + 1] && t.handler == Waiting(s.published + 1) && t.pending.None?
  {
    AlwaysInv(steps);
    PublishIsPending(steps);
    PendingIsEmitted(steps + [BeginPublish, StoreLatest] + [FanOut], false);
  }

  // ----- the same with the objects

  /** One stream: the slot it waits on, what the engine holds, and where both threads are. */
  class Subscription {
    const slot: ConflatingSlot<nat>
    var published: nat
    var latest: Option<nat>
    var engine: Publisher
    var registered: bool
    var handler: Handler
    var emitted: seq<nat>

    ghost function Now(): State
      reads this, slot
    {
      State(published, latest, engine, registered, slot.pending, slot.stopped,
            slot.accepted, slot.taken, slot.conflated, handler, emitted)
    }

    ghost predicate Valid()
      reads this, slot
    {
      Inv(Now())
    }

    constructor ()
      ensures Valid() && Now() == INIT && fresh(slot)
    {
      slot := new ConflatingSlot<nat>();
      published, latest, engine, registered := 0, None, Idle, false;
      handler, emitted := New, [];
    }

    method OnStep(step: Step)
      requires Valid()
      modifies this, slot
      ensures Valid() && Now() == Next(old(Now()), step)
    {
      NextKeeps(Now(), step);
      if step.BeginPublish? || step.StoreLatest? || step.FanOut? || step.EngineStops? {
        OnEngineStep(step);
      } else {
        OnHandlerStep(step);
      }
    }

    method OnEngineStep(step: Step)
      requires slot.Valid() && (step.BeginPublish? || step.StoreLatest? || step.FanOut? || step.EngineStops?)
      modifies this, slot
      ensures Now() == Next(old(Now()), step)
    {
      match step {
        case BeginPublish =>
          if engine.Idle? {
            published := published + 1;
            engine := Built(published);
          }
        case StoreLatest =>
          if engine.Built? {
            latest, engine := Some(engine.n), Stored(engine.n);
          }
        case FanOut => Deliver();
        case EngineStops =>
          if engine.Idle? {
            slot.Stop();
            registered := false;
          }
      }
    }

    /** The engine's fan-out: a registered slot takes the newest book unless it is stopped. */
    method Deliver()
      requires slot.Valid()
      modifies this`engine, slot
      ensures Now() == Next(old(Now()), FanOut)
    {
      if engine.Stored? {
        if registered {
          var accepted := slot.Publish(engine.n);
        }
        engine := Idle;
      }
    }

    method OnHandlerStep(step: Step)
      requires slot.Valid() && (step.Register? || step.ReadLatest? || step.Wake? || step.Consider? || step.Leave? || step.Erase?)
      modifies this, slot
      ensures Now() == Next(old(Now()), step)
    {
      match step {
        case Register =>
          if handler.New? {
            registered, handler := true, Registered;
          }
        case ReadLatest(written) =>
          if handler.Registered? {
            if latest.None? {
              handler := Waiting(0);
            } else {
              Emit(latest.value, written);
            }
          }
        case Wake =>
          if handler.Waiting? {
            var book := slot.TakePending();
            if book.Some? {
              handler := Holding(book.value, handler.last);
            }
          }
        case Consider(throttled, written) =>
          if handler.Holding? {
            if slot.stopped {
              LeaveLoop();
            } else if handler.book <= handler.last {
              handler := Waiting(handler.last);
            } else if throttled {
              handler := Waiting(handler.book);
            } else {
              Emit(handler.book, written);
            }
          }
        case Leave =>
          if handler.Waiting? {
            LeaveLoop();
          }
        case Erase =>
          if handler.Left? {
            registered := false;
          }
      }
    }

    /** Writes a book to the client; a failed write ends the stream. */
    method Emit(n: nat, written: bool)
      modifies this`handler, this`emitted, slot`stopped
      ensures Now() == if written then old(Now()).(handler := Waiting(n), emitted := old(emitted) + [n]) else Depart(old(Now()))
    {
      if !written {
        LeaveLoop();
      } else {
        handler, emitted := Waiting(n), emitted + [n];
      }
    }

    method LeaveLoop()
      modifies this`handler, slot`stopped
      ensures Now() == Depart(old(Now()))
    {
      handler := Left;
      slot.Stop();
    }
  }

  /** The objects in a run: any interleaving of the steps leaves the slot and the handler as promised. */
  method RunSteps(steps: seq<Step>) returns (x: Subscription)
    ensures x.Valid() && x.Now() == After(steps) && SeesNewest(x.Now()) && x.slot.Valid()
  {
    x := new Subscription();
    for n := 0 to |steps|
      invariant fresh(x) && fresh(x.slot) && x.Valid() && x.Now() == After(steps[..n])
    {
      assert steps[..n + 1][..n] == steps[..n];
      x.OnStep(steps[n]);
    }
    assert steps[..|steps|] == steps;
    SubscriberSeesNewest(steps);
  }
}
