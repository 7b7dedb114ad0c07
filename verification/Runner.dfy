/**
  The venue runner around a protocol and a ring (src/venues/runner.cc), and the
  engine at the other end of the ring (src/aggregator/engine.cc).

  Sockets, timers and HTTP are events that may arrive in any order; whether the
  rate budget grants a token is a parameter of the event that asks for one.
*/
module Runners {
  import opened Levels
  import opened Feed
  import opened Sequencing
  import opened Venues

  datatype VenueState = Disconnected | Connecting | Syncing | Live | Stale

  /**
    The runner's fields. `log` records what became of the emitted updates: those
    the ring accepted, and a cut for every reset and every refused batch.
  */
  datatype Runner = Runner(
    proto: Protocol, state: VenueState, fatal: bool, stopping: bool,
    generation: nat, reconnectArmed: bool, fetches: nat,
    capacity: nat, ring: seq<seq<Stamped>>, log: seq<Entry>)

  function Fresh(p: Protocol, capacity: nat): Runner {
    Runner(Reset(p), Disconnected, false, false, 0, true, 0, capacity, [], [])
  }

  // ----- handlers

  function ScheduleReconnect(r: Runner): Runner {
    if r.stopping || r.fatal then r else r.(reconnectArmed := true)
  }

  /** Asks for a snapshot, or backs off when the budget is spent. */
  function FetchSnapshot(r: Runner, token: bool): Runner {
    if r.stopping then r
    else if !token then ScheduleReconnect(r)
    else r.(fetches := r.fetches + 1)
  }

  /** Forgets the position; a venue without REST is made to reconnect by closing. */
  function Resync(r: Runner, token: bool): Runner {
    var s := r.(state := Syncing, proto := Reset(r.proto), log := r.log + [Cut]);
    if NeedsRest(r.proto) then FetchSnapshot(s, token) else s
  }

  /** One batch into the ring; a full ring refuses it and forces a resync. */
  function Publish(r: Runner, batch: seq<Stamped>, token: bool): Runner {
    if batch == [] then r
    else if |r.ring| < r.capacity then r.(ring := r.ring + [batch], log := r.log + Ups(batch))
    else Resync(r, token)
  }

  function LiveIfSynced(r: Runner): Runner {
    if Synced(r.proto) then r.(state := Live) else r
  }

  /** What the runner does with a protocol's answer to a frame. */
  function AfterFrame(r: Runner, o: Outcome<Protocol>, token: bool): Runner {
    var s := r.(proto := o.state);
    match o.verdict
    case Ok => if o.out == [] then s else LiveIfSynced(Publish(s, o.out, token))
    case NeedsResync => Resync(s, token)
    case ParseError => Resync(s, token)
    case Fatal => s.(fatal := true, state := Disconnected)
  }

  function OnFrame(r: Runner, m: Message, recv: int, token: bool): Runner {
    AfterFrame(r, Handle(r.proto, m, recv), token)
  }

  /** What the runner does with a protocol's answer to a REST body. */
  function AfterReply(r: Runner, o: Outcome<Protocol>, token: bool): Runner {
    var s := r.(proto := o.state);
    if o.verdict != Ok then Resync(s, token) else LiveIfSynced(Publish(s, o.out, token))
  }

  function OnClose(r: Runner): Runner {
    ScheduleReconnect(r.(state := Disconnected))
  }

  /** The completion of a REST request: a body, or a failure. */
  function OnRestReply(r: Runner, body: Option<Message>, recv: int, token: bool): Runner
    requires r.fetches > 0
  {
    var q := r.(fetches := r.fetches - 1);
    if q.stopping then q
    else if body.None? then OnClose(q)
    else AfterReply(q, Handle(q.proto, body.value, recv), token)
  }

  function Connect(r: Runner): Runner {
    if r.stopping || r.fatal then r
    else r.(state := Connecting, proto := Reset(r.proto), log := r.log + [Cut],
            generation := r.generation + 1, reconnectArmed := false)
  }

  function OnOpen(r: Runner, token: bool): Runner {
    var s := r.(state := Syncing);
    if NeedsRest(r.proto) then FetchSnapshot(s, token) else s
  }

  /** A late close of a connection that was already replaced is ignored. */
  function OnCloseOf(r: Runner, generation: nat): Runner {
    if generation != r.generation then r else OnClose(r)
  }

  function OnSilence(r: Runner): Runner {
    if r.stopping || r.fatal then r else r.(state := Stale)
  }

  // ----- what the handlers keep

  /** What every runner handler keeps. */
  ghost predicate Sound(venue: Protocol, r: Runner) {
    && SameVenue(venue, r.proto)
    && Consistent(r.proto)
    && Chained(NeedsRest(venue), r.log)
    && Tracks(Position(r.proto), r.log)
    && |r.ring| <= r.capacity
    && (r.state == Live ==> Position(r.proto).Some?)
    && (!NeedsRest(venue) ==> r.fetches == 0)
  }

  /** How a handler changes the ring and the log: one accepted batch, or cuts only. */
  ghost predicate Hands(r: Runner, r': Runner) {
    || (Kept(r'.log) == Kept(r.log) && r'.ring == r.ring)
    || (exists b :: r'.ring == r.ring + [b] && Kept(r'.log) == Kept(r.log) + b)
  }

  lemma ResyncSound(venue: Protocol, r: Runner, token: bool)
    requires SameVenue(venue, r.proto) && Chained(NeedsRest(venue), r.log)
    requires |r.ring| <= r.capacity && (!NeedsRest(venue) ==> r.fetches == 0)
    ensures var s := Resync(r, token);
            Sound(venue, s) && Kept(s.log) == Kept(r.log) && s.ring == r.ring && !Synced(s.proto)
  {
    KeptCut(r.log);
    CutKeepsChain(NeedsRest(venue), r.log);
  }

  lemma ConnectSound(venue: Protocol, r: Runner)
    requires Sound(venue, r)
    ensures var s := Connect(r);
            Sound(venue, s) && Kept(s.log) == Kept(r.log) && s.ring == r.ring
  {
    KeptCut(r.log);
    CutKeepsChain(NeedsRest(venue), r.log);
  }

  /** Publishing what a protocol step emitted, and reporting LIVE afterwards. */
  lemma PublishSound(venue: Protocol, r: Runner, o: Outcome<Protocol>, token: bool)
    requires Sound(venue, r) && SameVenue(venue, o.state) && Consistent(o.state) && o.out != []
    requires Advances(NeedsRest(venue), Position(r.proto), o.out, Position(o.state))
    ensures var s := LiveIfSynced(Publish(r.(proto := o.state), o.out, token));
            Sound(venue, s) && Hands(r, s)
  {
    if |r.ring| < r.capacity {
      AdvanceKeepsChain(NeedsRest(venue), r.log, Position(r.proto), o.out, Position(o.state));
      KeptConcat(r.log, Ups(o.out));
      KeptUps(o.out);
      AcceptedHands(r, LiveIfSynced(Publish(r.(proto := o.state), o.out, token)), o.out);
    } else {
      ResyncSound(venue, r.(proto := o.state), token);
    }
  }

  lemma AcceptedHands(r: Runner, r': Runner, batch: seq<Stamped>)
    requires r'.ring == r.ring + [batch] && Kept(r'.log) == Kept(r.log) + batch
    ensures Hands(r, r')
  {
  }

  /** Acting on any outcome that advances from the runner's position is sound. */
  lemma AfterFrameSound(venue: Protocol, r: Runner, o: Outcome<Protocol>, token: bool)
    requires Sound(venue, r) && Answers(r, o)
    ensures Sound(venue, AfterFrame(r, o, token)) && Hands(r, AfterFrame(r, o, token))
  {
    match o.verdict
    case Ok =>
      if o.out != [] {
        PublishSound(venue, r, o, token);
      }
    case NeedsResync => ResyncSound(venue, r.(proto := o.state), token);
    case ParseError => ResyncSound(venue, r.(proto := o.state), token);
    case Fatal =>
  }

  lemma OnFrameSound(venue: Protocol, r: Runner, m: Message, recv: int, token: bool)
    requires Sound(venue, r)
    ensures Sound(venue, OnFrame(r, m, recv, token)) && Hands(r, OnFrame(r, m, recv, token))
  {
    HandleAdvances(r.proto, m, recv);
    AfterFrameSound(venue, r, Handle(r.proto, m, recv), token);
  }

  lemma OnRestReplySound(venue: Protocol, r: Runner, body: Option<Message>, recv: int, token: bool)
    requires Sound(venue, r) && r.fetches > 0
    ensures Sound(venue, OnRestReply(r, body, recv, token)) && Hands(r, OnRestReply(r, body, recv, token))
  {
    var q := r.(fetches := r.fetches - 1);
    if !q.stopping && body.Some? {
      HandleAdvances(q.proto, body.value, recv);
      AfterReplySound(venue, q, Handle(q.proto, body.value, recv), token);
    }
  }

  /** Which venue it is was settled by the runner's own protocol. */
  lemma SoundOnItsOwn(venue: Protocol, r: Runner)
    requires Sound(venue, r)
    ensures Sound(r.proto, r)
  {
  }

  /** An answer of a protocol that the runner may act on. */
  ghost predicate Answers(r: Runner, o: Outcome<Protocol>) {
    && SameVenue(r.proto, o.state) && Consistent(o.state)
    && Advances(NeedsRest(r.proto), Position(r.proto), o.out, Position(o.state))
    && (o.verdict != Ok ==> o.out == [])
  }

  lemma AfterReplySound(venue: Protocol, r: Runner, o: Outcome<Protocol>, token: bool)
    requires Sound(venue, r) && Answers(r, o) && NeedsRest(venue)
    ensures Sound(venue, AfterReply(r, o, token)) && Hands(r, AfterReply(r, o, token))
  {
    if o.verdict != Ok {
      ResyncSound(venue, r.(proto := o.state), token);
    } else if o.out != [] {
      PublishSound(venue, r, o, token);
    }
  }

  class VenueRunner {
    var proto: Protocol
    var state: VenueState
    var fatal: bool
    var stopping: bool
    var generation: nat
    var reconnectArmed: bool
    var fetches: nat
    const capacity: nat
    var ring: seq<seq<Stamped>>
    var scratch: seq<Stamped>
    ghost var log: seq<Entry>

    ghost function Now(): Runner
      reads this
    {
      Runner(proto, state, fatal, stopping, generation, reconnectArmed, fetches, capacity, ring, log)
    }

    /** The log has no gap, ends at the protocol's position, and LIVE means there is one. */
    ghost predicate Valid()
      reads this
    {
      Sound(proto, Now())
    }

    constructor (p: Protocol, capacity: nat)
      ensures Valid() && Now() == Fresh(p, capacity)
    {
      proto, state, fatal, stopping, generation := Reset(p), Disconnected, false, false, 0;
      reconnectArmed, fetches, ring, scratch, log := true, 0, [], [], [];
      this.capacity := capacity;
    }

    method DoScheduleReconnect()
      modifies this
      ensures Now() == ScheduleReconnect(old(Now()))
      ensures old(Valid()) ==> Valid()
    {
      if stopping || fatal {
        return;
      }
      reconnectArmed := true;
    }

    method DoFetchSnapshot(token: bool)
      modifies this
      ensures Now() == FetchSnapshot(old(Now()), token)
      ensures old(Valid()) && NeedsRest(old(proto)) ==> Valid()
    {
      if stopping {
        return;
      }
      if !token {
        DoScheduleReconnect();
        return;
      }
      fetches := fetches + 1;
    }

    method DoResync(token: bool)
      modifies this
      ensures Now() == Resync(old(Now()), token)
      ensures old(Valid()) ==> Valid()
      ensures state == Syncing && Position(proto) == None && ring == old(ring)
    {
      ghost var r := Now();
      if Valid() {
        ResyncSound(r.proto, r, token);
      }
      state := Syncing;
      proto := Reset(proto);
      log := log + [Cut];
      if NeedsRest(proto) {
        DoFetchSnapshot(token);
      }
    }

    /** Moves the scratch batch into the ring. */
    method DoPublish(token: bool)
      modifies this
      ensures Now() == Publish(old(Now()), old(scratch), token)
      ensures |old(ring)| < capacity && old(scratch) != [] ==> ring == old(ring) + [old(scratch)] && proto == old(proto)
      ensures |old(ring)| >= capacity && old(scratch) != [] ==> ring == old(ring) && Position(proto) == None
    {
      if scratch == [] {
        return;
      }
      var batch := scratch;
      scratch := [];
      if |ring| < capacity {
        ring := ring + [batch];
        log := log + Ups(batch);
      } else {
        DoResync(token);
      }
    }

    method DoOnFrame(m: Message, recv: int, token: bool)
      modifies this
      ensures Now() == OnFrame(old(Now()), m, recv, token)
      ensures old(Valid()) ==> Valid()
    {
      ghost var r := Now();
      if Valid() {
        OnFrameSound(r.proto, r, m, recv, token);
        SoundOnItsOwn(r.proto, OnFrame(r, m, recv, token));
      }
      var o := Handle(proto, m, recv);
      ActOnFrame(o, token);
    }

    /** The verdict switch and what follows an accepted frame. */
    method ActOnFrame(o: Outcome<Protocol>, token: bool)
      modifies this
      ensures Now() == AfterFrame(old(Now()), o, token)
    {
      proto, scratch := o.state, o.out;
      match o.verdict {
        case Ok =>
        case NeedsResync =>
          scratch := [];
          DoResync(token);
          return;
        case ParseError =>
          scratch := [];
          DoResync(token);
          return;
        case Fatal =>
          scratch := [];
          fatal := true;
          state := Disconnected;
          return;
      }
      if scratch != [] {
        DoPublish(token);
        if Synced(proto) {
          state := Live;
        }
      }
    }

    method DoOnRestReply(body: Option<Message>, recv: int, token: bool)
      requires fetches > 0
      modifies this
      ensures Now() == OnRestReply(old(Now()), body, recv, token)
      ensures old(Valid()) ==> Valid()
    {
      ghost var r := Now();
      if Valid() {
        OnRestReplySound(r.proto, r, body, recv, token);
        SoundOnItsOwn(r.proto, OnRestReply(r, body, recv, token));
      }
      fetches := fetches - 1;
      assert Now() == old(Now()).(fetches := fetches);
      if stopping {
        return;
      }
      if body.None? {
        state := Disconnected;
        DoScheduleReconnect();
        return;
      }
      var o := Handle(proto, body.value, recv);
      ActOnReply(o, token);
    }

    /** What follows a reconciled or refused snapshot. */
    method ActOnReply(o: Outcome<Protocol>, token: bool)
      modifies this
      ensures Now() == AfterReply(old(Now()), o, token)
    {
      proto, scratch := o.state, o.out;
      if o.verdict != Ok {
        scratch := [];
        DoResync(token);
        return;
      }
      DoPublish(token);
      if Synced(proto) {
        state := Live;
      }
    }

    method DoConnect()
      modifies this
      ensures Now() == Connect(old(Now()))
      ensures old(Valid()) ==> Valid()
    {
      ghost var r := Now();
      if Valid() {
        ConnectSound(r.proto, r);
      }
      if stopping || fatal {
        return;
      }
      state := Connecting;
      proto := Reset(proto);
      log := log + [Cut];
      generation := generation + 1;
      reconnectArmed := false;
    }

    method DoOnOpen(token: bool)
      modifies this
      ensures Now() == OnOpen(old(Now()), token)
      ensures old(Valid()) ==> Valid()
    {
      state := Syncing;
      if NeedsRest(proto) {
        DoFetchSnapshot(token);
      }
    }

    method DoOnCloseOf(closed: nat)
      modifies this
      ensures Now() == OnCloseOf(old(Now()), closed)
      ensures old(Valid()) ==> Valid()
    {
      if closed != generation {
        return;
      }
      state := Disconnected;
      DoScheduleReconnect();
    }

    method DoOnSilence()
      modifies this
      ensures Now() == OnSilence(old(Now()))
      ensures old(Valid()) ==> Valid()
    {
      if stopping || fatal {
        return;
      }
      state := Stale;
    }

    method Stop()
      modifies this
      ensures Now() == old(Now()).(stopping := true)
      ensures old(Valid()) ==> Valid()
    {
      stopping := true;
    }

    /** The engine's end of the ring. */
    method TakeBatch() returns (batch: Option<seq<Stamped>>)
      modifies this`ring
      ensures batch == if old(ring) == [] then None else Some(old(ring)[0])
      ensures Now() == old(Now()).(ring := if old(ring) == [] then [] else old(ring)[1..])
      ensures old(Valid()) ==> Valid()
    {
      if ring == [] {
        return None;
      }
      batch := Some(ring[0]);
      ring := ring[1..];
    }
  }
}

/** Runner, ring and engine together. */
module Pipeline {
  import Ring
  import opened Levels
  import opened Feed
  import opened Sequencing
  import opened Venues
  import opened Runners

  /** The runner and what the engine has applied to the venue's book so far. */
  datatype System = System(r: Runner, applied: seq<Stamped>)

  datatype Event =
    | TimerConnects
    | SocketOpens(token: bool)
    | FrameArrives(m: Message, recv: int, token: bool)
    | RestCompletes(body: Option<Message>, recv: int, token: bool)
    | SocketCloses(generation: nat)
    | SilenceDetected
    | StopRequested
    | EnginePops

  /** Whether the event can occur; everything else about the order is open. */
  predicate Enabled(s: System, e: Event) {
    match e
    case TimerConnects => s.r.reconnectArmed
    case FrameArrives(m, _, _) => !m.BinanceReply?
    case RestCompletes(body, _, _) => s.r.fetches > 0 && (body.Some? ==> body.value.BinanceReply?)
    case EnginePops => s.r.ring != []
    case _ => true
  }

  function Next(s: System, e: Event): System {
    if !Enabled(s, e) then s
    else match e
      case TimerConnects => s.(r := Connect(s.r))
      case SocketOpens(token) => s.(r := OnOpen(s.r, token))
      case FrameArrives(m, recv, token) => s.(r := OnFrame(s.r, m, recv, token))
      case RestCompletes(body, recv, token) => s.(r := OnRestReply(s.r, body, recv, token))
      case SocketCloses(g) => s.(r := OnCloseOf(s.r, g))
      case SilenceDetected => s.(r := OnSilence(s.r))
      case StopRequested => s.(r := s.r.(stopping := true))
      case EnginePops => System(s.r.(ring := s.r.ring[1..]), s.applied + s.r.ring[0])
  }

  function After(p: Protocol, capacity: nat, es: seq<Event>): System {
    if es == [] then System(Fresh(p, capacity), [])
    else Next(After(p, capacity, es[..|es| - 1]), es[|es| - 1])
  }

  /** The updates waiting in the ring, oldest first. */
  function InRing(ring: seq<seq<Stamped>>): seq<Stamped> {
    if ring == [] then [] else InRing(ring[..|ring| - 1]) + ring[|ring| - 1]
  }

  lemma {:induction false} InRingFront(ring: seq<seq<Stamped>>)
    requires ring != []
    ensures InRing(ring) == ring[0] + InRing(ring[1..])
  {
    if |ring| == 1 {
      assert ring == [ring[0]] && ring[..0] == [] && ring[1..] == [];
    } else {
      var front, tail, last := ring[..|ring| - 1], ring[1..], ring[|ring| - 1];
      InRingFront(front);
      assert tail[..|tail| - 1] == front[1..] && tail[|tail| - 1] == last;
      assert (ring[0] + InRing(front[1..])) + last == ring[0] + (InRing(front[1..]) + last);
    }
  }

  /** Nothing is lost between the accepted batches and the engine's book. */
  ghost predicate Inv(venue: Protocol, s: System) {
    Sound(venue, s.r) && Kept(s.r.log) == s.applied + InRing(s.r.ring)
  }

  /** Events that hand over no batch. */
  lemma QuietKeeps(venue: Protocol, s: System, e: Event)
    requires Inv(venue, s) && Enabled(s, e)
    requires !e.FrameArrives? && !e.RestCompletes? && !e.EnginePops? && !e.TimerConnects?
    ensures Inv(venue, Next(s, e))
  {
  }

  lemma ConnectKeeps(venue: Protocol, s: System)
    requires Inv(venue, s) && s.r.reconnectArmed
    ensures Inv(venue, Next(s, TimerConnects))
  {
    ConnectSound(venue, s.r);
  }

  lemma PopKeeps(venue: Protocol, s: System)
    requires Inv(venue, s) && s.r.ring != []
    ensures Inv(venue, Next(s, EnginePops))
  {
    InRingFront(s.r.ring);
  }

  lemma NextKeeps(venue: Protocol, s: System, e: Event)
    requires Inv(venue, s)
    ensures Inv(venue, Next(s, e))
  {
    if Enabled(s, e) {
      match e
      case FrameArrives(m, recv, token) =>
        OnFrameSound(venue, s.r, m, recv, token);
        HandsKeeps(s, OnFrame(s.r, m, recv, token));
      case RestCompletes(body, recv, token) =>
        OnRestReplySound(venue, s.r, body, recv, token);
        HandsKeeps(s, OnRestReply(s.r, body, recv, token));
      case EnginePops => PopKeeps(venue, s);
      case TimerConnects => ConnectKeeps(venue, s);
      case _ => QuietKeeps(venue, s, e);
    }
  }

  lemma HandsKeeps(s: System, r': Runner)
    requires Kept(s.r.log) == s.applied + InRing(s.r.ring) && Hands(s.r, r')
    ensures Kept(r'.log) == s.applied + InRing(r'.ring)
  {
  }

  lemma {:induction false} AlwaysSound(p: Protocol, capacity: nat, es: seq<Event>)
    ensures Inv(p, After(p, capacity, es))
  {
    if es != [] {
      AlwaysSound(p, capacity, es[..|es| - 1]);
      NextKeeps(p, After(p, capacity, es[..|es| - 1]), es[|es| - 1]);
    }
  }

  // ----- the statements

  /**
    No delta is ever silently skipped. Over all interleavings of frames, REST
    replies, resyncs, reconnects, refused pushes and engine pops, the updates the
    engine has applied, followed by those still in the ring, form blocks that start
    with a snapshot and continue without a gap; and the first update accepted after
    a reset or a refused batch is a snapshot.
  */
  lemma NoDeltaIsSkipped(p: Protocol, capacity: nat, es: seq<Event>)
    ensures var s := After(p, capacity, es);
            && InBlocks(NeedsRest(p), s.applied + InRing(s.r.ring))
            && InBlocks(NeedsRest(p), s.applied)
            && (forall i :: 0 < i < |s.r.log| && s.r.log[i - 1].Cut? && s.r.log[i].Up? ==>
                  s.r.log[i].s.update.isSnapshot)
  {
    var s := After(p, capacity, es);
    AlwaysSound(p, capacity, es);
    ChainedIsInBlocks(NeedsRest(p), s.r.log);
    var all := s.applied + InRing(s.r.ring);
    assert forall i :: 0 <= i < |s.applied| ==> all[i] == s.applied[i];
  }

  /** A runner that reports LIVE has a synced protocol, after every handler in every run. */
  lemma LiveIsSynced(p: Protocol, capacity: nat, es: seq<Event>)
    ensures var r := After(p, capacity, es).r;
            r.state == Live ==> Synced(r.proto) && Position(r.proto).Some?
  {
    AlwaysSound(p, capacity, es);
  }

  ghost predicate TruthfulEvent(h: History, e: Event) {
    match e
    case FrameArrives(m, _, _) => Truthful(h, m)
    case RestCompletes(body, _, _) => body.Some? ==> Truthful(h, body.value)
    case _ => true
  }

  /** From r to r' the log only grows, and from entry k on everything in it and held back is true. */
  ghost predicate StaysTrue(straddle: bool, h: History, k: nat, r: Runner, r': Runner) {
    && k <= |r.log| && r.log <= r'.log
    && GenuineFrom(straddle, h, r'.log, k) && TruthfulState(h, r'.proto)
  }

  lemma ResyncGenuine(straddle: bool, h: History, k: nat, r: Runner, token: bool)
    requires k <= |r.log| && GenuineFrom(straddle, h, r.log, k)
    ensures StaysTrue(straddle, h, k, r, Resync(r, token))
  {
  }

  lemma PublishGenuine(straddle: bool, h: History, k: nat, r: Runner, batch: seq<Stamped>, token: bool)
    requires StaysTrue(straddle, h, k, r, r) && GenuineFrom(straddle, h, Ups(batch), 0)
    ensures StaysTrue(straddle, h, k, r, LiveIfSynced(Publish(r, batch, token)))
  {
    if batch != [] && |r.ring| < r.capacity {
      GenuineConcat(straddle, h, r.log, k, batch);
    } else if batch != [] {
      ResyncGenuine(straddle, h, k, r, token);
    }
  }

  /** Acting on genuine emissions keeps the log genuine. */
  lemma AfterGenuine(straddle: bool, h: History, k: nat, r: Runner, o: Outcome<Protocol>, token: bool)
    requires k <= |r.log| && GenuineFrom(straddle, h, r.log, k)
    requires GenuineFrom(straddle, h, Ups(o.out), 0) && TruthfulState(h, o.state)
    ensures StaysTrue(straddle, h, k, r, AfterFrame(r, o, token))
    ensures StaysTrue(straddle, h, k, r, AfterReply(r, o, token))
  {
    PublishGenuine(straddle, h, k, r.(proto := o.state), o.out, token);
    ResyncGenuine(straddle, h, k, r.(proto := o.state), token);
  }

  lemma OnFrameGenuine(h: History, k: nat, r: Runner, m: Message, recv: int, token: bool)
    requires StaysTrue(NeedsRest(r.proto), h, k, r, r) && Truthful(h, m)
    ensures StaysTrue(NeedsRest(r.proto), h, k, r, OnFrame(r, m, recv, token))
  {
    HandleIsGenuine(h, r.proto, m, recv);
    AfterGenuine(NeedsRest(r.proto), h, k, r, Handle(r.proto, m, recv), token);
  }

  lemma OnRestReplyGenuine(h: History, k: nat, r: Runner, body: Option<Message>, recv: int, token: bool)
    requires StaysTrue(NeedsRest(r.proto), h, k, r, r) && (body.Some? ==> Truthful(h, body.value)) && r.fetches > 0
    ensures StaysTrue(NeedsRest(r.proto), h, k, r, OnRestReply(r, body, recv, token))
  {
    var q := r.(fetches := r.fetches - 1);
    if body.Some? {
      HandleIsGenuine(h, q.proto, body.value, recv);
      AfterGenuine(NeedsRest(r.proto), h, k, q, Handle(q.proto, body.value, recv), token);
    }
  }

  /** Every other event emits nothing. */
  lemma QuietGenuine(h: History, k: nat, s: System, e: Event)
    requires StaysTrue(NeedsRest(s.r.proto), h, k, s.r, s.r) && Enabled(s, e)
    requires !e.FrameArrives? && !e.RestCompletes?
    ensures StaysTrue(NeedsRest(s.r.proto), h, k, s.r, Next(s, e).r)
  {
  }

  lemma NextGenuine(venue: Protocol, h: History, k: nat, s: System, e: Event)
    requires SameVenue(venue, s.r.proto) && TruthfulEvent(h, e)
    requires StaysTrue(NeedsRest(venue), h, k, s.r, s.r)
    ensures StaysTrue(NeedsRest(venue), h, k, s.r, Next(s, e).r)
  {
    if Enabled(s, e) {
      match e
      case FrameArrives(m, recv, token) => OnFrameGenuine(h, k, s.r, m, recv, token);
      case RestCompletes(body, recv, token) => OnRestReplyGenuine(h, k, s.r, body, recv, token);
      case _ => QuietGenuine(h, k, s, e);
    }
  }

  /** The messages are truthful from event `from` on, and so is whatever was held back by then. */
  ghost predicate TruthfulSince(p: Protocol, h: History, capacity: nat, es: seq<Event>, from: nat) {
    && from <= |es| && TruthfulState(h, After(p, capacity, es[..from]).r.proto)
    && forall i :: from <= i < |es| ==> TruthfulEvent(h, es[i])
  }

  lemma TruthfulFront(p: Protocol, h: History, capacity: nat, es: seq<Event>, from: nat)
    requires TruthfulSince(p, h, capacity, es, from) && from < |es|
    ensures TruthfulSince(p, h, capacity, es[..|es| - 1], from) && es[..|es| - 1][..from] == es[..from]
  {
    assert es[..|es| - 1][..from] == es[..from];
  }

  lemma {:induction false} AlwaysGenuine(p: Protocol, h: History, capacity: nat, es: seq<Event>, from: nat)
    requires TruthfulSince(p, h, capacity, es, from)
    ensures var r0, r := After(p, capacity, es[..from]).r, After(p, capacity, es).r;
            StaysTrue(NeedsRest(p), h, |r0.log|, r0, r)
    decreases |es|
  {
    if from == |es| {
      assert es[..from] == es;
    } else {
      var front := es[..|es| - 1];
      TruthfulFront(p, h, capacity, es, from);
      AlwaysGenuine(p, h, capacity, front, from);
      AlwaysSound(p, capacity, front);
      NextGenuine(p, h, |After(p, capacity, es[..from]).r.log|, After(p, capacity, front), es[|es| - 1]);
    }
  }

  /** How many updates had been handed to the ring by then. */
  function Handed(s: System): nat {
    |s.applied| + |InRing(s.r.ring)|
  }

  /** What the engine applied is genuine from the first update handed over since. */
  lemma AppliedIsGenuine(p: Protocol, h: History, capacity: nat, es: seq<Event>, from: nat)
    requires TruthfulSince(p, h, capacity, es, from)
    ensures GenuineFrom(NeedsRest(p), h, Ups(After(p, capacity, es).applied), Handed(After(p, capacity, es[..from])))
  {
    var s0, s := After(p, capacity, es[..from]), After(p, capacity, es);
    AlwaysSound(p, capacity, es[..from]);
    AlwaysSound(p, capacity, es);
    AlwaysGenuine(p, h, capacity, es, from);
    KeptGenuine(NeedsRest(p), h, s0.r.log, s.r.log);
    forall i | Handed(s0) <= i < |s.applied| ensures Genuine(NeedsRest(p), h, Ups(s.applied)[i].s) {
      assert Kept(s.r.log)[i] == s.applied[i];
    }
  }

  /** With a drained ring, a position is the id of the last update applied. */
  lemma PositionIsApplied(p: Protocol, capacity: nat, es: seq<Event>)
    ensures var s := After(p, capacity, es);
            s.r.ring == [] && Position(s.r.proto).Some? ==>
              s.applied != [] && s.applied[|s.applied| - 1].id == Position(s.r.proto).value
  {
    var s := After(p, capacity, es);
    AlwaysSound(p, capacity, es);
    ChainedIsInBlocks(NeedsRest(p), s.r.log);
  }

  lemma BlocksAreChained(straddle: bool, us: seq<Stamped>)
    requires InBlocks(straddle, us)
    ensures Chained(straddle, Ups(us)) && Kept(Ups(us)) == us
  {
    KeptUps(us);
  }

  /** The book is the venue's at the last update applied, and at the position when LIVE and drained. */
  ghost predicate HoldsVenueBook(h: History, s: System, book: Book) {
    && (s.applied != [] ==> book == h(s.applied[|s.applied| - 1].id))
    && (s.r.state == Live && s.r.ring == [] ==>
          Position(s.r.proto).Some? && book == h(Position(s.r.proto).value))
  }

  /**
    The engine's book is never invented. Once messages tell the truth about one
    history, whatever is lost, refused, retried or late, and as soon as the engine has
    applied a snapshot handed over since, the updates applied fold to the venue's own
    book at the id of the last of them; and when the runner is LIVE with a drained
    ring, to the venue's book at the protocol's current position.
  */
  lemma EngineBookSince(p: Protocol, h: History, capacity: nat, es: seq<Event>, from: nat)
    requires TruthfulSince(p, h, capacity, es, from)
    ensures var s := After(p, capacity, es);
            SnapshotSince(Ups(s.applied), Handed(After(p, capacity, es[..from]))) ==>
              HoldsVenueBook(h, s, Folded(EMPTY, Updates(s.applied)))
  {
    var s, n := After(p, capacity, es), Handed(After(p, capacity, es[..from]));
    if SnapshotSince(Ups(s.applied), n) {
      LiveIsSynced(p, capacity, es);
      PositionIsApplied(p, capacity, es);
      AppliedIsGenuine(p, h, capacity, es, from);
      NoDeltaIsSkipped(p, capacity, es);
      BlocksAreChained(NeedsRest(p), s.applied);
      GenuineSinceSnapshot(NeedsRest(p), h, Ups(s.applied), n);
      GapFreeFoldIsVenueBook(NeedsRest(p), h, Ups(s.applied));
    }
  }

  /** With one history throughout, at every moment: nothing is applied before a snapshot. */
  lemma EngineBookIsVenueBook(p: Protocol, h: History, capacity: nat, es: seq<Event>)
    requires forall i :: 0 <= i < |es| ==> TruthfulEvent(h, es[i])
    ensures var s := After(p, capacity, es);
            HoldsVenueBook(h, s, Folded(EMPTY, Updates(s.applied)))
  {
    var s := After(p, capacity, es);
    assert es[..0] == [];
    LiveIsSynced(p, capacity, es);
    PositionIsApplied(p, capacity, es);
    if s.applied != [] {
      NoDeltaIsSkipped(p, capacity, es);
      BlocksAreChained(NeedsRest(p), s.applied);
      StartsWithSnapshot(NeedsRest(p), Ups(s.applied));
      EngineBookSince(p, h, capacity, es, 0);
    }
  }

  // ----- the same with the objects

  /** A venue's runner and the engine's book of that venue, both updated in place. */
  class Ingest {
    const runner: VenueRunner
    const book: VenueBook
    ghost const venue: Protocol
    ghost var applied: seq<Stamped>

    ghost function Now(): System
      reads this, runner
    {
      System(runner.Now(), applied)
    }

    /** Nothing is lost on the way, and the sorted levels are the fold of what was applied. */
    ghost predicate Valid()
      reads this, runner, book, book.bids, book.asks
    {
      && Inv(venue, Now())
      && book.Valid() && book.Contents() == Folded(EMPTY, Updates(applied))
    }

    constructor (p: Protocol, capacity: nat)
      ensures Valid() && venue == p && Now() == System(Fresh(p, capacity), [])
      ensures fresh(runner) && fresh(book.bids) && fresh(book.asks)
    {
      runner := new VenueRunner(p, capacity);
      book := new VenueBook();
      venue, applied := p, [];
    }

    method OnEvent(e: Event)
      requires Valid()
      modifies this`applied, runner, book.bids, book.asks
      ensures Valid() && Now() == Next(old(Now()), e)
    {
      NextKeeps(venue, Now(), e);
      if e.EnginePops? {
        ApplyNext();
      } else {
        RunnerEvent(e);
      }
    }

    /** The engine pops a batch, if there is one, and folds it into the book. */
    method ApplyNext()
      requires Valid()
      modifies this`applied, runner, book.bids, book.asks
      ensures book.Valid() && book.Contents() == Folded(EMPTY, Updates(applied))
      ensures Now() == Next(old(Now()), EnginePops)
    {
      ghost var before := Now();
      var batch := runner.TakeBatch();
      assert runner.Now() == Next(before, EnginePops).r;
      if batch.Some? {
        FoldBatch(applied, batch.value);
        book.ApplyAll(Updates(batch.value));
        applied := applied + batch.value;
      }
    }

    /** An event of the venue's own thread. */
    method RunnerEvent(e: Event)
      requires !e.EnginePops?
      modifies runner
      ensures Now() == Next(old(Now()), e)
    {
      match e {
        case TimerConnects =>
          if runner.reconnectArmed {
            runner.DoConnect();
          }
        case SocketOpens(token) => runner.DoOnOpen(token);
        case FrameArrives(m, recv, token) =>
          if !m.BinanceReply? {
            runner.DoOnFrame(m, recv, token);
          }
        case RestCompletes(body, recv, token) =>
          if runner.fetches > 0 && (body.None? || body.value.BinanceReply?) {
            runner.DoOnRestReply(body, recv, token);
          }
        case SocketCloses(g) => runner.DoOnCloseOf(g);
        case SilenceDetected => runner.DoOnSilence();
        case StopRequested => runner.Stop();
      }
    }
  }

  lemma {:induction false} FoldBatch(us: seq<Stamped>, batch: seq<Stamped>)
    ensures Folded(EMPTY, Updates(us + batch)) == Folded(Folded(EMPTY, Updates(us)), Updates(batch))
    decreases |batch|
  {
    if batch == [] {
      assert us + batch == us;
    } else {
      var n := |batch| - 1;
      assert us + batch == (us + batch[..n]) + [batch[n]];
      assert Updates(batch)[..n] == Updates(batch[..n]);
      FoldBatch(us, batch[..n]);
      FoldPush(us + batch[..n], batch[n]);
    }
  }

  /**
    The objects in a run: after any events the sorted vectors of the engine's book hold
    the fold of what was applied, and with truthful messages the venue's own book.
  */
  method RunEvents(p: Protocol, capacity: nat, es: seq<Event>, ghost h: History) returns (x: Ingest)
    ensures x.Valid() && x.Now() == After(p, capacity, es)
    ensures (forall i :: 0 <= i < |es| ==> TruthfulEvent(h, es[i])) ==> HoldsVenueBook(h, x.Now(), x.book.Contents())
  {
    x := new Ingest(p, capacity);
    for n := 0 to |es|
      invariant x.Valid() && x.Now() == After(p, capacity, es[..n])
      invariant fresh(x) && fresh(x.runner) && fresh(x.book.bids) && fresh(x.book.asks)
    {
      assert es[..n + 1][..n] == es[..n];
      x.OnEvent(es[n]);
    }
    assert es[..|es|] == es;
    if forall i :: 0 <= i < |es| ==> TruthfulEvent(h, es[i]) {
      EngineBookIsVenueBook(p, h, capacity, es);
    }
  }

  // ----- the ring between them

  /** A batch offered to the ring: accepted, or refused because it is full. */
  function Offered(r: Runner, o: Outcome<Protocol>): seq<Ring.QueueOp<seq<Stamped>>> {
    if o.verdict != Ok || o.out == [] then []
    else if |r.ring| < r.capacity then [Ring.Put(o.out)]
    else [Ring.Full(o.out)]
  }

  /** What an event does to the ring. */
  function RingOp(s: System, e: Event): seq<Ring.QueueOp<seq<Stamped>>> {
    match e
    case FrameArrives(m, recv, _) => if Enabled(s, e) then Offered(s.r, Handle(s.r.proto, m, recv)) else []
    case RestCompletes(body, recv, _) =>
      if Enabled(s, e) && !s.r.stopping && body.Some? then Offered(s.r, Handle(s.r.proto, body.value, recv)) else []
    case EnginePops => if s.r.ring == [] then [Ring.Nothing] else [Ring.Get(s.r.ring[0])]
    case _ => []
  }

  function RingOps(p: Protocol, capacity: nat, es: seq<Event>): seq<Ring.QueueOp<seq<Stamped>>> {
    if es == [] then []
    else RingOps(p, capacity, es[..|es| - 1]) + RingOp(After(p, capacity, es[..|es| - 1]), es[|es| - 1])
  }

  /** The ring changes as an atomic queue does under the operations, of which there is at most one. */
  ghost predicate Queues(ops: seq<Ring.QueueOp<seq<Stamped>>>, r: Runner, r': Runner) {
    && r'.capacity == r.capacity
    && if ops == [] then r'.ring == r.ring
       else ops == [ops[0]] && Ring.Does(r.capacity, r.ring, ops[0]) == Some(r'.ring)
  }

  lemma ResyncQueues(r: Runner, token: bool)
    ensures Resync(r, token).ring == r.ring && Resync(r, token).capacity == r.capacity
  {
  }

  /** Acting on an outcome offers its batch to the ring and does nothing else to it. */
  lemma FrameOffers(r: Runner, o: Outcome<Protocol>, token: bool)
    ensures Queues(Offered(r, o), r, AfterFrame(r, o, token))
  {
    ResyncQueues(r.(proto := o.state), token);
  }

  lemma ReplyOffers(r: Runner, o: Outcome<Protocol>, token: bool)
    ensures Queues(Offered(r, o), r, AfterReply(r, o, token))
  {
    ResyncQueues(r.(proto := o.state), token);
  }

  /** Each event does to the ring what an atomic queue does. */
  lemma NextIsQueueOp(s: System, e: Event)
    ensures Queues(RingOp(s, e), s.r, Next(s, e).r)
  {
    if Enabled(s, e) {
      match e
      case FrameArrives(m, recv, token) => FrameOffers(s.r, Handle(s.r.proto, m, recv), token);
      case RestCompletes(body, recv, token) =>
        if body.Some? {
          var q := s.r.(fetches := s.r.fetches - 1);
          ReplyOffers(q, Handle(q.proto, body.value, recv), token);
        }
      case _ =>
    }
  }

  lemma {:induction false} RingOpsReplay(p: Protocol, capacity: nat, es: seq<Event>)
    ensures var s := After(p, capacity, es);
            s.r.capacity == capacity && Ring.Replay(capacity, RingOps(p, capacity, es)) == Some(s.r.ring)
  {
    if es != [] {
      var front, e := es[..|es| - 1], es[|es| - 1];
      var s, done := After(p, capacity, front), RingOps(p, capacity, front);
      RingOpsReplay(p, capacity, front);
      NextIsQueueOp(s, e);
      var ops := RingOp(s, e);
      if ops == [] {
        assert done + ops == done;
      } else {
        Ring.ReplayPush(capacity, done, ops[0]);
      }
    }
  }

  /** Every run of the pipeline can be carried by the ring. */
  lemma RingCarriesRun(p: Protocol, capacity: nat, es: seq<Event>) returns (steps: seq<Ring.Step<seq<Stamped>>>)
    requires Ring.IsCapacity(capacity)
    ensures Ring.Effects(capacity, steps) == RingOps(p, capacity, es)
  {
    RingOpsReplay(p, capacity, es);
    steps := Ring.RingRealises(capacity, RingOps(p, capacity, es));
  }

  /**
    The queue of the pipeline is the ring of the program. Whenever the two threads'
    loads, slot accesses and stores on the ring take effect as the calls the pipeline
    makes, what waits in the ring is what the pipeline says waits there.
  */
  lemma RingRefinesQueue(p: Protocol, capacity: nat, es: seq<Event>, steps: seq<Ring.Step<seq<Stamped>>>)
    requires Ring.IsCapacity(capacity) && Ring.Effects(capacity, steps) == RingOps(p, capacity, es)
    ensures var ring := Ring.After(capacity, steps);
            |ring.popped| <= |ring.pushed| && Ring.Waiting(ring) == After(p, capacity, es).r.ring
  {
    Ring.RingLinearises(capacity, steps);
    RingOpsReplay(p, capacity, es);
  }
}
