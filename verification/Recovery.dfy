/**
  What the runner gets done (src/venues/runner.cc): accepted batches make it LIVE,
  refusals make it start over, and from any state it can be brought back to LIVE.
*/
module Recovery {
  import opened Levels
  import opened Feed
  import opened Sequencing
  import opened Venues
  import opened Runners
  import opened Pipeline
  import Binance
  import Okx
  import Bybit

  // ----- one handler

  /** What an accepted, nonempty answer does to the runner. */
  ghost predicate Published(r: Runner, o: Outcome<Protocol>, r': Runner) {
    && r'.state == Live && r'.ring == r.ring + [o.out] && r'.log == r.log + Ups(o.out)
    && r'.proto == o.state && r'.fatal == r.fatal && r'.stopping == r.stopping && r'.generation == r.generation
  }

  /** Whatever is handed on leaves the protocol synced. */
  lemma EmittedIsSynced(p: Protocol, m: Message, recv: int)
    requires Consistent(p)
    ensures var o := Handle(p, m, recv); o.out != [] ==> o.verdict == Ok && Synced(o.state)
  {
    HandleAdvances(p, m, recv);
  }

  lemma AnswerIsPublished(r: Runner, o: Outcome<Protocol>, token: bool)
    requires o.verdict == Ok && o.out != [] && Synced(o.state) && |r.ring| < r.capacity
    ensures Published(r, o, AfterFrame(r, o, token)) && Published(r, o, AfterReply(r, o, token))
  {
  }

  /** A frame that yields updates is handed on as one batch and the venue is LIVE, unless the ring is full. */
  lemma GoodFrameGoesLive(venue: Protocol, r: Runner, m: Message, recv: int, token: bool)
    requires Sound(venue, r) && Handle(r.proto, m, recv).out != [] && |r.ring| < r.capacity
    ensures Published(r, Handle(r.proto, m, recv), OnFrame(r, m, recv, token))
  {
    EmittedIsSynced(r.proto, m, recv);
    AnswerIsPublished(r, Handle(r.proto, m, recv), token);
  }

  /** So is a reconciled snapshot, while the runner is not stopping. */
  lemma GoodReplyGoesLive(venue: Protocol, r: Runner, m: Message, recv: int, token: bool)
    requires Sound(venue, r) && r.fetches > 0 && !r.stopping
    requires Handle(r.proto, m, recv).out != [] && |r.ring| < r.capacity
    ensures Published(r, Handle(r.proto, m, recv), OnRestReply(r, Some(m), recv, token))
    ensures OnRestReply(r, Some(m), recv, token).fetches == r.fetches - 1
  {
    EmittedIsSynced(r.proto, m, recv);
    AnswerIsPublished(r.(fetches := r.fetches - 1), Handle(r.proto, m, recv), token);
  }

  /** The position and the snapshot request a runner is left with when it starts over. */
  ghost predicate StartsOver(r: Runner, token: bool, r': Runner) {
    && r'.state == Syncing && r'.ring == r.ring && r'.log == r.log + [Cut]
    && r'.proto == Reset(r.proto) && Position(r'.proto) == None
    && r'.fetches == r.fetches + (if NeedsRest(r.proto) && token && !r.stopping then 1 else 0)
    && (NeedsRest(r.proto) && !token && !r.stopping && !r.fatal ==> r'.reconnectArmed)
  }

  lemma ResyncStartsOver(r: Runner, token: bool)
    ensures StartsOver(r, token, Resync(r, token))
  {
  }

  /**
    A frame that asks for a resync, cannot be read, or yields more than the ring can take
    makes the runner start over; a rejection ends the venue for good; a frame that yields
    nothing leaves everything but the protocol alone.
  */
  lemma OtherFrames(r: Runner, m: Message, recv: int, token: bool)
    ensures var o, r' := Handle(r.proto, m, recv), OnFrame(r, m, recv, token);
            && (o.verdict == NeedsResync || o.verdict == ParseError ==> StartsOver(r.(proto := o.state), token, r'))
            && (o.verdict == Ok && o.out != [] && |r.ring| >= r.capacity ==> StartsOver(r.(proto := o.state), token, r'))
            && (o.verdict == Fatal ==> r' == r.(proto := o.state, fatal := true, state := Disconnected))
            && (o.verdict == Ok && o.out == [] ==> r' == r.(proto := o.state))
  {
    var o := Handle(r.proto, m, recv);
    AfterOther(r, o, token);
  }

  lemma AfterOther(r: Runner, o: Outcome<Protocol>, token: bool)
    ensures var r' := AfterFrame(r, o, token);
            && (o.verdict == NeedsResync || o.verdict == ParseError ==> StartsOver(r.(proto := o.state), token, r'))
            && (o.verdict == Ok && o.out != [] && |r.ring| >= r.capacity ==> StartsOver(r.(proto := o.state), token, r'))
            && (o.verdict == Fatal ==> r' == r.(proto := o.state, fatal := true, state := Disconnected))
            && (o.verdict == Ok && o.out == [] ==> r' == r.(proto := o.state))
  {
    ResyncStartsOver(r.(proto := o.state), token);
    assert !Synced(Reset(o.state));
  }

  /** A request that failed closes the venue and arms the reconnect; a snapshot that does not fit makes it start over. */
  lemma OtherReplies(r: Runner, body: Option<Message>, recv: int, token: bool)
    requires r.fetches > 0
    ensures var q, r' := r.(fetches := r.fetches - 1), OnRestReply(r, body, recv, token);
            && (r.stopping ==> r' == q)
            && (!r.stopping && body.None? ==> r' == q.(state := Disconnected, reconnectArmed := r.reconnectArmed || !r.fatal))
            && (!r.stopping && body.Some? ==>
                  var o := Handle(r.proto, body.value, recv);
                  o.verdict != Ok || (o.out != [] && |r.ring| >= r.capacity) ==> StartsOver(q.(proto := o.state), token, r'))
  {
    if !r.stopping && body.Some? {
      var o := Handle(r.proto, body.value, recv);
      ResyncStartsOver(r.(fetches := r.fetches - 1, proto := o.state), token);
      assert !Synced(Reset(o.state));
    }
  }

  // ----- whole runs

  /** Whenever an event lengthens the ring, the venue is LIVE after it, with a position. */
  lemma AcceptedBatchIsLive(p: Protocol, capacity: nat, es: seq<Event>, e: Event)
    ensures var s, s' := After(p, capacity, es), After(p, capacity, es + [e]);
            |s'.r.ring| > |s.r.ring| ==> s'.r.state == Live && Position(s'.r.proto).Some?
  {
    var s := After(p, capacity, es);
    assert (es + [e])[..|es|] == es;
    AlwaysSound(p, capacity, es);
    LiveIsSynced(p, capacity, es + [e]);
    if Enabled(s, e) {
      match e
      case FrameArrives(m, recv, token) => FrameLengthens(p, s.r, m, recv, token);
      case RestCompletes(body, recv, token) => ReplyLengthens(p, s.r, body, recv, token);
      case _ =>
    }
  }

  lemma FrameLengthens(venue: Protocol, r: Runner, m: Message, recv: int, token: bool)
    requires Sound(venue, r)
    ensures |OnFrame(r, m, recv, token).ring| > |r.ring| ==> OnFrame(r, m, recv, token).state == Live
  {
    var o := Handle(r.proto, m, recv);
    if o.out != [] && |r.ring| < r.capacity {
      GoodFrameGoesLive(venue, r, m, recv, token);
    } else {
      EmittedIsSynced(r.proto, m, recv);
      AfterOther(r, o, token);
    }
  }

  lemma ReplyLengthens(venue: Protocol, r: Runner, body: Option<Message>, recv: int, token: bool)
    requires Sound(venue, r) && r.fetches > 0
    ensures var r' := OnRestReply(r, body, recv, token); |r'.ring| > |r.ring| ==> r'.state == Live
  {
    if !r.stopping && body.Some? {
      var o := Handle(r.proto, body.value, recv);
      if o.out != [] && |r.ring| < r.capacity {
        GoodReplyGoesLive(venue, r, body.value, recv, token);
      } else {
        ResyncStartsOver(r.(fetches := r.fetches - 1, proto := o.state), token);
      }
    }
  }

  /** Silence and the end of the current connection take the venue out of LIVE; the end of an older one does nothing. */
  lemma LivenessEnds(s: System, g: nat)
    ensures !s.r.stopping && !s.r.fatal ==> Next(s, SilenceDetected).r == s.r.(state := Stale)
    ensures s.r.stopping || s.r.fatal ==> Next(s, SilenceDetected) == s
    ensures g != s.r.generation ==> Next(s, SocketCloses(g)) == s
    ensures var s' := Next(s, SocketCloses(s.r.generation));
            && s'.r.state == Disconnected && s'.r.ring == s.r.ring && s'.r.proto == s.r.proto
            && (!s.r.stopping && !s.r.fatal ==> s'.r.reconnectArmed)
  {
  }

  /** A request to stop is remembered. */
  lemma StopIsRemembered(s: System)
    ensures var s' := Next(s, StopRequested); s'.r.stopping && s'.r.(stopping := s.r.stopping) == s.r && s'.applied == s.applied
  {
  }

  /** Once stopping or fatal the runner opens no connection and, once stopping, asks for no snapshot. */
  lemma NothingStartsAfterTheEnd(s: System, e: Event)
    requires s.r.stopping || s.r.fatal
    ensures var s' := Next(s, e);
            && s'.r.generation == s.r.generation
            && (s.r.stopping ==> s'.r.stopping && s'.r.fetches <= s.r.fetches)
            && (s.r.fatal ==> s'.r.fatal)
  {
    if Enabled(s, e) {
      match e
      case FrameArrives(m, recv, token) => KeepsTheEnd(s.r, Handle(s.r.proto, m, recv), token);
      case RestCompletes(body, recv, token) =>
        if body.Some? {
          var q := s.r.(fetches := s.r.fetches - 1);
          KeepsTheEnd(q, Handle(q.proto, body.value, recv), token);
        }
      case _ =>
    }
  }

  ghost predicate SameEnd(r: Runner, r': Runner) {
    && r'.generation == r.generation
    && (r.stopping ==> r'.stopping && r'.fetches <= r.fetches)
    && (r.fatal ==> r'.fatal)
  }

  lemma KeepsTheEnd(r: Runner, o: Outcome<Protocol>, token: bool)
    requires r.stopping || r.fatal
    ensures SameEnd(r, AfterFrame(r, o, token)) && SameEnd(r, AfterReply(r, o, token))
  {
  }

  // ----- back to LIVE

  /** A complete snapshot in the form the venue sends it. */
  predicate IsSeed(p: Protocol, m: Message) {
    match p
    case OnBinance(_) => m.BinanceReply? && m.br.Snapshot?
    case OnOkx(_) => m.OkxFrame? && m.of.Books? && m.of.isSnapshot && |m.of.data| == 1 && Okx.Complete(true, m.of.data[0])
    case OnBybit(_) => m.BybitFrame? && Bybit.Complete(m.yf) && m.yf.isSnapshot
  }

  /** The id a snapshot stands at. */
  function SeedId(p: Protocol, m: Message): int
    requires IsSeed(p, m)
  {
    match p
    case OnBinance(_) => m.br.id
    case OnOkx(_) => m.of.data[0].seqId.value
    case OnBybit(_) => m.yf.u.value
  }

  /** A protocol that starts over accepts any complete snapshot and stands at its id. */
  lemma SeedIsAccepted(p: Protocol, m: Message, recv: int)
    requires IsSeed(p, m)
    ensures var o := Handle(Reset(p), m, recv);
            && o.verdict == Ok && |o.out| == 1 && o.out[0].update.isSnapshot
            && o.out[0].id == SeedId(p, m) && Position(o.state) == Some(SeedId(p, m))
  {
    match p
    case OnBinance(b) => BinanceSeed(b.maxBuffered, m.br, recv);
    case OnOkx(_) => OkxSeed(m.of.data, recv);
    case OnBybit(_) => Bybit.BookDelivers(Bybit.FRESH, m.yf, recv);
  }

  lemma BinanceSeed(maxBuffered: nat, r: Binance.Reply, recv: int)
    requires r.Snapshot?
    ensures var o := Binance.RestStep(Binance.Fresh(maxBuffered), r, recv);
            && o.verdict == Ok && |o.out| == 1 && o.out[0].update.isSnapshot && o.out[0].id == r.id
            && Binance.Position(o.state) == Some(r.id)
  {
    var k := Binance.SnapshotDelivers(Binance.Fresh(maxBuffered), r, recv);
  }

  lemma OkxSeed(data: seq<Okx.DataEntry>, recv: int)
    requires |data| == 1 && Okx.Complete(true, data[0])
    ensures var o := Okx.FrameStep(Okx.FRESH, Okx.Books(true, data), recv);
            && o.verdict == Ok && |o.out| == 1 && o.out[0].update.isSnapshot && Some(o.out[0].id) == data[0].seqId
            && Okx.Position(o.state) == data[0].seqId
  {
    Okx.BooksDeliver(Okx.FRESH, true, data, recv);
    assert data[..0] == [];
    assert Okx.Changing(true, data) == [data[0]];
  }

  /** The connection ends, the timer opens a new one, and the venue sends its snapshot. */
  function Reconnection(p: Protocol, generation: nat, m: Message, recv: int): seq<Event> {
    [SocketCloses(generation), TimerConnects, SocketOpens(true),
     if NeedsRest(p) then RestCompletes(Some(m), recv, true) else FrameArrives(m, recv, true)]
  }

  /** The runner once the new connection is open. */
  lemma Reopened(s: System)
    requires !s.r.stopping && !s.r.fatal
    ensures var t := Next(Next(Next(s, SocketCloses(s.r.generation)), TimerConnects), SocketOpens(true));
            && t.r.state == Syncing && t.r.proto == Reset(s.r.proto) && t.r.generation == s.r.generation + 1
            && t.r.ring == s.r.ring && t.r.capacity == s.r.capacity && t.applied == s.applied
            && !t.r.stopping && !t.r.fatal && (NeedsRest(s.r.proto) ==> t.r.fetches > 0)
  {
  }

  lemma AfterPush(p: Protocol, capacity: nat, es: seq<Event>, s: System, e: Event)
    requires After(p, capacity, es) == s
    ensures After(p, capacity, es + [e]) == Next(s, e)
  {
    assert (es + [e])[..|es|] == es;
  }

  lemma AfterTwo(p: Protocol, capacity: nat, es: seq<Event>, s: System, a: Event, b: Event)
    requires After(p, capacity, es) == s
    ensures After(p, capacity, es + [a, b]) == Next(Next(s, a), b)
  {
    var next := Next(s, a);
    AfterPush(p, capacity, es, s, a);
    AfterPush(p, capacity, es + [a], next, b);
    assert es + [a] + [b] == es + [a, b];
  }

  lemma AfterFour(p: Protocol, capacity: nat, es: seq<Event>, s: System, a: Event, b: Event, c: Event, d: Event)
    requires After(p, capacity, es) == s
    ensures After(p, capacity, es + [a, b, c, d]) == Next(Next(Next(Next(s, a), b), c), d)
  {
    AfterTwo(p, capacity, es, s, a, b);
    AfterTwo(p, capacity, es + [a, b], Next(Next(s, a), b), c, d);
    assert es + [a, b] + [c, d] == es + [a, b, c, d];
  }

  /** The snapshot on an open connection. */
  lemma SeedGoesLive(p: Protocol, s: System, m: Message, recv: int)
    requires Inv(p, s) && IsSeed(p, m) && SameVenue(p, s.r.proto) && s.r.proto == Reset(s.r.proto)
    requires !s.r.stopping && |s.r.ring| < s.r.capacity && (NeedsRest(p) ==> s.r.fetches > 0)
    ensures var e := if NeedsRest(p) then RestCompletes(Some(m), recv, true) else FrameArrives(m, recv, true);
            Published(s.r, Handle(s.r.proto, m, recv), Next(s, e).r)
  {
    SeedIsAccepted(s.r.proto, m, recv);
    if NeedsRest(p) {
      GoodReplyGoesLive(p, s.r, m, recv, true);
    } else {
      GoodFrameGoesLive(p, s.r, m, recv, true);
    }
  }

  /** A new runner connects by itself, and the first complete snapshot makes it LIVE. */
  lemma FirstSnapshotGoesLive(p: Protocol, capacity: nat, m: Message, recv: int)
    requires capacity > 0 && IsSeed(p, m)
    ensures var e := if NeedsRest(p) then RestCompletes(Some(m), recv, true) else FrameArrives(m, recv, true);
            var t := After(p, capacity, [TimerConnects, SocketOpens(true)] + [e]);
            t.r.state == Live && Position(t.r.proto) == Some(SeedId(p, m)) && t.r.generation == 1 && |t.r.ring| == 1
  {
    var e := if NeedsRest(p) then RestCompletes(Some(m), recv, true) else FrameArrives(m, recv, true);
    var s := After(p, capacity, []);
    var o := Next(Next(s, TimerConnects), SocketOpens(true));
    AfterTwo(p, capacity, [], s, TimerConnects, SocketOpens(true));
    assert [] + [TimerConnects, SocketOpens(true)] == [TimerConnects, SocketOpens(true)];
    AfterPush(p, capacity, [TimerConnects, SocketOpens(true)], o, e);
    AlwaysSound(p, capacity, [TimerConnects, SocketOpens(true)]);
    SeedGoesLive(p, o, m, recv);
    SeedIsAccepted(p, m, recv);
  }

  /**
    From any reachable state the venue comes back. Unless it was stopped or rejected, and
    with room in the ring, a reconnection that ends in a complete snapshot makes it LIVE at
    the snapshot's id, with the snapshot as the newest batch for the engine.
  */
  lemma ReconnectingGoesLive(p: Protocol, capacity: nat, es: seq<Event>, m: Message, recv: int)
    requires var s := After(p, capacity, es); !s.r.stopping && !s.r.fatal && |s.r.ring| < s.r.capacity
    requires IsSeed(p, m)
    ensures var s := After(p, capacity, es);
            var t := After(p, capacity, es + Reconnection(p, s.r.generation, m, recv));
            && t.r.state == Live && Position(t.r.proto) == Some(SeedId(p, m))
            && |t.r.ring| == |s.r.ring| + 1 && t.r.ring[..|s.r.ring|] == s.r.ring
            && |t.r.ring[|s.r.ring|]| == 1 && t.r.ring[|s.r.ring|][0].update.isSnapshot
            && t.r.ring[|s.r.ring|][0].id == SeedId(p, m)
            && t.r.generation == s.r.generation + 1
  {
    var s := After(p, capacity, es);
    var rs := Reconnection(p, s.r.generation, m, recv);
    AlwaysSound(p, capacity, es);
    AfterFour(p, capacity, es, s, rs[0], rs[1], rs[2], rs[3]);
    assert rs == [rs[0], rs[1], rs[2], rs[3]];
    var o := Next(Next(Next(s, rs[0]), rs[1]), rs[2]);
    Reopened(s);
    NextKeeps(p, s, rs[0]);
    NextKeeps(p, Next(s, rs[0]), rs[1]);
    NextKeeps(p, Next(Next(s, rs[0]), rs[1]), rs[2]);
    SeedGoesLive(p, o, m, recv);
    SeedIsAccepted(s.r.proto, m, recv);
  }
}
