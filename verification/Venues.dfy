/**
  The three protocols behind one interface (src/venues/venue.h), and what holds in
  every run of any of them.
*/
module Venues {
  import opened Levels
  import opened Feed
  import opened Sequencing
  import Binance
  import Okx
  import Bybit

  datatype Protocol = OnBinance(b: Binance.State) | OnOkx(o: Okx.State) | OnBybit(y: Bybit.State)

  /** A websocket frame or REST body for one of the protocols. */
  datatype Message =
    | BinanceFrame(bf: Binance.Frame)
    | BinanceReply(br: Binance.Reply)
    | OkxFrame(of: Okx.Frame)
    | BybitFrame(yf: Bybit.Frame)

  function Reset(p: Protocol): Protocol {
    match p
    case OnBinance(b) => OnBinance(Binance.Fresh(b.maxBuffered))
    case OnOkx(_) => OnOkx(Okx.FRESH)
    case OnBybit(_) => OnBybit(Bybit.FRESH)
  }

  predicate Synced(p: Protocol) {
    match p
    case OnBinance(b) => b.synced
    case OnOkx(o) => o.synced
    case OnBybit(y) => y.synced
  }

  /** Only Binance seeds its book over REST. */
  predicate NeedsRest(p: Protocol) {
    p.OnBinance?
  }

  function Position(p: Protocol): Option<int> {
    match p
    case OnBinance(b) => Binance.Position(b)
    case OnOkx(o) => Okx.Position(o)
    case OnBybit(y) => Bybit.Position(y)
  }

  predicate Consistent(p: Protocol) {
    match p
    case OnBinance(b) => Binance.Consistent(b)
    case OnOkx(o) => Okx.Consistent(o)
    case OnBybit(_) => true
  }

  predicate SameVenue(p: Protocol, q: Protocol) {
    (p.OnBinance? <==> q.OnBinance?) && (p.OnOkx? <==> q.OnOkx?)
  }

  /** One message; a message of another venue is ignored. */
  function Handle(p: Protocol, m: Message, recv: int): Outcome<Protocol> {
    match (p, m)
    case (OnBinance(b), BinanceFrame(f)) =>
      var o := Binance.FrameStep(b, f, recv); Outcome(OnBinance(o.state), o.verdict, o.out)
    case (OnBinance(b), BinanceReply(r)) =>
      var o := Binance.RestStep(b, r, recv); Outcome(OnBinance(o.state), o.verdict, o.out)
    case (OnOkx(s), OkxFrame(f)) =>
      var o := Okx.FrameStep(s, f, recv); Outcome(OnOkx(o.state), o.verdict, o.out)
    case (OnBybit(y), BybitFrame(f)) =>
      var o := Bybit.FrameStep(y, f, recv); Outcome(OnBybit(o.state), o.verdict, o.out)
    case _ => Outcome(p, Ok, [])
  }

  /**
    Whatever the protocol and the message: what is emitted continues the position
    without a gap or starts with a snapshot, and a refusal emits nothing.
  */
  lemma HandleAdvances(p: Protocol, m: Message, recv: int)
    requires Consistent(p)
    ensures var o := Handle(p, m, recv);
            && Consistent(o.state) && SameVenue(p, o.state)
            && Advances(NeedsRest(p), Position(p), o.out, Position(o.state))
            && (o.verdict != Ok ==> o.out == [])
  {
    match (p, m)
    case (OnBinance(b), BinanceFrame(f)) => Binance.FrameAdvances(b, f, recv);
    case (OnBinance(b), BinanceReply(r)) => Binance.RestAdvances(b, r, recv);
    case (OnOkx(s), OkxFrame(f)) => Okx.FrameAdvances(s, f, recv);
    case (OnBybit(y), BybitFrame(f)) => Bybit.FrameAdvances(y, f, recv);
    case _ =>
  }

  // ----- truthful messages

  /** What a message lists is true of the venue's history at the ids it names. */
  ghost predicate Truthful(h: History, m: Message) {
    match m
    case BinanceFrame(f) => f.Depth? ==> TruthfulDiff(h, f.event)
    case BinanceReply(r) => r.Snapshot? ==> Tells(true, h, true, r.bids, r.asks, r.id, r.id)
    case OkxFrame(f) => f.Books? ==> forall i :: 0 <= i < |f.data| ==> TruthfulEntry(h, f.isSnapshot, f.data[i])
    case BybitFrame(f) =>
      f.OrderBook? && f.u.Some? && f.bids.Some? && f.asks.Some? ==>
        Tells(false, h, f.isSnapshot, f.bids.value, f.asks.value, f.u.value - 1, f.u.value)
  }

  /** An event U..u leads from the book before U to the book at u. */
  ghost predicate TruthfulDiff(h: History, e: Binance.DepthEvent) {
    Tells(true, h, false, e.bids, e.asks, e.first - 1, e.final)
  }

  ghost predicate TruthfulEntry(h: History, isSnapshot: bool, e: Okx.DataEntry) {
    e.seqId.Some? && e.bids.Some? && e.asks.Some? ==>
      if isSnapshot then Tells(false, h, true, e.bids.value, e.asks.value, e.seqId.value, e.seqId.value)
      else e.prevSeqId.Some? && e.prevSeqId != e.seqId ==>
        Tells(false, h, false, e.bids.value, e.asks.value, e.prevSeqId.value, e.seqId.value)
  }

  /** Everything held back for later is true as well. */
  ghost predicate TruthfulState(h: History, p: Protocol) {
    p.OnBinance? ==> forall i :: 0 <= i < |p.b.buffered| ==> TruthfulDiff(h, p.b.buffered[i])
  }

  lemma BinanceFrameIsGenuine(h: History, b: Binance.State, f: Binance.Frame, recv: int)
    requires TruthfulState(h, OnBinance(b)) && Truthful(h, BinanceFrame(f))
    ensures var o := Binance.FrameStep(b, f, recv);
            TruthfulState(h, OnBinance(o.state)) && GenuineFrom(true, h, Ups(o.out), 0)
  {
  }

  /** A batch of a snapshot and replayed events is genuine when its parts are. */
  lemma BatchIsGenuine(h: History, r: Binance.Reply, es: seq<Binance.DepthEvent>, recv: int)
    requires r.Snapshot? && Truthful(h, BinanceReply(r)) && forall e :: e in es ==> TruthfulDiff(h, e)
    ensures GenuineFrom(true, h, Ups([Binance.SnapshotOf(r, recv)] + Binance.Replayed(es, recv)), 0)
  {
    var all := [Binance.SnapshotOf(r, recv)] + Binance.Replayed(es, recv);
    forall i | 0 <= i < |all| ensures Genuine(true, h, Ups(all)[i].s) {
      if i > 0 {
        assert all[i] == Binance.StampedOf(es[i - 1], recv) && es[i - 1] in es;
      }
    }
  }

  lemma BinanceRestIsGenuine(h: History, b: Binance.State, r: Binance.Reply, recv: int)
    requires TruthfulState(h, OnBinance(b)) && Truthful(h, BinanceReply(r))
    ensures GenuineFrom(true, h, Ups(Binance.RestStep(b, r, recv).out), 0)
  {
    if Binance.RestStep(b, r, recv).out != [] {
      var es := Binance.Survivors(b.buffered, r.id);
      Binance.SurvivorsAreBuffered(b.buffered, r.id);
      forall e | e in es ensures TruthfulDiff(h, e) {
        assert e in b.buffered;
      }
      BatchIsGenuine(h, r, es, recv);
    }
  }

  lemma BybitFrameIsGenuine(h: History, y: Bybit.State, f: Bybit.Frame, recv: int)
    requires Truthful(h, BybitFrame(f))
    ensures GenuineFrom(false, h, Ups(Bybit.FrameStep(y, f, recv).out), 0)
  {
  }

  lemma {:induction false} OkxStagesGenuine(h: History, s: Okx.State, isSnapshot: bool, data: seq<Okx.DataEntry>, recv: int)
    requires forall i :: 0 <= i < |data| ==> TruthfulEntry(h, isSnapshot, data[i])
    ensures var g := Okx.StageAll(s, isSnapshot, data, recv);
            g.Staged? ==> GenuineFrom(false, h, Ups(g.out), 0)
  {
    if data != [] {
      var n := |data| - 1;
      OkxStagesGenuine(h, s, isSnapshot, data[..n], recv);
      var before, after := Okx.StageAll(s, isSnapshot, data[..n], recv), Okx.StageAll(s, isSnapshot, data, recv);
      assert TruthfulEntry(h, isSnapshot, data[n]);
      if after.Staged? && after != before {
        forall i | 0 <= i < |after.out| ensures Genuine(false, h, after.out[i]) {
          if i < |before.out| {
            assert Ups(before.out)[i].Up?;
          }
        }
      }
    }
  }

  /** From truthful messages a protocol emits only genuine updates and holds back only true ones. */
  lemma HandleIsGenuine(h: History, p: Protocol, m: Message, recv: int)
    requires TruthfulState(h, p) && Truthful(h, m)
    ensures var o := Handle(p, m, recv);
            TruthfulState(h, o.state) && GenuineFrom(NeedsRest(p), h, Ups(o.out), 0)
  {
    match (p, m)
    case (OnBinance(b), BinanceFrame(f)) => BinanceFrameIsGenuine(h, b, f, recv);
    case (OnBinance(b), BinanceReply(r)) => BinanceRestIsGenuine(h, b, r, recv);
    case (OnOkx(s), OkxFrame(f)) =>
      if f.Books? {
        OkxStagesGenuine(h, s, f.isSnapshot, f.data, recv);
      }
    case (OnBybit(y), BybitFrame(f)) => BybitFrameIsGenuine(h, y, f, recv);
    case _ =>
  }

  // ----- whole runs of a protocol

  datatype Input = ResetIt | Deliver(m: Message, recv: int)

  /** A protocol with everything it has emitted; a reset cuts the log. */
  datatype Run = Run(proto: Protocol, log: seq<Entry>)

  ghost function Step(r: Run, x: Input): Run {
    match x
    case ResetIt => Run(Reset(r.proto), r.log + [Cut])
    case Deliver(m, recv) =>
      var o := Handle(r.proto, m, recv);
      Run(o.state, r.log + Ups(o.out))
  }

  ghost function RunOf(p: Protocol, xs: seq<Input>): Run {
    if xs == [] then Run(Reset(p), []) else Step(RunOf(p, xs[..|xs| - 1]), xs[|xs| - 1])
  }

  /** Every message so far was accepted. */
  ghost predicate AllOk(p: Protocol, xs: seq<Input>) {
    xs != [] ==>
      var front, x := xs[..|xs| - 1], xs[|xs| - 1];
      AllOk(p, front) && (x.Deliver? ==> Handle(RunOf(p, front).proto, x.m, x.recv).verdict == Ok)
  }

  /** A run with one more message. */
  lemma RunPush(p: Protocol, xs: seq<Input>, m: Message, recv: int)
    ensures var o := Handle(RunOf(p, xs).proto, m, recv);
            && RunOf(p, xs + [Deliver(m, recv)]) == Run(o.state, RunOf(p, xs).log + Ups(o.out))
            && (AllOk(p, xs + [Deliver(m, recv)]) <==> AllOk(p, xs) && o.verdict == Ok)
  {
    assert (xs + [Deliver(m, recv)])[..|xs|] == xs;
  }

  /** Acceptance of a whole run is acceptance of its beginning. */
  lemma {:induction false} AllOkPrefix(p: Protocol, xs: seq<Input>, ys: seq<Input>)
    ensures AllOk(p, xs + ys) ==> AllOk(p, xs)
    decreases |ys|
  {
    if ys == [] {
      assert xs + ys == xs;
    } else {
      var n := |ys| - 1;
      assert (xs + ys)[..|xs| + n] == xs + ys[..n];
      AllOkPrefix(p, xs, ys[..n]);
    }
  }

  /**
    No protocol can hide a gap. After any sequence of inputs, in any order: each
    emitted delta directly continues the update emitted before it with no reset in
    between, no delta comes before a snapshot, and the position the protocol would
    continue from is the id of its last emission.
  */
  lemma {:induction false} RunsAreGapFree(p: Protocol, xs: seq<Input>)
    ensures var r := RunOf(p, xs);
            && Chained(NeedsRest(p), r.log)
            && Tracks(Position(r.proto), r.log)
            && Consistent(r.proto) && SameVenue(p, r.proto)
  {
    if xs != [] {
      var r := RunOf(p, xs[..|xs| - 1]);
      RunsAreGapFree(p, xs[..|xs| - 1]);
      match xs[|xs| - 1]
      case ResetIt =>
      case Deliver(m, recv) =>
        var o := Handle(r.proto, m, recv);
        HandleAdvances(r.proto, m, recv);
        AdvanceKeepsChain(NeedsRest(p), r.log, Position(r.proto), o.out, Position(o.state));
    }
  }

  /** Adding genuine updates to a log keeps it genuine from entry k on. */
  lemma GenuineConcat(straddle: bool, h: History, log: seq<Entry>, k: nat, out: seq<Stamped>)
    requires k <= |log| && GenuineFrom(straddle, h, log, k) && GenuineFrom(straddle, h, Ups(out), 0)
    ensures GenuineFrom(straddle, h, log + Ups(out), k)
  {
    var all := log + Ups(out);
    forall i | k <= i < |all| && all[i].Up? ensures Genuine(straddle, h, all[i].s) {
      assert i >= |log| ==> all[i] == Ups(out)[i - |log|];
    }
  }

  lemma {:induction false} RunsAreGenuine(h: History, p: Protocol, xs: seq<Input>, from: nat)
    requires from <= |xs| && forall i :: from <= i < |xs| && xs[i].Deliver? ==> Truthful(h, xs[i].m)
    requires TruthfulState(h, RunOf(p, xs[..from]).proto)
    ensures var r0, r := RunOf(p, xs[..from]), RunOf(p, xs);
            r0.log <= r.log && GenuineFrom(NeedsRest(p), h, r.log, |r0.log|) && TruthfulState(h, r.proto)
    decreases |xs|
  {
    if from == |xs| {
      assert xs[..from] == xs;
    } else {
      var front := xs[..|xs| - 1];
      var r0, r := RunOf(p, xs[..from]), RunOf(p, front);
      assert front[..from] == xs[..from];
      RunsAreGenuine(h, p, front, from);
      RunsAreGapFree(p, front);
      match xs[|xs| - 1]
      case ResetIt =>
      case Deliver(m, recv) =>
        HandleIsGenuine(h, r.proto, m, recv);
        GenuineConcat(NeedsRest(p), h, r.log, |r0.log|, Handle(r.proto, m, recv).out);
    }
  }

  /**
    Synchronisation is exact. From the point where the messages tell the truth about
    one history, lost, duplicated or reordered in any way, and as soon as a snapshot
    was emitted since, the emitted updates fold to the venue's own book at the id of
    the last one; while the protocol has a position, that is the book at its position.
    What was said earlier does not matter: the venue may have restarted its numbering.
  */
  lemma RunsAreExact(h: History, p: Protocol, xs: seq<Input>, from: nat)
    requires from <= |xs| && forall i :: from <= i < |xs| && xs[i].Deliver? ==> Truthful(h, xs[i].m)
    requires TruthfulState(h, RunOf(p, xs[..from]).proto)
    ensures var r := RunOf(p, xs);
            var out := Kept(r.log);
            SnapshotSince(r.log, |RunOf(p, xs[..from]).log|) ==>
              && (out != [] ==> Folded(EMPTY, Updates(out)) == h(out[|out| - 1].id))
              && (Position(r.proto).Some? ==>
                    out != [] && Folded(EMPTY, Updates(out)) == h(Position(r.proto).value))
  {
    var r0, r := RunOf(p, xs[..from]), RunOf(p, xs);
    if SnapshotSince(r.log, |r0.log|) {
      RunsAreGapFree(p, xs);
      RunsAreGenuine(h, p, xs, from);
      GenuineSinceSnapshot(NeedsRest(p), h, r.log, |r0.log|);
      ChainedIsInBlocks(NeedsRest(p), r.log);
      GapFreeFoldIsVenueBook(NeedsRest(p), h, r.log);
    }
  }

  /** With one history throughout no snapshot need be waited for: nothing is emitted before one. */
  lemma TruthfulRunsAreExact(h: History, p: Protocol, xs: seq<Input>)
    requires forall i :: 0 <= i < |xs| && xs[i].Deliver? ==> Truthful(h, xs[i].m)
    ensures var r := RunOf(p, xs);
            var out := Kept(r.log);
            && (out != [] ==> Folded(EMPTY, Updates(out)) == h(out[|out| - 1].id))
            && (Position(r.proto).Some? ==>
                  out != [] && Folded(EMPTY, Updates(out)) == h(Position(r.proto).value))
  {
    var r := RunOf(p, xs);
    assert xs[..0] == [];
    RunsAreGapFree(p, xs);
    ChainedIsInBlocks(NeedsRest(p), r.log);
    if Kept(r.log) != [] {
      StartsWithSnapshot(NeedsRest(p), r.log);
      RunsAreExact(h, p, xs, 0);
    }
  }
}
