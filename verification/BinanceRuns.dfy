/**
  Runs of the Binance protocol: against a history of level changes, and which starts
  go through without a resync.
*/
module BinanceRuns {
  import opened Levels
  import opened Feed
  import opened Sequencing
  import opened BinanceVenue
  import Binance
  import Venues

  ghost predicate GenuineMessage(c: Changes, m: Venues.Message)
    requires WellFormed(c)
  {
    match m
    case BinanceFrame(f) => GenuineFrame(c, f)
    case BinanceReply(r) => GenuineReply(c, r)
    case _ => false
  }

  /**
    Reconciliation is exact. The venue's history is any sequence of absolute level
    changes; snapshots are full-depth books at their lastUpdateId; an event U..u
    with U <= u carries the quantity at u of every price touched in U..u. In every
    run over such events, lost, duplicated or reordered, and such snapshots arriving
    at any time, while synced the emitted updates fold to the venue's book at
    lastUpdateId - also when the first replayed event overlaps the snapshot.
  */
  lemma ReconciliationIsExact(c: Changes, maxBuffered: nat, xs: seq<Venues.Input>)
    requires WellFormed(c)
    requires forall i :: 0 <= i < |xs| && xs[i].Deliver? ==> GenuineMessage(c, xs[i].m)
    ensures var r := Venues.RunOf(Venues.OnBinance(Binance.Fresh(maxBuffered)), xs);
            && r.proto.OnBinance?
            && (r.proto.b.synced ==>
                  Folded(EMPTY, Updates(Kept(r.log))) == BookAt(c, r.proto.b.lastUpdateId))
  {
    var p := Venues.OnBinance(Binance.Fresh(maxBuffered));
    forall i | 0 <= i < |xs| && xs[i].Deliver? ensures Venues.Truthful(HistoryOf(c), xs[i].m) {
      match xs[i].m
      case BinanceFrame(f) =>
        if f.Depth? {
          GenuineEventTells(c, f.event);
        }
      case BinanceReply(r) =>
    }
    Venues.RunsAreGapFree(p, xs);
    Venues.TruthfulRunsAreExact(HistoryOf(c), p, xs);
  }

  // ----- starting up

  function Frames(es: seq<Binance.DepthEvent>, recv: int): seq<Venues.Input> {
    if es == [] then [] else Frames(es[..|es| - 1], recv) + [FrameOf(es[|es| - 1], recv)]
  }

  function FrameOf(e: Binance.DepthEvent, recv: int): Venues.Input {
    Venues.Deliver(Venues.BinanceFrame(Binance.Depth(e)), recv)
  }

  /** One frame after some inputs. */
  lemma FramesPush(xs: seq<Venues.Input>, es: seq<Binance.DepthEvent>, recv: int)
    requires es != []
    ensures var n := |es| - 1;
            xs + Frames(es, recv) == (xs + Frames(es[..n], recv)) + [FrameOf(es[n], recv)]
  {
  }

  /** Everything was accepted, and this is where it led. */
  ghost predicate Led(p: Venues.Protocol, xs: seq<Venues.Input>, b: Binance.State, log: seq<Entry>) {
    Venues.AllOk(p, xs) && Venues.RunOf(p, xs) == Venues.Run(Venues.OnBinance(b), log)
  }

  lemma LedByEvent(p: Venues.Protocol, xs: seq<Venues.Input>, b: Binance.State, log: seq<Entry>, e: Binance.DepthEvent, recv: int)
    requires Led(p, xs, b, log)
    ensures var o, ys := Binance.FrameStep(b, Binance.Depth(e), recv), xs + [FrameOf(e, recv)];
            (Venues.AllOk(p, ys) <==> o.verdict == Ok) && (o.verdict == Ok ==> Led(p, ys, o.state, log + Ups(o.out)))
  {
    Venues.RunPush(p, xs, Venues.BinanceFrame(Binance.Depth(e)), recv);
  }

  lemma LedByReply(p: Venues.Protocol, xs: seq<Venues.Input>, b: Binance.State, log: seq<Entry>, r: Binance.Reply, recv: int)
    requires Led(p, xs, b, log)
    ensures var o, ys := Binance.RestStep(b, r, recv), xs + [Venues.Deliver(Venues.BinanceReply(r), recv)];
            (Venues.AllOk(p, ys) <==> o.verdict == Ok) && (o.verdict == Ok ==> Led(p, ys, o.state, log + Ups(o.out)))
  {
    Venues.RunPush(p, xs, Venues.BinanceReply(r), recv);
  }

  /** Until a snapshot arrives events are held back, as many as there is room for. */
  lemma {:induction false} Buffering(maxBuffered: nat, es: seq<Binance.DepthEvent>, recv: int)
    ensures var p := Venues.OnBinance(Binance.Fresh(maxBuffered));
            && (Venues.AllOk(p, Frames(es, recv)) <==> |es| <= maxBuffered)
            && (|es| <= maxBuffered ==> Led(p, Frames(es, recv), Binance.State(maxBuffered, es, 0, false), []))
  {
    var p := Venues.OnBinance(Binance.Fresh(maxBuffered));
    if es != [] {
      var front, e := es[..|es| - 1], es[|es| - 1];
      Buffering(maxBuffered, front, recv);
      Venues.AllOkPrefix(p, Frames(front, recv), [FrameOf(e, recv)]);
      if |front| <= maxBuffered {
        HeldBack(p, Frames(front, recv), Binance.State(maxBuffered, front, 0, false), e, recv);
        assert front + [e] == es;
      }
    }
  }

  /** One event on a state that waits for its snapshot. */
  lemma HeldBack(p: Venues.Protocol, xs: seq<Venues.Input>, s: Binance.State, e: Binance.DepthEvent, recv: int)
    requires Led(p, xs, s, []) && !s.synced
    ensures var ys := xs + [FrameOf(e, recv)];
            && (Venues.AllOk(p, ys) <==> |s.buffered| < s.maxBuffered)
            && (|s.buffered| < s.maxBuffered ==> Led(p, ys, s.(buffered := s.buffered + [e]), []))
  {
    LedByEvent(p, xs, s, [], e, recv);
    Binance.EventDelivers(s, e, recv);
  }

  /** The updates are the events, each with its own levels, times and ids. */
  ghost predicate AreEvents(ds: seq<Stamped>, es: seq<Binance.DepthEvent>, recv: int) {
    |ds| == |es| && forall i :: 0 <= i < |es| ==>
      Holds(ds[i], false, es[i].bids, es[i].asks, es[i].ts, recv, es[i].first - 1, es[i].final)
  }

  lemma AreEventsPush(ds: seq<Stamped>, es: seq<Binance.DepthEvent>, d: Stamped, recv: int)
    requires es != [] && AreEvents(ds, es[..|es| - 1], recv)
    requires var e := es[|es| - 1]; Holds(d, false, e.bids, e.asks, e.ts, recv, e.first - 1, e.final)
    ensures AreEvents(ds + [d], es, recv)
  {
  }

  /** The state after some live events. */
  function Moved(b: Binance.State, es: seq<Binance.DepthEvent>): Binance.State {
    if es == [] then b else b.(lastUpdateId := es[|es| - 1].final)
  }

  /** The events continue the state's position. */
  predicate Adjacent(b: Binance.State, es: seq<Binance.DepthEvent>) {
    es == [] || es[0].first == b.lastUpdateId + 1
  }

  /** One event on a synced state. */
  lemma LiveEvent(p: Venues.Protocol, xs: seq<Venues.Input>, b: Binance.State, log: seq<Entry>, e: Binance.DepthEvent, recv: int)
    returns (d: Stamped)
    requires Led(p, xs, b, log) && b.synced
    ensures var ys := xs + [FrameOf(e, recv)];
            && (Venues.AllOk(p, ys) <==> e.first == b.lastUpdateId + 1)
            && (e.first == b.lastUpdateId + 1 ==>
                  && Holds(d, false, e.bids, e.asks, e.ts, recv, e.first - 1, e.final)
                  && Led(p, ys, b.(lastUpdateId := e.final), log + [Up(d)]))
  {
    LedByEvent(p, xs, b, log, e, recv);
    Binance.EventDelivers(b, e, recv);
    d := Binance.StampedOf(e, recv);
    var o := Binance.FrameStep(b, Binance.Depth(e), recv);
    assert o.out != [] ==> Ups(o.out) == [Up(o.out[0])];
    if o.out != [] {
      d := o.out[0];
    }
  }

  /** Once synced, contiguous events are all accepted exactly when the first starts right after the position. */
  lemma {:induction false} LiveEvents(p: Venues.Protocol, xs: seq<Venues.Input>, b: Binance.State, log: seq<Entry>,
                                      es: seq<Binance.DepthEvent>, recv: int) returns (ds: seq<Stamped>)
    requires Led(p, xs, b, log) && b.synced && Binance.Contiguous(es)
    ensures Venues.AllOk(p, xs + Frames(es, recv)) <==> Adjacent(b, es)
    ensures Adjacent(b, es) ==> AreEvents(ds, es, recv) && Led(p, xs + Frames(es, recv), Moved(b, es), log + Ups(ds))
  {
    ds := [];
    if es == [] {
      assert xs + Frames(es, recv) == xs;
      assert log + Ups(ds) == log;
    } else {
      var front, e := es[..|es| - 1], es[|es| - 1];
      var fs := LiveEvents(p, xs, b, log, front, recv);
      FramesPush(xs, es, recv);
      Venues.AllOkPrefix(p, xs + Frames(front, recv), [FrameOf(e, recv)]);
      if Adjacent(b, front) {
        var d := LiveEvent(p, xs + Frames(front, recv), Moved(b, front), log + Ups(fs), e, recv);
        AdjacentLast(b, es);
        if Adjacent(b, es) {
          ds := fs + [d];
          AreEventsPush(fs, es, d, recv);
          UpsPush(log, fs, d);
        }
      }
    }
  }

  lemma UpsPush(log: seq<Entry>, fs: seq<Stamped>, d: Stamped)
    ensures log + Ups(fs + [d]) == (log + Ups(fs)) + [Up(d)]
  {
  }

  /** In a contiguous run that continues the position up to its last event, that event does so as well. */
  lemma AdjacentLast(b: Binance.State, es: seq<Binance.DepthEvent>)
    requires es != [] && Binance.Contiguous(es) && Adjacent(b, es[..|es| - 1])
    ensures var front, e := es[..|es| - 1], es[|es| - 1];
            && (Adjacent(b, es) <==> e.first == Moved(b, front).lastUpdateId + 1)
            && Moved(b, es) == Moved(b, front).(lastUpdateId := e.final)
  {
  }

  /** The reply with the snapshot, delivered after the events so far. */
  ghost function Started(held: seq<Binance.DepthEvent>, r: Binance.Reply, recv: int): seq<Venues.Input> {
    Frames(held, recv) + [Venues.Deliver(Venues.BinanceReply(r), recv)]
  }

  /** Ends are in order and no event is empty. */
  ghost predicate Stream(es: seq<Binance.DepthEvent>) {
    Binance.Contiguous(es) && forall i :: 0 <= i < |es| ==> es[i].first <= es[i].final
  }

  /** Event k is the first that ends beyond the id. */
  ghost predicate Splits(es: seq<Binance.DepthEvent>, k: nat, id: int) {
    k <= |es| && (forall i :: 0 <= i < k ==> es[i].final <= id) && (k < |es| ==> es[k].final > id)
  }

  /** In a stream a snapshot is continued unless the first event starts beyond its successor. */
  lemma ContinuesIff(es: seq<Binance.DepthEvent>, k: nat, id: int)
    requires Stream(es) && Splits(es, k, id)
    ensures Binance.Continues(es, k, id) <==> es == [] || es[0].first <= id + 1
  {
    if 0 < k < |es| {
      assert es[k].first == es[k - 1].final + 1;
    }
  }

  /** The state once a snapshot at the id was continued from event k. */
  function Seeded(maxBuffered: nat, held: seq<Binance.DepthEvent>, k: nat, id: int): Binance.State {
    Binance.State(maxBuffered, [], if held == [] || k >= |held| then id else held[|held| - 1].final, true)
  }

  /** A snapshot on the events held so far. */
  lemma SnapshotOnBuffer(s: Binance.State, r: Binance.Reply, recv: int) returns (k: nat)
    requires r.Snapshot? && Stream(s.buffered)
    ensures Splits(s.buffered, k, r.id)
    ensures var o := Binance.RestStep(s, r, recv);
            && (o.verdict == Ok <==> s.buffered == [] || s.buffered[0].first <= r.id + 1)
            && (o.verdict == Ok ==>
                  Binance.IsBatch(o.out, r, s.buffered, k, recv) && o.state == Seeded(s.maxBuffered, s.buffered, k, r.id))
  {
    k := Binance.SnapshotDelivers(s, r, recv);
    ContinuesIff(s.buffered, k, r.id);
  }

  /** The snapshot arrives behind the events held. */
  lemma SnapshotArrives(maxBuffered: nat, held: seq<Binance.DepthEvent>, r: Binance.Reply, recv: int)
    returns (k: nat, out: seq<Stamped>)
    requires r.Snapshot? && Stream(held)
    ensures Splits(held, k, r.id)
    ensures var p := Venues.OnBinance(Binance.Fresh(maxBuffered));
            var ok := |held| <= maxBuffered && (held == [] || held[0].first <= r.id + 1);
            && (Venues.AllOk(p, Started(held, r, recv)) <==> ok)
            && (ok ==> Binance.IsBatch(out, r, held, k, recv) &&
                       Led(p, Started(held, r, recv), Seeded(maxBuffered, held, k, r.id), Ups(out)))
  {
    var p := Venues.OnBinance(Binance.Fresh(maxBuffered));
    Buffering(maxBuffered, held, recv);
    if |held| <= maxBuffered {
      k, out := LedBySnapshot(p, Frames(held, recv), Binance.State(maxBuffered, held, 0, false), r, recv);
    } else {
      k := Binance.SurvivorsAreSuffix(held, r.id);
      out := [];
      Venues.AllOkPrefix(p, Frames(held, recv), [Venues.Deliver(Venues.BinanceReply(r), recv)]);
    }
  }

  lemma LedBySnapshot(p: Venues.Protocol, xs: seq<Venues.Input>, s: Binance.State, r: Binance.Reply, recv: int)
    returns (k: nat, out: seq<Stamped>)
    requires Led(p, xs, s, []) && r.Snapshot? && Stream(s.buffered)
    ensures Splits(s.buffered, k, r.id)
    ensures var ys, ok := xs + [Venues.Deliver(Venues.BinanceReply(r), recv)], s.buffered == [] || s.buffered[0].first <= r.id + 1;
            && (Venues.AllOk(p, ys) <==> ok)
            && (ok ==> Binance.IsBatch(out, r, s.buffered, k, recv) && Led(p, ys, Seeded(s.maxBuffered, s.buffered, k, r.id), Ups(out)))
  {
    k := SnapshotOnBuffer(s, r, recv);
    out := Binance.RestStep(s, r, recv).out;
    LedByReply(p, xs, s, [], r, recv);
    assert [] + Ups(out) == Ups(out);
  }

  /** Where the snapshot has to fall for a start without a resync. */
  predicate InReach(maxBuffered: nat, held: seq<Binance.DepthEvent>, rest: seq<Binance.DepthEvent>, id: int) {
    && |held| <= maxBuffered
    && (held != [] ==> held[0].first <= id + 1)
    && (rest != [] ==> id + 1 <= rest[0].first && (held == [] ==> id + 1 == rest[0].first))
  }

  /** The inputs of a start: some events, the snapshot, the other events. */
  ghost function StartUp(held: seq<Binance.DepthEvent>, r: Binance.Reply, rest: seq<Binance.DepthEvent>, recv: int): seq<Venues.Input> {
    Started(held, r, recv) + Frames(rest, recv)
  }

  /**
    An ordinary start succeeds. A stream of contiguous events, with a snapshot delivered
    somewhere in it, is accepted throughout exactly when the events held fit the buffer, the
    first does not start beyond the snapshot's successor, and the snapshot does not lie
    beyond the events held when more follow. Then what is handed on is the snapshot and
    every event that ends beyond it, in order and with its own levels, and the position is
    the end of the last of them, or the snapshot's.
  */
  lemma StartUpIff(maxBuffered: nat, held: seq<Binance.DepthEvent>, r: Binance.Reply, rest: seq<Binance.DepthEvent>, recv: int)
    returns (k: nat)
    requires r.Snapshot? && Stream(held + rest)
    ensures var p, xs := Venues.OnBinance(Binance.Fresh(maxBuffered)), StartUp(held, r, rest, recv);
            && (Venues.AllOk(p, xs) <==> InReach(maxBuffered, held, rest, r.id))
            && (InReach(maxBuffered, held, rest, r.id) ==>
                  && Splits(held + rest, k, r.id)
                  && Binance.IsBatch(Kept(Venues.RunOf(p, xs).log), r, held + rest, k, recv)
                  && Venues.Position(Venues.RunOf(p, xs).proto) ==
                     Some(if k == |held + rest| then r.id else (held + rest)[|held + rest| - 1].final))
  {
    var p, start := Venues.OnBinance(Binance.Fresh(maxBuffered)), Started(held, r, recv);
    StreamParts(held, rest);
    var out;
    k, out := SnapshotArrives(maxBuffered, held, r, recv);
    if |held| <= maxBuffered && (held == [] || held[0].first <= r.id + 1) {
      var b := Seeded(maxBuffered, held, k, r.id);
      var ds := LiveEvents(p, start, b, Ups(out), rest, recv);
      ReachIsAdjacent(maxBuffered, held, rest, k, r.id);
      if InReach(maxBuffered, held, rest, r.id) {
        SplitsWhole(held, rest, k, r.id);
        StartUpEnds(p, StartUp(held, r, rest, recv), b, out, ds, r, held, rest, k, recv);
      }
    } else {
      Venues.AllOkPrefix(p, start, Frames(rest, recv));
    }
  }

  /** Where a start without a resync ends. */
  lemma StartUpEnds(p: Venues.Protocol, xs: seq<Venues.Input>, b: Binance.State, out: seq<Stamped>, ds: seq<Stamped>,
                    r: Binance.Reply, held: seq<Binance.DepthEvent>, rest: seq<Binance.DepthEvent>, k: nat, recv: int)
    requires r.Snapshot? && k <= |held| && Binance.IsBatch(out, r, held, k, recv) && AreEvents(ds, rest, recv)
    requires b == Seeded(b.maxBuffered, held, k, r.id) && Led(p, xs, Moved(b, rest), Ups(out) + Ups(ds))
    ensures Binance.IsBatch(Kept(Venues.RunOf(p, xs).log), r, held + rest, k, recv)
    ensures Venues.Position(Venues.RunOf(p, xs).proto) ==
            Some(if k == |held + rest| then r.id else (held + rest)[|held + rest| - 1].final)
  {
    JoinBatch(out, ds, r, held, rest, k, recv);
    KeptBoth(out, ds);
    LastOfBoth(b, held, rest, k, r.id);
  }

  lemma KeptBoth(out: seq<Stamped>, ds: seq<Stamped>)
    ensures Kept(Ups(out) + Ups(ds)) == out + ds
  {
    KeptConcat(Ups(out), Ups(ds));
    KeptUps(out);
    KeptUps(ds);
  }

  lemma LastOfBoth(b: Binance.State, held: seq<Binance.DepthEvent>, rest: seq<Binance.DepthEvent>, k: nat, id: int)
    requires k <= |held| && b == Seeded(b.maxBuffered, held, k, id)
    ensures var es := held + rest;
            Moved(b, rest).synced && Moved(b, rest).lastUpdateId == if k == |es| then id else es[|es| - 1].final
  {
  }

  lemma StreamParts(held: seq<Binance.DepthEvent>, rest: seq<Binance.DepthEvent>)
    requires Stream(held + rest)
    ensures Stream(held) && Stream(rest)
    ensures held != [] && rest != [] ==> rest[0].first == held[|held| - 1].final + 1
  {
    var es := held + rest;
    assert forall i :: 0 <= i < |held| ==> held[i] == es[i];
    assert forall i :: 0 <= i < |rest| ==> rest[i] == es[|held| + i];
  }

  /** The first live event starts right after the position exactly when the snapshot is in reach. */
  lemma ReachIsAdjacent(maxBuffered: nat, held: seq<Binance.DepthEvent>, rest: seq<Binance.DepthEvent>, k: nat, id: int)
    requires Stream(held + rest) && Splits(held, k, id) && |held| <= maxBuffered && (held == [] || held[0].first <= id + 1)
    ensures Adjacent(Seeded(maxBuffered, held, k, id), rest) <==> InReach(maxBuffered, held, rest, id)
  {
    StreamParts(held, rest);
    if k < |held| {
      FinalsGrow(held, k, |held| - 1);
    }
  }

  /** The first event to end beyond the snapshot is the same with the live events behind. */
  lemma SplitsWhole(held: seq<Binance.DepthEvent>, rest: seq<Binance.DepthEvent>, k: nat, id: int)
    requires Stream(held + rest) && Splits(held, k, id) && (rest != [] ==> id + 1 <= rest[0].first)
    ensures Splits(held + rest, k, id)
  {
    var es := held + rest;
    StreamParts(held, rest);
    assert forall i :: 0 <= i < |held| ==> held[i] == es[i];
    if k == |held| && rest != [] {
      assert es[k] == rest[0];
    }
  }

  lemma {:induction false} FinalsGrow(es: seq<Binance.DepthEvent>, i: nat, j: nat)
    requires i <= j < |es| && Stream(es)
    ensures es[i].final <= es[j].final
    decreases j - i
  {
    if i < j {
      FinalsGrow(es, i, j - 1);
      assert es[j].first == es[j - 1].final + 1;
    }
  }

  /** The batch of the snapshot and the live events behind it make one batch. */
  lemma JoinBatch(out: seq<Stamped>, ds: seq<Stamped>, r: Binance.Reply, held: seq<Binance.DepthEvent>,
                  rest: seq<Binance.DepthEvent>, k: nat, recv: int)
    requires r.Snapshot? && k <= |held| && Binance.IsBatch(out, r, held, k, recv) && AreEvents(ds, rest, recv)
    ensures Binance.IsBatch(out + ds, r, held + rest, k, recv)
  {
    var all, es := out + ds, held + rest;
    forall i | k <= i < |es|
      ensures Holds(all[1 + i - k], false, es[i].bids, es[i].asks, es[i].ts, recv, es[i].first - 1, es[i].final)
    {
      if i < |held| {
        assert held[i] == es[i] && all[1 + i - k] == out[1 + i - k];
      } else {
        assert rest[i - |held|] == es[i] && all[1 + i - k] == ds[i - |held|];
      }
    }
  }

  /**
    Exactness rests on events not running backwards. A live event whose range is
    empty (here 3..1, listing nothing) passes the continuity test, and the position
    moves to an id whose book is not the one held.
  */
  lemma BackwardEventMisleads()
    ensures var c := Changes([[Level(1, 1)], [Level(1, 2)]], [[], []]);
            var s := Binance.State(1, [], 2, true);
            var o := Binance.FrameStep(s, Binance.Depth(Binance.DepthEvent(3, 1, [], [], 0)), 0);
            && WellFormed(c) && o.verdict == Ok && o.state.lastUpdateId == 1 && |o.out| == 1
            && !LeadTo(BookAt(c, 2), o.out[0].update.bids, o.out[0].update.asks, BookAt(c, 1))
  {
    var c := Changes([[Level(1, 1)], [Level(1, 2)]], [[], []]);
    var one, two := SideAt(c.bids, 1), SideAt(c.bids, 2);
    ApplyLevelsAt(map[], c.bids[0], 1);
    ApplyLevelsAt(one, c.bids[1], 1);
    assert c.bids[0][..0] == [] && c.bids[1][..0] == [];
    assert one == ApplyLevels(SideAt(c.bids, 0), c.bids[0]);
    assert one[1] == 1 && two[1] == 2;
  }
}
