/**
  Binance depth: reconciling a REST snapshot with a buffered diff stream
  (src/venues/binance.cc).
*/
module Binance {
  import opened Levels
  import opened Feed
  import opened Sequencing

  /** A diff event covering the update ids first..final. */
  datatype DepthEvent = DepthEvent(first: int, final: int, bids: GatedLevels, asks: GatedLevels, ts: int)

  /** A websocket frame after parsing. */
  datatype Frame =
    | Unparsable               // not JSON
    | NotForUs                 // an acknowledgement, another event type or another symbol
    | BadDepth                 // a depth update with a missing or malformed field
    | Depth(event: DepthEvent)

  /** The body of a REST reply after parsing. */
  datatype Reply = BadReply | Snapshot(id: int, bids: GatedLevels, asks: GatedLevels)

  datatype State = State(maxBuffered: nat, buffered: seq<DepthEvent>, lastUpdateId: int, synced: bool)

  function Fresh(maxBuffered: nat): State {
    State(maxBuffered, [], 0, false)
  }

  /** The id the next live event must start after. */
  function Position(s: State): Option<int> {
    if s.synced then Some(s.lastUpdateId) else None
  }

  function DeltaOf(e: DepthEvent, recv: int): FeedUpdate {
    FeedUpdate(false, e.bids, e.asks, e.ts, recv)
  }

  function StampedOf(e: DepthEvent, recv: int): Stamped {
    Stamped(DeltaOf(e, recv), e.first - 1, e.final)
  }

  function SnapshotOf(r: Reply, recv: int): Stamped
    requires r.Snapshot?
  {
    Stamped(FeedUpdate(true, r.bids, r.asks, 0, recv), r.id, r.id)
  }

  // ----- specification of the two handlers

  function FrameStep(s: State, f: Frame, recv: int): Outcome<State> {
    match f
    case Unparsable => Outcome(s, ParseError, [])
    case NotForUs => Outcome(s, Ok, [])
    case BadDepth => Outcome(s, ParseError, [])
    case Depth(e) =>
      if !s.synced then
        if |s.buffered| >= s.maxBuffered then Outcome(s.(buffered := []), NeedsResync, [])
        else Outcome(s.(buffered := s.buffered + [e]), Ok, [])
      else if e.first != s.lastUpdateId + 1 then Outcome(s, NeedsResync, [])
      else Outcome(s.(lastUpdateId := e.final), Ok, [StampedOf(e, recv)])
  }

  /** The buffered events not wholly older than the snapshot's id. */
  function Survivors(buffered: seq<DepthEvent>, id: int): seq<DepthEvent> {
    if buffered != [] && buffered[0].final <= id then Survivors(buffered[1..], id) else buffered
  }

  /** Each event starts right after the one before it. */
  predicate Contiguous(es: seq<DepthEvent>) {
    forall i :: 0 < i < |es| ==> es[i].first == es[i - 1].final + 1
  }

  /** The first survivor overlaps the snapshot's id and the rest follow without a hole. */
  predicate Reconciles(es: seq<DepthEvent>, id: int) {
    && (es != [] ==> es[0].first <= id + 1 <= es[0].final)
    && Contiguous(es)
  }

  function Replayed(es: seq<DepthEvent>, recv: int): (r: seq<Stamped>)
    ensures |r| == |es| && forall i :: 0 <= i < |es| ==> r[i] == StampedOf(es[i], recv)
  {
    seq(|es|, i requires 0 <= i < |es| => StampedOf(es[i], recv))
  }

  function RestStep(s: State, r: Reply, recv: int): Outcome<State> {
    if r.BadReply? then Outcome(s, ParseError, [])
    else
      var es := Survivors(s.buffered, r.id);
      if !Reconciles(es, r.id) then Outcome(s.(buffered := []), NeedsResync, [])
      else
        var last := if es == [] then r.id else es[|es| - 1].final;
        Outcome(s.(buffered := [], lastUpdateId := last, synced := true), Ok,
                [SnapshotOf(r, recv)] + Replayed(es, recv))
  }

  // ----- the handlers

  class BinanceProtocol {
    const maxBuffered: nat
    var staging: seq<FeedUpdate>
    var buffered: seq<DepthEvent>
    var lastUpdateId: int
    var synced: bool

    function Now(): State
      reads this
    {
      State(maxBuffered, buffered, lastUpdateId, synced)
    }

    constructor (maxBuffered: nat)
      ensures Now() == Fresh(maxBuffered)
    {
      this.maxBuffered := maxBuffered;
      staging, buffered, lastUpdateId, synced := [], [], 0, false;
    }

    method Reset()
      modifies this
      ensures Now() == Fresh(maxBuffered)
    {
      staging := [];
      buffered := [];
      lastUpdateId := 0;
      synced := false;
    }

    method OnFrame(f: Frame, recv: int, out0: seq<FeedUpdate>) returns (verdict: Verdict, out: seq<FeedUpdate>)
      modifies this`buffered, this`lastUpdateId
      ensures var o := FrameStep(old(Now()), f, recv);
              Now() == o.state && verdict == o.verdict && out == out0 + Updates(o.out)
      ensures old(Consistent(Now())) ==> Consistent(Now())
      ensures out != out0 ==> verdict == Ok && f.Depth? && old(Position(Now())) == Some(f.event.first - 1) &&
                              Position(Now()) == Some(f.event.final)
    {
      out := out0;
      if f.Unparsable? {
        return ParseError, out;
      }
      if f.NotForUs? {
        return Ok, out;
      }
      if f.BadDepth? {
        return ParseError, out;
      }
      var event := f.event;
      if !synced {
        if |buffered| >= maxBuffered {
          buffered := [];
          return NeedsResync, out;
        }
        buffered := buffered + [event];
        return Ok, out;
      }
      if event.first != lastUpdateId + 1 {
        return NeedsResync, out;
      }
      out := out + [DeltaOf(event, recv)];
      lastUpdateId := event.final;
      verdict := Ok;
    }

    method OnRestSnapshot(r: Reply, recv: int, out0: seq<FeedUpdate>) returns (verdict: Verdict, out: seq<FeedUpdate>)
      modifies this
      ensures var o := RestStep(old(Now()), r, recv);
              Now() == o.state && verdict == o.verdict && out == out0 + Updates(o.out)
      ensures old(Consistent(Now())) ==> Consistent(Now())
      ensures verdict == Ok <==> r.Snapshot? && Reconciles(Survivors(old(buffered), r.id), r.id)
    {
      out := out0;
      if r.BadReply? {
        return ParseError, out;
      }
      staging := [FeedUpdate(true, r.bids, r.asks, 0, recv)];
      DropOlder(r.id);
      if buffered != [] {
        if !(buffered[0].first <= r.id + 1 && r.id + 1 <= buffered[0].final) {
          buffered := [];
          return NeedsResync, out;
        }
      }
      ghost var es := buffered;
      var contiguous, appliedThrough := Replay(r.id, recv);
      if !contiguous {
        buffered := [];
        return NeedsResync, out;
      }
      assert staging == Updates([SnapshotOf(r, recv)] + Replayed(es, recv));
      out := out + staging;
      staging := [];
      buffered := [];
      lastUpdateId := appliedThrough;
      synced := true;
      verdict := Ok;
    }

    /** Pops every event wholly older than the snapshot. */
    method DropOlder(id: int)
      modifies this`buffered
      ensures buffered == Survivors(old(buffered), id)
    {
      while buffered != [] && buffered[0].final <= id
        invariant Survivors(buffered, id) == Survivors(old(buffered), id)
        decreases |buffered|
      {
        buffered := buffered[1..];
      }
    }

    /** Stages the buffered events in order, stopping at the first hole. */
    method Replay(id: int, recv: int) returns (contiguous: bool, appliedThrough: int)
      modifies this`staging
      ensures contiguous <==> Contiguous(buffered)
      ensures contiguous ==> staging == old(staging) + Updates(Replayed(buffered, recv))
      ensures contiguous ==> appliedThrough == if buffered == [] then id else buffered[|buffered| - 1].final
    {
      appliedThrough := id;
      var first := true;
      ghost var deltas := Updates(Replayed(buffered, recv));
      for i := 0 to |buffered|
        invariant first <==> i == 0
        invariant appliedThrough == if i == 0 then id else buffered[i - 1].final
        invariant forall j :: 0 < j < i ==> buffered[j].first == buffered[j - 1].final + 1
        invariant staging == old(staging) + deltas[..i]
      {
        var event := buffered[i];
        if !first && event.first != appliedThrough + 1 {
          return false, appliedThrough;
        }
        first := false;
        assert deltas[..i] + [DeltaOf(event, recv)] == deltas[..i + 1];
        staging := staging + [DeltaOf(event, recv)];
        appliedThrough := event.final;
      }
      contiguous := true;
    }
  }

  // ----- what a step keeps

  /** Once synced nothing is held back. */
  predicate Consistent(s: State) {
    s.synced ==> s.buffered == []
  }

  lemma FrameAdvances(s: State, f: Frame, recv: int)
    requires Consistent(s)
    ensures var o := FrameStep(s, f, recv);
            && Consistent(o.state)
            && Advances(true, Position(s), o.out, Position(o.state))
            && (o.verdict != Ok ==> o.out == [])
  {
  }

  lemma RestAdvances(s: State, r: Reply, recv: int)
    requires Consistent(s)
    ensures var o := RestStep(s, r, recv);
            && Consistent(o.state)
            && Advances(true, Position(s), o.out, Position(o.state))
            && (o.verdict != Ok ==> o.out == [])
  {
  }

  lemma {:induction false} SurvivorsAreBuffered(buffered: seq<DepthEvent>, id: int)
    ensures forall e :: e in Survivors(buffered, id) ==> e in buffered
    decreases |buffered|
  {
    if buffered != [] && buffered[0].final <= id {
      SurvivorsAreBuffered(buffered[1..], id);
    }
  }

  /**
    A contiguous buffer is refused only for a real hole: when its first event
    starts after the snapshot's successor. Otherwise the snapshot is accepted.
  */
  lemma {:induction false} ContiguousBufferReconciles(buffered: seq<DepthEvent>, id: int)
    requires Contiguous(buffered)
    requires forall i :: 0 <= i < |buffered| ==> buffered[i].first <= buffered[i].final
    ensures Reconciles(Survivors(buffered, id), id) <==>
            (buffered == [] || buffered[0].first <= id + 1)
    decreases |buffered|
  {
    if buffered != [] && buffered[0].final <= id {
      var rest := buffered[1..];
      assert Contiguous(rest) by { assert forall i :: 0 <= i < |rest| ==> rest[i] == buffered[i + 1]; }
      ContiguousBufferReconciles(rest, id);
      if rest != [] {
        assert rest[0].first == buffered[0].final + 1;
      }
    }
  }

  // ----- what a step delivers

  /**
    A depth event is accepted exactly when there is room to hold it or it starts right
    after the last id. A held event is appended to the buffer; a live one is handed on
    with its own levels and times. A full buffer is given up.
  */
  lemma EventDelivers(s: State, e: DepthEvent, recv: int)
    ensures var o := FrameStep(s, Depth(e), recv);
            && (o.verdict == Ok <==> if s.synced then e.first == s.lastUpdateId + 1 else |s.buffered| < s.maxBuffered)
            && (o.verdict != Ok ==> o.verdict == NeedsResync && o.out == [])
            && (s.synced && o.verdict == Ok ==>
                  && |o.out| == 1 && Holds(o.out[0], false, e.bids, e.asks, e.ts, recv, e.first - 1, e.final)
                  && o.state == s.(lastUpdateId := e.final))
            && (s.synced && o.verdict != Ok ==> o.state == s)
            && (!s.synced ==> o.out == [] && o.state == s.(buffered := if o.verdict == Ok then s.buffered + [e] else []))
  {
  }

  /** Frames that are no depth event: ignored when not meant for this book, refused when malformed. */
  lemma OtherFramesDeliverNothing(s: State, f: Frame, recv: int)
    requires !f.Depth?
    ensures var o := FrameStep(s, f, recv);
            o.state == s && o.out == [] && o.verdict == if f.NotForUs? then Ok else ParseError
  {
  }

  lemma {:induction false} SurvivorsAreSuffix(buffered: seq<DepthEvent>, id: int) returns (k: nat)
    ensures k <= |buffered| && Survivors(buffered, id) == buffered[k..]
    ensures forall i :: 0 <= i < k ==> buffered[i].final <= id
    ensures k < |buffered| ==> buffered[k].final > id
    decreases |buffered|
  {
    if buffered != [] && buffered[0].final <= id {
      var j := SurvivorsAreSuffix(buffered[1..], id);
      k := j + 1;
      assert buffered[1..][j..] == buffered[k..];
      assert forall i :: 1 <= i < |buffered| ==> buffered[i] == buffered[1..][i - 1];
    } else {
      k := 0;
    }
  }

  /** From event k on the buffer continues a snapshot at the id without a hole. */
  ghost predicate Continues(buffered: seq<DepthEvent>, k: nat, id: int)
    requires k <= |buffered|
  {
    && (k < |buffered| ==> buffered[k].first <= id + 1 <= buffered[k].final)
    && (forall i :: k < i < |buffered| ==> buffered[i].first == buffered[i - 1].final + 1)
  }

  lemma ContinuesIsReconciles(buffered: seq<DepthEvent>, k: nat, id: int)
    requires k <= |buffered|
    ensures Continues(buffered, k, id) <==> Reconciles(buffered[k..], id)
  {
    var es := buffered[k..];
    assert forall i :: k <= i < |buffered| ==> buffered[i] == es[i - k];
    if Contiguous(es) {
      forall i | k < i < |buffered| ensures buffered[i].first == buffered[i - 1].final + 1 {
        assert es[i - k].first == es[i - k - 1].final + 1;
      }
    }
  }

  /** The batch is the snapshot and then every buffered event from k on, each with its own levels and times. */
  ghost predicate IsBatch(out: seq<Stamped>, r: Reply, buffered: seq<DepthEvent>, k: nat, recv: int)
    requires r.Snapshot? && k <= |buffered|
  {
    && |out| == 1 + |buffered| - k
    && Holds(out[0], true, r.bids, r.asks, 0, recv, r.id, r.id)
    && forall i :: k <= i < |buffered| ==>
         var e := buffered[i];
         Holds(out[1 + i - k], false, e.bids, e.asks, e.ts, recv, e.first - 1, e.final)
  }

  /**
    A snapshot drops the leading events that end at or before it and is accepted exactly
    when the rest continue it. Then the snapshot and all of the rest are handed on and the
    position is the end of the last of them; otherwise nothing is, and the buffer is given up.
  */
  lemma SnapshotDelivers(s: State, r: Reply, recv: int) returns (k: nat)
    requires r.Snapshot?
    ensures k <= |s.buffered| && forall i :: 0 <= i < k ==> s.buffered[i].final <= r.id
    ensures k < |s.buffered| ==> s.buffered[k].final > r.id
    ensures var o := RestStep(s, r, recv);
            && (o.verdict == Ok <==> Continues(s.buffered, k, r.id))
            && (o.verdict == Ok ==>
                  && IsBatch(o.out, r, s.buffered, k, recv)
                  && o.state == State(s.maxBuffered, [], if k == |s.buffered| then r.id else s.buffered[|s.buffered| - 1].final, true))
            && (o.verdict != Ok ==> o.verdict == NeedsResync && o.out == [] && o.state == s.(buffered := []))
  {
    k := SurvivorsAreSuffix(s.buffered, r.id);
    ContinuesIsReconciles(s.buffered, k, r.id);
    SuffixIsBatch(r, s.buffered, k, recv);
  }

  lemma SuffixIsBatch(r: Reply, buffered: seq<DepthEvent>, k: nat, recv: int)
    requires r.Snapshot? && k <= |buffered|
    ensures IsBatch([SnapshotOf(r, recv)] + Replayed(buffered[k..], recv), r, buffered, k, recv)
  {
    var out := [SnapshotOf(r, recv)] + Replayed(buffered[k..], recv);
    forall i | k <= i < |buffered|
      ensures var e := buffered[i]; Holds(out[1 + i - k], false, e.bids, e.asks, e.ts, recv, e.first - 1, e.final)
    {
      assert out[1 + i - k] == StampedOf(buffered[i], recv);
    }
  }
}

/**
  The venue's side of the story: a history of absolute level changes, and what a
  truthful snapshot and a truthful event say about it.
*/
module BinanceVenue {
  import opened Levels
  import opened Feed
  import opened Sequencing
  import opened Binance

  /** Change k - 1 of a side lists the absolute level changes made by update id k. */
  datatype Changes = Changes(bids: seq<seq<Level>>, asks: seq<seq<Level>>)

  /** One side after the first k updates. */
  function SideAt(side: seq<seq<Level>>, k: nat): Depth
    requires k <= |side|
  {
    if k == 0 then map[] else ApplyLevels(SideAt(side, k - 1), side[k - 1])
  }

  predicate WellFormed(c: Changes) {
    |c.bids| == |c.asks|
  }

  /** The venue's book as a function of its update id; constant outside the history. */
  function BookAt(c: Changes, k: int): Book
    requires WellFormed(c)
  {
    var n := if k < 0 then 0 else if k > |c.bids| then |c.bids| else k;
    Book(SideAt(c.bids, n), SideAt(c.asks, n))
  }

  function HistoryOf(c: Changes): History
    requires WellFormed(c)
  {
    k => BookAt(c, k)
  }

  /** The price changes in some update lo..hi. */
  ghost predicate Touched(side: seq<seq<Level>>, lo: int, hi: int, p: int)
    requires 1 <= lo && hi <= |side|
  {
    exists j :: lo - 1 <= j < hi && LastAt(side[j], p).Some?
  }

  /**
    The levels of an event covering lo..hi: every price touched in the range is
    listed, and every listed price carries its quantity at hi.
  */
  ghost predicate GenuineSide(side: seq<seq<Level>>, ls: seq<Level>, lo: int, hi: int)
    requires 1 <= lo <= hi <= |side|
  {
    && (forall p :: Touched(side, lo, hi, p) ==> LastAt(ls, p).Some?)
    && (forall p :: LastAt(ls, p).Some? ==> LastAt(ls, p).value == QtyAt(SideAt(side, hi), p))
  }

  ghost predicate GenuineEvent(c: Changes, e: DepthEvent)
    requires WellFormed(c)
  {
    && 1 <= e.first <= e.final <= |c.bids|
    && GenuineSide(c.bids, e.bids, e.first, e.final)
    && GenuineSide(c.asks, e.asks, e.first, e.final)
  }

  /** A full-depth snapshot taken at its lastUpdateId. */
  ghost predicate GenuineReply(c: Changes, r: Reply)
    requires WellFormed(c)
  {
    r.Snapshot? ==>
      && 0 <= r.id <= |c.bids|
      && ApplyLevels(map[], r.bids) == SideAt(c.bids, r.id)
      && ApplyLevels(map[], r.asks) == SideAt(c.asks, r.id)
  }

  ghost predicate GenuineFrame(c: Changes, f: Frame)
    requires WellFormed(c)
  {
    f.Depth? ==> GenuineEvent(c, f.event)
  }

  // ----- an event may overlap what is already applied

  lemma {:induction false} NoZeroRests(side: seq<seq<Level>>, k: nat, p: int)
    requires k <= |side|
    ensures p in SideAt(side, k) ==> SideAt(side, k)[p] != 0
  {
    if k > 0 {
      NoZeroRests(side, k - 1, p);
      ApplyLevelsAt(SideAt(side, k - 1), side[k - 1], p);
    }
  }

  /** A price untouched in lo..hi rests unchanged from any id in lo-1..hi up to hi. */
  lemma {:induction false} UntouchedStays(side: seq<seq<Level>>, lo: int, hi: int, k: nat, p: int)
    requires 1 <= lo && lo - 1 <= k <= hi <= |side|
    requires !Touched(side, lo, hi, p)
    ensures p in SideAt(side, k) <==> p in SideAt(side, hi)
    ensures p in SideAt(side, k) ==> SideAt(side, k)[p] == SideAt(side, hi)[p]
    decreases hi - k
  {
    if k < hi {
      UntouchedStays(side, lo, hi, k + 1, p);
      assert LastAt(side[k], p).None?;
      ApplyLevelsAt(SideAt(side, k), side[k], p);
    }
  }

  /** Applied at any id from just before its range to its end, the event leads to its end. */
  lemma OverlapIsHarmless(side: seq<seq<Level>>, ls: seq<Level>, lo: int, hi: int, k: nat)
    requires 1 <= lo <= hi <= |side| && lo - 1 <= k <= hi
    requires GenuineSide(side, ls, lo, hi)
    ensures ApplyLevels(SideAt(side, k), ls) == SideAt(side, hi)
  {
    var x, y := ApplyLevels(SideAt(side, k), ls), SideAt(side, hi);
    forall p ensures (p in x <==> p in y) && (p in x ==> x[p] == y[p]) {
      ApplyLevelsAt(SideAt(side, k), ls, p);
      NoZeroRests(side, hi, p);
      if LastAt(ls, p).None? {
        UntouchedStays(side, lo, hi, k, p);
      }
    }
    assert x.Keys == y.Keys;
  }

  /** What a truthful event lists leads from the book before its range, and from any id in it, to its end. */
  lemma GenuineEventTells(c: Changes, e: DepthEvent)
    requires WellFormed(c) && GenuineEvent(c, e)
    ensures Tells(true, HistoryOf(c), false, e.bids, e.asks, e.first - 1, e.final)
  {
    var h := HistoryOf(c);
    forall k | e.first - 1 <= k < e.final ensures LeadTo(h(k), e.bids, e.asks, h(e.final)) {
      OverlapIsHarmless(c.bids, e.bids, e.first, e.final, k);
      OverlapIsHarmless(c.asks, e.asks, e.first, e.final, k);
    }
  }
}
