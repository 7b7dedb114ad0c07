/**
  OKX `books` (src/venues/okx.cc): a snapshot over the socket, then updates linked
  by seqId and prevSeqId, several of which may share a frame.
*/
module Okx {
  import opened Levels
  import opened Feed
  import opened Sequencing

  /** One element of a frame's data array; a field that is missing or malformed is None. */
  datatype DataEntry = DataEntry(
    seqId: Option<int>, prevSeqId: Option<int>, bids: Option<GatedLevels>, asks: Option<GatedLevels>, ts: int)

  datatype Frame =
    | Pong                     // the bare keepalive reply
    | Unparsable
    | Ack                      // an "event" other than an error
    | Rejected                 // an "event" reporting an error
    | NotForUs                 // no action, an unknown action, or another instrument
    | NoData                   // "data" is not an array
    | Books(isSnapshot: bool, data: seq<DataEntry>)

  datatype State = State(lastSeqId: int, hasSeq: bool, synced: bool)

  const FRESH := State(0, false, false)

  /** Continuing needs both a snapshot frame and a sequence number. */
  function Position(s: State): Option<int> {
    if s.synced && s.hasSeq then Some(s.lastSeqId) else None
  }

  /** The batch under construction while a frame's entries are read. */
  datatype Staging = Failed(verdict: Verdict) | Staged(out: seq<Stamped>, seqId: int, hasSeq: bool)

  function UpdateOf(isSnapshot: bool, e: DataEntry, recv: int): FeedUpdate
    requires e.bids.Some? && e.asks.Some?
  {
    FeedUpdate(isSnapshot, e.bids.value, e.asks.value, e.ts, recv)
  }

  /** One entry: continuity is judged before the no-change shortcut. */
  function StageEntry(synced: bool, isSnapshot: bool, g: Staging, e: DataEntry, recv: int): Staging
    requires g.Staged?
  {
    if e.seqId.None? then Failed(ParseError)
    else if !isSnapshot && e.prevSeqId.None? then Failed(ParseError)
    else if !isSnapshot && (!synced || !g.hasSeq || e.prevSeqId.value != g.seqId) then Failed(NeedsResync)
    else if !isSnapshot && e.prevSeqId == e.seqId then g
    else if e.bids.None? || e.asks.None? then Failed(ParseError)
    else
      var base := if isSnapshot then e.seqId.value else e.prevSeqId.value;
      Staged(g.out + [Stamped(UpdateOf(isSnapshot, e, recv), base, e.seqId.value)], e.seqId.value, true)
  }

  function StageAll(s: State, isSnapshot: bool, data: seq<DataEntry>, recv: int): Staging {
    if data == [] then Staged([], s.lastSeqId, s.hasSeq)
    else
      var g := StageAll(s, isSnapshot, data[..|data| - 1], recv);
      if g.Failed? then g else StageEntry(s.synced, isSnapshot, g, data[|data| - 1], recv)
  }

  function FrameStep(s: State, f: Frame, recv: int): Outcome<State> {
    match f
    case Pong => Outcome(s, Ok, [])
    case Unparsable => Outcome(s, ParseError, [])
    case Ack => Outcome(s, Ok, [])
    case Rejected => Outcome(s, Fatal, [])
    case NotForUs => Outcome(s, Ok, [])
    case NoData => Outcome(s, ParseError, [])
    case Books(isSnapshot, data) =>
      match StageAll(s, isSnapshot, data, recv)
      case Failed(v) => Outcome(s, v, [])
      case Staged(out, seqId, hasSeq) => Outcome(State(seqId, hasSeq, s.synced || isSnapshot), Ok, out)
  }

  /** A failure on one entry fails the frame, whatever follows. */
  lemma {:induction false} FailureSticks(s: State, isSnapshot: bool, data: seq<DataEntry>, n: nat, recv: int)
    requires n <= |data| && StageAll(s, isSnapshot, data[..n], recv).Failed?
    ensures StageAll(s, isSnapshot, data, recv) == StageAll(s, isSnapshot, data[..n], recv)
    decreases |data|
  {
    if n == |data| {
      assert data[..n] == data;
    } else {
      var front := data[..|data| - 1];
      assert front[..n] == data[..n];
      FailureSticks(s, isSnapshot, front, n, recv);
    }
  }

  class OkxProtocol {
    var staging: seq<FeedUpdate>
    var lastSeqId: int
    var hasSeq: bool
    var synced: bool

    function Now(): State
      reads this
    {
      State(lastSeqId, hasSeq, synced)
    }

    constructor ()
      ensures Now() == FRESH
    {
      staging, lastSeqId, hasSeq, synced := [], 0, false, false;
    }

    method Reset()
      modifies this
      ensures Now() == FRESH
    {
      staging := [];
      lastSeqId := 0;
      hasSeq := false;
      synced := false;
    }

    method OnFrame(f: Frame, recv: int, out0: seq<FeedUpdate>) returns (verdict: Verdict, out: seq<FeedUpdate>)
      modifies this
      ensures var o := FrameStep(old(Now()), f, recv);
              Now() == o.state && verdict == o.verdict && out == out0 + Updates(o.out)
      ensures old(Consistent(Now())) ==> Consistent(Now())
      ensures verdict != Ok ==> Now() == old(Now()) && out == out0
    {
      ghost var s := Now();
      if Consistent(s) {
        FrameAdvances(s, f, recv);
      }
      out := out0;
      if f.Pong? {
        return Ok, out;
      }
      if f.Unparsable? {
        return ParseError, out;
      }
      if f.Ack? {
        return Ok, out;
      }
      if f.Rejected? {
        return Fatal, out;
      }
      if f.NotForUs? {
        return Ok, out;
      }
      if f.NoData? {
        return ParseError, out;
      }
      staging := [];
      var nextSeqId, nextHasSeq;
      verdict, nextSeqId, nextHasSeq := StageEntries(f.isSnapshot, f.data, recv);
      if verdict != Ok {
        return verdict, out;
      }
      out := out + staging;
      staging := [];
      lastSeqId := nextSeqId;
      hasSeq := nextHasSeq;
      if f.isSnapshot {
        synced := true;
      }
    }

    /** The loop over a frame's entries. */
    method StageEntries(isSnapshot: bool, data: seq<DataEntry>, recv: int)
      returns (verdict: Verdict, nextSeqId: int, nextHasSeq: bool)
      requires staging == []
      modifies this`staging
      ensures match StageAll(Now(), isSnapshot, data, recv)
              case Failed(v) => verdict == v && v != Ok
              case Staged(out, seqId, has) =>
                verdict == Ok && staging == Updates(out) && nextSeqId == seqId && nextHasSeq == has
    {
      nextSeqId, nextHasSeq := lastSeqId, hasSeq;
      ghost var done: seq<Stamped> := [];
      for i := 0 to |data|
        invariant StageAll(Now(), isSnapshot, data[..i], recv) == Staged(done, nextSeqId, nextHasSeq)
        invariant staging == Updates(done)
      {
        var entry := data[i];
        assert data[..i + 1][..i] == data[..i];
        if StageAll(Now(), isSnapshot, data[..i + 1], recv).Failed? {
          FailureSticks(Now(), isSnapshot, data, i + 1, recv);
        }
        if entry.seqId.None? {
          return ParseError, nextSeqId, nextHasSeq;
        }
        var seqId := entry.seqId.value;
        if !isSnapshot {
          if entry.prevSeqId.None? {
            return ParseError, nextSeqId, nextHasSeq;
          }
          var prevSeqId := entry.prevSeqId.value;
          if !synced || !nextHasSeq {
            return NeedsResync, nextSeqId, nextHasSeq;
          }
          if prevSeqId != nextSeqId {
            return NeedsResync, nextSeqId, nextHasSeq;
          }
          if prevSeqId == seqId {
            continue;
          }
        }
        if entry.bids.None? {
          return ParseError, nextSeqId, nextHasSeq;
        }
        if entry.asks.None? {
          return ParseError, nextSeqId, nextHasSeq;
        }
        done := done + [Stamped(UpdateOf(isSnapshot, entry, recv),
                                if isSnapshot then seqId else entry.prevSeqId.value, seqId)];
        staging := staging + [UpdateOf(isSnapshot, entry, recv)];
        nextSeqId := seqId;
        nextHasSeq := true;
      }
      assert data[..|data|] == data;
      verdict := Ok;
    }
  }

  // ----- what a step keeps

  /** A sequence number is only held once a snapshot frame was seen. */
  predicate Consistent(s: State) {
    s.hasSeq ==> s.synced
  }

  /** A staged batch is contiguous and ends at the staged sequence number. */
  lemma {:induction false} StagedAdvances(s: State, isSnapshot: bool, data: seq<DataEntry>, recv: int)
    requires Consistent(s)
    ensures var g := StageAll(s, isSnapshot, data, recv);
            g.Staged? ==>
              && Advances(false, Position(s), g.out, if g.hasSeq then Some(g.seqId) else None)
              && (g.hasSeq ==> isSnapshot || s.synced)
  {
    if data != [] {
      StagedAdvances(s, isSnapshot, data[..|data| - 1], recv);
    }
  }

  /**
    After any frame the protocol is where its last emission left it; a frame that
    is not accepted changes nothing and emits nothing.
  */
  lemma FrameAdvances(s: State, f: Frame, recv: int)
    requires Consistent(s)
    ensures var o := FrameStep(s, f, recv);
            && Consistent(o.state)
            && Advances(false, Position(s), o.out, Position(o.state))
            && (o.verdict != Ok ==> o.out == [] && o.state == s)
  {
    if f.Books? {
      StagedAdvances(s, f.isSnapshot, f.data, recv);
    }
  }

  /** Where the entries of an update frame leave the sequence. */
  function LastSeq(pos: Option<int>, data: seq<DataEntry>): Option<int> {
    if data == [] then pos else data[|data| - 1].seqId
  }

  /** A no-change entry: it continues from its own sequence number. */
  predicate Heartbeat(e: DataEntry) {
    e.seqId.Some? && e.prevSeqId == e.seqId
  }

  lemma StagedPosition(s: State, data: seq<DataEntry>, recv: int)
    ensures var g := StageAll(s, false, data, recv);
            g.Staged? ==> LastSeq(Position(s), data) == if s.synced && g.hasSeq then Some(g.seqId) else None
  {
  }

  /** What follows in a frame depends only on what was staged before. */
  lemma {:induction false} SameStaging(s: State, isSnapshot: bool, a: seq<DataEntry>, b: seq<DataEntry>, t: seq<DataEntry>, recv: int)
    requires StageAll(s, isSnapshot, a, recv) == StageAll(s, isSnapshot, b, recv)
    ensures StageAll(s, isSnapshot, a + t, recv) == StageAll(s, isSnapshot, b + t, recv)
    decreases |t|
  {
    if t == [] {
      assert a + t == a && b + t == b;
    } else {
      var n := |t| - 1;
      assert (a + t)[..|a| + n] == a + t[..n] && (b + t)[..|b| + n] == b + t[..n];
      SameStaging(s, isSnapshot, a, b, t[..n], recv);
    }
  }

  /** A no-change entry at the current position, anywhere in a frame, might as well not be there. */
  lemma HeartbeatLeavesPosition(s: State, data: seq<DataEntry>, n: nat, recv: int)
    requires n < |data| && Heartbeat(data[n]) && data[n].seqId == LastSeq(Position(s), data[..n])
    ensures FrameStep(s, Books(false, data), recv) == FrameStep(s, Books(false, data[..n] + data[n + 1..]), recv)
  {
    var front, here := data[..n], data[..n + 1];
    assert here[..n] == front && here[n] == data[n];
    StagedPosition(s, front, recv);
    assert StageAll(s, false, here, recv) == StageAll(s, false, front, recv);
    assert here + data[n + 1..] == data;
    SameStaging(s, false, here, front, data[n + 1..], recv);
  }

  /**
    After a gap even a no-change entry is refused, wherever it stands: the frame emits
    nothing and moves nothing, and it asks for a resync unless an earlier entry failed.
  */
  lemma HeartbeatCannotHideGap(s: State, data: seq<DataEntry>, n: nat, recv: int)
    requires n < |data| && Heartbeat(data[n]) && data[n].seqId != LastSeq(Position(s), data[..n])
    ensures var o := FrameStep(s, Books(false, data), recv);
            && o.verdict != Ok && o.out == [] && o.state == s
            && (FrameStep(s, Books(false, data[..n]), recv).verdict == Ok ==> o.verdict == NeedsResync)
  {
    var front, here := data[..n], data[..n + 1];
    assert here[..n] == front && here[n] == data[n];
    StagedPosition(s, front, recv);
    assert StageAll(s, false, here, recv).Failed?;
    FailureSticks(s, false, data, n + 1, recv);
    FailuresAreRefusals(s, false, data, recv);
  }

  lemma {:induction false} FailuresAreRefusals(s: State, isSnapshot: bool, data: seq<DataEntry>, recv: int)
    ensures var g := StageAll(s, isSnapshot, data, recv); g.Failed? ==> g.verdict != Ok && g.verdict != Fatal
  {
    if data != [] {
      FailuresAreRefusals(s, isSnapshot, data[..|data| - 1], recv);
    }
  }

  // ----- what a frame delivers

  /** Frames that carry no book: a rejection is fatal, a malformed one is refused, the rest are ignored. */
  lemma OtherFramesDeliverNothing(s: State, f: Frame, recv: int)
    requires !f.Books?
    ensures var o := FrameStep(s, f, recv);
            && o.state == s && o.out == []
            && (o.verdict == Fatal <==> f.Rejected?)
            && (o.verdict == ParseError <==> f.Unparsable? || f.NoData?)
            && o.verdict != NeedsResync
  {
  }

  /** The entry changes the book: every snapshot entry, and an update that is not a no-change one. */
  predicate Changes(isSnapshot: bool, e: DataEntry) {
    isSnapshot || !Heartbeat(e)
  }

  /** The entry has all that is needed of it. */
  predicate Complete(isSnapshot: bool, e: DataEntry) {
    e.seqId.Some? && (Changes(isSnapshot, e) ==> e.bids.Some? && e.asks.Some?)
  }

  ghost predicate AllComplete(isSnapshot: bool, data: seq<DataEntry>) {
    forall i :: 0 <= i < |data| ==> Complete(isSnapshot, data[i])
  }

  /** The entry continues a sequence number. */
  predicate Extends(pos: Option<int>, e: DataEntry) {
    pos.Some? && e.prevSeqId == pos
  }

  /** Each update continues the entry before it, the first one the position. */
  ghost predicate Linked(pos: Option<int>, data: seq<DataEntry>) {
    forall i :: 0 <= i < |data| ==> Extends(LastSeq(pos, data[..i]), data[i])
  }

  /** A frame of entries is acceptable at a position. */
  ghost predicate Acceptable(pos: Option<int>, isSnapshot: bool, data: seq<DataEntry>) {
    AllComplete(isSnapshot, data) && (isSnapshot || Linked(pos, data))
  }

  /** The next entry is complete and, in an update, continues what came before. */
  predicate NextAcceptable(pos: Option<int>, isSnapshot: bool, front: seq<DataEntry>, e: DataEntry) {
    Complete(isSnapshot, e) && (isSnapshot || Extends(LastSeq(pos, front), e))
  }

  lemma LinkedFront(pos: Option<int>, data: seq<DataEntry>)
    requires data != []
    ensures var n := |data| - 1;
            Linked(pos, data) <==> Linked(pos, data[..n]) && Extends(LastSeq(pos, data[..n]), data[n])
  {
    var n := |data| - 1;
    assert forall i :: 0 <= i < n ==> data[..n][i] == data[i] && data[..n][..i] == data[..i];
  }

  lemma AcceptableFront(pos: Option<int>, isSnapshot: bool, data: seq<DataEntry>)
    requires data != []
    ensures var n := |data| - 1;
            Acceptable(pos, isSnapshot, data) <==>
            Acceptable(pos, isSnapshot, data[..n]) && NextAcceptable(pos, isSnapshot, data[..n], data[n])
  {
    var n := |data| - 1;
    LinkedFront(pos, data);
    CompleteFront(isSnapshot, data);
  }

  lemma CompleteFront(isSnapshot: bool, data: seq<DataEntry>)
    requires data != []
    ensures var n := |data| - 1;
            AllComplete(isSnapshot, data) <==> AllComplete(isSnapshot, data[..n]) && Complete(isSnapshot, data[n])
  {
    assert forall i :: 0 <= i < |data| - 1 ==> data[..|data| - 1][i] == data[i];
  }

  /** The entries that change the book, in order. */
  function Changing(isSnapshot: bool, data: seq<DataEntry>): seq<DataEntry> {
    if data == [] then []
    else
      var front, e := Changing(isSnapshot, data[..|data| - 1]), data[|data| - 1];
      if Changes(isSnapshot, e) then front + [e] else front
  }

  /** The updates are the entries, each with its own levels, time and numbers. */
  ghost predicate AreEntries(out: seq<Stamped>, isSnapshot: bool, es: seq<DataEntry>, recv: int) {
    |out| == |es| && forall i :: 0 <= i < |es| ==> IsEntry(out[i], isSnapshot, es[i], recv)
  }

  ghost predicate IsEntry(d: Stamped, isSnapshot: bool, e: DataEntry, recv: int) {
    && e.bids.Some? && e.asks.Some? && e.seqId.Some? && (isSnapshot || e.prevSeqId.Some?)
    && Holds(d, isSnapshot, e.bids.value, e.asks.value, e.ts, recv,
             if isSnapshot then e.seqId.value else e.prevSeqId.value, e.seqId.value)
  }

  /** What has been staged, and where it stands. */
  ghost predicate IsStaged(g: Staging, s: State, isSnapshot: bool, data: seq<DataEntry>, recv: int) {
    && g.Staged? && AreEntries(g.out, isSnapshot, Changing(isSnapshot, data), recv)
    && (if data == [] then g.seqId == s.lastSeqId && g.hasSeq == s.hasSeq
        else g.hasSeq && Some(g.seqId) == data[|data| - 1].seqId)
  }

  /** One entry more is staged exactly when it is complete and continues what was staged. */
  lemma StageEntryIff(s: State, isSnapshot: bool, data: seq<DataEntry>, g: Staging, recv: int)
    requires Consistent(s) && data != [] && IsStaged(g, s, isSnapshot, data[..|data| - 1], recv)
    requires !isSnapshot && |data| > 1 ==> s.synced
    ensures var n, g' := |data| - 1, StageEntry(s.synced, isSnapshot, g, data[|data| - 1], recv);
            && (g'.Staged? <==> NextAcceptable(Position(s), isSnapshot, data[..n], data[n]))
            && (g'.Staged? ==> IsStaged(g', s, isSnapshot, data, recv) && (isSnapshot || s.synced))
  {
  }

  lemma {:induction false} StageAllIff(s: State, isSnapshot: bool, data: seq<DataEntry>, recv: int)
    requires Consistent(s)
    ensures var g := StageAll(s, isSnapshot, data, recv);
            && (g.Staged? <==> Acceptable(Position(s), isSnapshot, data))
            && (g.Staged? ==> IsStaged(g, s, isSnapshot, data, recv) && (isSnapshot || data == [] || s.synced))
  {
    if data != [] {
      var n := |data| - 1;
      StageAllIff(s, isSnapshot, data[..n], recv);
      AcceptableFront(Position(s), isSnapshot, data);
      var g := StageAll(s, isSnapshot, data[..n], recv);
      if g.Staged? {
        StageEntryIff(s, isSnapshot, data, g, recv);
      }
    }
  }

  /**
    A frame of entries is accepted exactly when each is complete and, in an update, each
    continues the one before it and the first the position. Then every entry that changes
    the book is handed on, in order and with its own levels, time and numbers, and the
    position is the last entry's. A refused frame changes nothing.
  */
  lemma BooksDeliver(s: State, isSnapshot: bool, data: seq<DataEntry>, recv: int)
    requires Consistent(s)
    ensures var o := FrameStep(s, Books(isSnapshot, data), recv);
            && (o.verdict == Ok <==> Acceptable(Position(s), isSnapshot, data))
            && (o.verdict != Ok ==> o.verdict != Fatal && o.out == [] && o.state == s)
            && (o.verdict == Ok ==>
                  && AreEntries(o.out, isSnapshot, Changing(isSnapshot, data), recv)
                  && Position(o.state) == LastSeq(Position(s), data)
                  && o.state.synced == (s.synced || isSnapshot))
  {
    StageAllIff(s, isSnapshot, data, recv);
    FailuresAreRefusals(s, isSnapshot, data, recv);
  }
}

/**
  Bybit spot order book (src/venues/bybit.cc): a snapshot over the socket, deltas
  numbered one by one, and a fresh snapshot at any time.
*/
module Bybit {
  import opened Levels
  import opened Feed
  import opened Sequencing

  datatype Frame =
    | Unparsable
    | Ack                      // no topic, and not reporting failure
    | Rejected                 // no topic, success is false
    | NotForUs                 // another topic, or a type that is neither snapshot nor delta
    | NoType
    | NoData
    | OrderBook(isSnapshot: bool, u: Option<int>, bids: Option<GatedLevels>, asks: Option<GatedLevels>, ts: int)

  datatype State = State(lastUpdateId: int, synced: bool)

  const FRESH := State(0, false)

  function Position(s: State): Option<int> {
    if s.synced then Some(s.lastUpdateId) else None
  }

  function StampedOf(f: Frame, recv: int): Stamped
    requires f.OrderBook? && f.u.Some? && f.bids.Some? && f.asks.Some?
  {
    Stamped(FeedUpdate(f.isSnapshot, f.bids.value, f.asks.value, f.ts, recv),
            if f.isSnapshot then f.u.value else f.u.value - 1, f.u.value)
  }

  function FrameStep(s: State, f: Frame, recv: int): Outcome<State> {
    match f
    case Unparsable => Outcome(s, ParseError, [])
    case Ack => Outcome(s, Ok, [])
    case Rejected => Outcome(s, Fatal, [])
    case NotForUs => Outcome(s, Ok, [])
    case NoType => Outcome(s, ParseError, [])
    case NoData => Outcome(s, ParseError, [])
    case OrderBook(isSnapshot, u, bids, asks, ts) =>
      if u.None? then Outcome(s, ParseError, [])
      else if !isSnapshot && (!s.synced || u.value != s.lastUpdateId + 1) then Outcome(s, NeedsResync, [])
      else if bids.None? || asks.None? then Outcome(s, ParseError, [])
      else Outcome(State(u.value, s.synced || isSnapshot), Ok, [StampedOf(f, recv)])
  }

  class BybitProtocol {
    var staging: seq<FeedUpdate>
    var lastUpdateId: int
    var synced: bool

    function Now(): State
      reads this
    {
      State(lastUpdateId, synced)
    }

    constructor ()
      ensures Now() == FRESH
    {
      staging, lastUpdateId, synced := [], 0, false;
    }

    method Reset()
      modifies this
      ensures Now() == FRESH
    {
      staging := [];
      lastUpdateId := 0;
      synced := false;
    }

    method OnFrame(f: Frame, recv: int, out0: seq<FeedUpdate>) returns (verdict: Verdict, out: seq<FeedUpdate>)
      modifies this`lastUpdateId, this`synced
      ensures var o := FrameStep(old(Now()), f, recv);
              Now() == o.state && verdict == o.verdict && out == out0 + Updates(o.out)
      ensures verdict != Ok ==> Now() == old(Now()) && out == out0
      ensures out != out0 ==> f.OrderBook? && Position(Now()) == f.u &&
                              (f.isSnapshot || old(Position(Now())) == Some(f.u.value - 1))
    {
      out := out0;
      if f.Unparsable? {
        return ParseError, out;
      }
      if f.Rejected? {
        return Fatal, out;
      }
      if f.Ack? || f.NotForUs? {
        return Ok, out;
      }
      if f.NoType? || f.NoData? {
        return ParseError, out;
      }
      if f.u.None? {
        return ParseError, out;
      }
      var updateId := f.u.value;
      if !f.isSnapshot {
        if !synced {
          return NeedsResync, out;
        }
        if updateId != lastUpdateId + 1 {
          return NeedsResync, out;
        }
      }
      if f.bids.None? || f.asks.None? {
        return ParseError, out;
      }
      out := out + [FeedUpdate(f.isSnapshot, f.bids.value, f.asks.value, f.ts, recv)];
      lastUpdateId := updateId;
      if f.isSnapshot {
        synced := true;
      }
      verdict := Ok;
    }
  }

  /**
    After any frame the protocol is where its last emission left it; a frame that
    is not accepted changes nothing and emits nothing.
  */
  lemma FrameAdvances(s: State, f: Frame, recv: int)
    ensures var o := FrameStep(s, f, recv);
            && Advances(false, Position(s), o.out, Position(o.state))
            && (o.verdict != Ok ==> o.out == [] && o.state == s)
  {
  }

  // ----- what a frame delivers

  /** Frames that carry no book: a rejection is fatal, a malformed one is refused, the rest are ignored. */
  lemma OtherFramesDeliverNothing(s: State, f: Frame, recv: int)
    requires !f.OrderBook?
    ensures var o := FrameStep(s, f, recv);
            && o.state == s && o.out == []
            && (o.verdict == Fatal <==> f.Rejected?)
            && (o.verdict == ParseError <==> f.Unparsable? || f.NoType? || f.NoData?)
            && o.verdict != NeedsResync
  {
  }

  predicate Complete(f: Frame) {
    f.OrderBook? && f.u.Some? && f.bids.Some? && f.asks.Some?
  }

  /** The update is the frame, with its own levels, time and number. */
  ghost predicate IsFrame(d: Stamped, f: Frame, recv: int) {
    && Complete(f)
    && Holds(d, f.isSnapshot, f.bids.value, f.asks.value, f.ts, recv, if f.isSnapshot then f.u.value else f.u.value - 1, f.u.value)
  }

  /**
    A book frame is accepted exactly when it is complete and is a snapshot or comes right
    after the last one. Then it is handed on as it is and the position is its number; a
    refused frame changes nothing.
  */
  lemma BookDelivers(s: State, f: Frame, recv: int)
    requires f.OrderBook?
    ensures var o := FrameStep(s, f, recv);
            && (o.verdict == Ok <==> Complete(f) && (f.isSnapshot || Position(s) == Some(f.u.value - 1)))
            && (o.verdict != Ok ==> o.verdict != Fatal && o.out == [] && o.state == s)
            && (o.verdict == Ok ==> |o.out| == 1 && IsFrame(o.out[0], f, recv) && Position(o.state) == f.u)
  {
  }
}
