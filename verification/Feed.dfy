/**
  Feed updates, the books they fold into, and what it means for a stream of
  updates to be free of silent gaps (src/venues/venue.h, src/core/book.cc).
*/
module Feed {
  import opened Levels
  import opened SideBooks

  /** One change of a venue's book: a snapshot replaces it, a delta amends it. */
  datatype FeedUpdate = FeedUpdate(isSnapshot: bool, bids: GatedLevels, asks: GatedLevels, exchangeTs: int, recvTs: int)

  /** Both sides of a venue's book as maps. */
  datatype Book = Book(bids: Depth, asks: Depth)

  const EMPTY := Book(map[], map[])

  /** What a protocol says about one frame. */
  datatype Verdict = Ok | NeedsResync | ParseError | Fatal

  /** The effect of one update on a book. */
  function ApplyUpdate(b: Book, u: FeedUpdate): Book {
    if u.isSnapshot then Book(ApplyLevels(map[], u.bids), ApplyLevels(map[], u.asks))
    else Book(ApplyLevels(b.bids, u.bids), ApplyLevels(b.asks, u.asks))
  }

  /** The effect of a list of updates. */
  function Folded(b: Book, us: seq<FeedUpdate>): Book {
    if us == [] then b else ApplyUpdate(Folded(b, us[..|us| - 1]), us[|us| - 1])
  }

  /** One venue's book: two sorted vectors. */
  class VenueBook {
    const bids: SideBook
    const asks: SideBook

    ghost predicate Valid()
      reads this, bids, asks
    {
      bids != asks && bids.desc && !asks.desc && bids.Valid() && asks.Valid()
    }

    ghost function Contents(): Book
      reads this, bids, asks
    {
      Book(bids.Depth(), asks.Depth())
    }

    constructor ()
      ensures Valid() && Contents() == EMPTY && fresh(bids) && fresh(asks)
    {
      bids := new SideBook(true);
      asks := new SideBook(false);
    }

    /** A snapshot replaces both sides; a delta is a batch of changes on each. */
    method ApplyFeedUpdate(u: FeedUpdate)
      requires Valid()
      modifies bids, asks
      ensures Valid()
      ensures Contents() == ApplyUpdate(old(Contents()), u)
    {
      if u.isSnapshot {
        bids.Replace(u.bids);
        asks.Replace(u.asks);
      } else {
        bids.ApplyBatch(u.bids);
        asks.ApplyBatch(u.asks);
      }
    }

    /** The engine's fold of one popped batch (src/aggregator/engine.cc). */
    method ApplyAll(us: seq<FeedUpdate>)
      requires Valid()
      modifies bids, asks
      ensures Valid()
      ensures Contents() == Folded(old(Contents()), us)
    {
      for n := 0 to |us|
        invariant Valid()
        invariant Contents() == Folded(old(Contents()), us[..n])
      {
        assert us[..n + 1][..n] == us[..n];
        ApplyFeedUpdate(us[n]);
      }
      assert us[..|us|] == us;
    }
  }
}

/**
  Streams of updates with the venue's own ids attached. The program does not carry
  the ids past the protocols; they are kept here to say what a gap is.
*/
module Sequencing {
  import opened Levels
  import opened Feed

  /**
    An emitted update and where it stands in the venue's numbering: `base` is the
    id of the state it amends, `id` the id of the state it leads to.
  */
  datatype Stamped = Stamped(update: FeedUpdate, base: int, id: int)

  /** What a protocol did with one input. */
  datatype Outcome<S> = Outcome(state: S, verdict: Verdict, out: seq<Stamped>)

  /** A log of a feed: updates handed on, and points where continuity was given up. */
  datatype Entry = Up(s: Stamped) | Cut

  /**
    The delta continues the previous update. A venue seeded over REST may also
    overlap the snapshot it follows: the first event only has to straddle it.
  */
  predicate Follows(straddle: bool, prev: Stamped, d: Stamped) {
    || d.base == prev.id
    || (straddle && prev.update.isSnapshot && d.base <= prev.id < d.id)
  }

  /** No delta without a directly preceding update that it continues. */
  ghost predicate Chained(straddle: bool, log: seq<Entry>) {
    forall i :: 0 <= i < |log| && log[i].Up? && !log[i].s.update.isSnapshot ==>
      i > 0 && log[i - 1].Up? && Follows(straddle, log[i - 1].s, log[i].s)
  }

  /** The position a protocol would continue from is that of the last logged update. */
  ghost predicate Tracks(pos: Option<int>, log: seq<Entry>) {
    pos.Some? ==> log != [] && log[|log| - 1].Up? && log[|log| - 1].s.id == pos.value
  }

  function Ups(out: seq<Stamped>): (r: seq<Entry>)
    ensures |r| == |out| && forall i :: 0 <= i < |out| ==> r[i] == Up(out[i])
  {
    seq(|out|, i requires 0 <= i < |out| => Up(out[i]))
  }

  function Updates(out: seq<Stamped>): (r: seq<FeedUpdate>)
    ensures |r| == |out| && forall i :: 0 <= i < |out| ==> r[i] == out[i].update
  {
    seq(|out|, i requires 0 <= i < |out| => out[i].update)
  }

  /**
    The contract every protocol step meets: from a position, it emits a contiguous
    run that starts at the position or with a snapshot, and ends at the new one.
  */
  ghost predicate Advances(straddle: bool, pos: Option<int>, out: seq<Stamped>, pos': Option<int>) {
    && (forall i :: 0 < i < |out| && !out[i].update.isSnapshot ==> Follows(straddle, out[i - 1], out[i]))
    && (|out| > 0 && !out[0].update.isSnapshot ==> pos == Some(out[0].base))
    && (|out| > 0 ==> pos' == Some(out[|out| - 1].id))
    && (|out| == 0 ==> pos' == pos)
  }

  /** A contiguous run keeps the log free of gaps and its end tracked. */
  lemma AdvanceKeepsChain(straddle: bool, log: seq<Entry>, pos: Option<int>, out: seq<Stamped>, pos': Option<int>)
    requires Chained(straddle, log) && Tracks(pos, log)
    requires Advances(straddle, pos, out, pos')
    ensures Chained(straddle, log + Ups(out)) && Tracks(pos', log + Ups(out))
  {
  }

  /** Giving up continuity leaves no gap behind. */
  lemma CutKeepsChain(straddle: bool, log: seq<Entry>)
    requires Chained(straddle, log)
    ensures Chained(straddle, log + [Cut])
  {
  }

  // ----- comparison with the venue's own book

  /** The venue's own book after each of its ids. */
  type History = int -> Book

  /** The listed quantities lead from one book to the other, bids to bids and asks to asks. */
  ghost predicate LeadTo(before: Book, bids: seq<Level>, asks: seq<Level>, after: Book) {
    after.bids == ApplyLevels(before.bids, bids) && after.asks == ApplyLevels(before.asks, asks)
  }

  /**
    Listed bids and asks that tell the truth about the venue's history: a snapshot lists
    the book at its id, a delta leads there from its base and, where it may straddle,
    from every id in between.
  */
  ghost predicate Tells(straddle: bool, h: History, isSnapshot: bool, bids: seq<Level>, asks: seq<Level>, base: int, id: int) {
    if isSnapshot then LeadTo(EMPTY, bids, asks, h(id))
    else
      && LeadTo(h(base), bids, asks, h(id))
      && (straddle ==> forall k :: base <= k < id ==> LeadTo(h(k), bids, asks, h(id)))
  }

  /** An update that tells the truth about the venue's history. */
  ghost predicate Genuine(straddle: bool, h: History, d: Stamped) {
    Tells(straddle, h, d.update.isSnapshot, d.update.bids, d.update.asks, d.base, d.id)
  }

  /** The update holds the given lists and times and stands at the given ids. */
  predicate Holds(d: Stamped, isSnapshot: bool, bids: seq<Level>, asks: seq<Level>, ts: int, recv: int, base: int, id: int) {
    && d.update.isSnapshot == isSnapshot && d.update.bids == bids && d.update.asks == asks
    && d.update.exchangeTs == ts && d.update.recvTs == recv
    && d.base == base && d.id == id
  }

  /** Every update from entry k of the log on is genuine. */
  ghost predicate GenuineFrom(straddle: bool, h: History, log: seq<Entry>, k: nat) {
    forall i :: k <= i < |log| && log[i].Up? ==> Genuine(straddle, h, log[i].s)
  }

  /** No snapshot comes after entry i. */
  ghost predicate NoneAfter(log: seq<Entry>, i: int) {
    forall j :: 0 <= i < j < |log| && log[j].Up? ==> !log[j].s.update.isSnapshot
  }

  /** The last snapshot and everything behind it are genuine; what came earlier need not be. */
  ghost predicate LastBlockGenuine(straddle: bool, h: History, log: seq<Entry>) {
    forall i :: 0 <= i < |log| && log[i].Up? && NoneAfter(log, i) ==> Genuine(straddle, h, log[i].s)
  }

  /** Some snapshot was logged at or behind entry k. */
  ghost predicate SnapshotSince(log: seq<Entry>, k: nat) {
    exists i :: k <= i < |log| && log[i].Up? && log[i].s.update.isSnapshot
  }

  lemma GenuineSinceSnapshot(straddle: bool, h: History, log: seq<Entry>, k: nat)
    requires GenuineFrom(straddle, h, log, k) && SnapshotSince(log, k)
    ensures LastBlockGenuine(straddle, h, log)
  {
    var n :| k <= n < |log| && log[n].Up? && log[n].s.update.isSnapshot;
    forall i | 0 <= i < |log| && log[i].Up? && NoneAfter(log, i) ensures Genuine(straddle, h, log[i].s) {
      assert i >= n;
    }
  }

  /** A log that starts with a snapshot has one in it as soon as it keeps any update. */
  lemma {:induction false} StartsWithSnapshot(straddle: bool, log: seq<Entry>)
    requires Chained(straddle, log) && Kept(log) != []
    ensures SnapshotSince(log, 0)
  {
    var n, front := |log| - 1, log[..|log| - 1];
    if !(log[n].Up? && log[n].s.update.isSnapshot) {
      ChainedPrefix(straddle, log, n);
      StartsWithSnapshot(straddle, front);
      var i :| 0 <= i < |front| && front[i].Up? && front[i].s.update.isSnapshot;
      assert log[i].Up? && log[i].s.update.isSnapshot;
    }
  }

  lemma ChainedPrefix(straddle: bool, log: seq<Entry>, n: nat)
    requires Chained(straddle, log) && n <= |log|
    ensures Chained(straddle, log[..n])
  {
    assert forall i :: 0 <= i < n ==> log[..n][i] == log[i];
  }

  /** The updates of a log, without its cuts. */
  function Kept(log: seq<Entry>): seq<Stamped> {
    if log == [] then []
    else if log[|log| - 1].Up? then Kept(log[..|log| - 1]) + [log[|log| - 1].s]
    else Kept(log[..|log| - 1])
  }

  lemma {:induction false} KeptConcat(a: seq<Entry>, b: seq<Entry>)
    ensures Kept(a + b) == Kept(a) + Kept(b)
    decreases |b|
  {
    if b == [] {
      assert a + b == a;
    } else {
      var c := a + b;
      assert c[..|c| - 1] == a + b[..|b| - 1];
      KeptConcat(a, b[..|b| - 1]);
    }
  }

  lemma KeptCut(log: seq<Entry>)
    ensures Kept(log + [Cut]) == Kept(log)
  {
    assert (log + [Cut])[..|log|] == log;
  }

  lemma {:induction false} KeptUps(out: seq<Stamped>)
    ensures Kept(Ups(out)) == out
  {
    if out != [] {
      var n := |out| - 1;
      KeptUps(out[..n]);
      assert Ups(out)[..n] == Ups(out[..n]);
    }
  }

  /** Blocks: each delta directly follows an update it continues; nothing starts with a delta. */
  ghost predicate InBlocks(straddle: bool, us: seq<Stamped>) {
    forall i :: 0 <= i < |us| && !us[i].update.isSnapshot ==> i > 0 && Follows(straddle, us[i - 1], us[i])
  }

  lemma {:induction false} ChainedIsInBlocks(straddle: bool, log: seq<Entry>)
    requires Chained(straddle, log)
    ensures InBlocks(straddle, Kept(log))
    ensures log != [] && log[|log| - 1].Up? ==> Kept(log) != [] && Kept(log)[|Kept(log)| - 1] == log[|log| - 1].s
  {
    if log != [] {
      var front := log[..|log| - 1];
      assert Chained(straddle, front) by { assert forall i :: 0 <= i < |front| ==> front[i] == log[i]; }
      ChainedIsInBlocks(straddle, front);
      if log[|log| - 1].Up? && !log[|log| - 1].s.update.isSnapshot {
        assert front[|front| - 1] == log[|log| - 2];
      }
    }
  }

  /** What a growing log keeps beyond a point where it was genuine is genuine. */
  lemma {:induction false} KeptGenuine(straddle: bool, h: History, log0: seq<Entry>, log: seq<Entry>)
    requires log0 <= log && GenuineFrom(straddle, h, log, |log0|)
    ensures |Kept(log0)| <= |Kept(log)|
    ensures forall i :: |Kept(log0)| <= i < |Kept(log)| ==> Genuine(straddle, h, Kept(log)[i])
    decreases |log|
  {
    if |log0| < |log| {
      var front := log[..|log| - 1];
      assert GenuineFrom(straddle, h, front, |log0|) by {
        assert forall i :: 0 <= i < |front| ==> front[i] == log[i];
      }
      KeptGenuine(straddle, h, log0, front);
    } else {
      assert log0 == log;
    }
  }

  /** A log's last entry aside, its last block is genuine unless that entry opens a new one. */
  lemma LastBlockFront(straddle: bool, h: History, log: seq<Entry>)
    requires log != [] && LastBlockGenuine(straddle, h, log)
    requires log[|log| - 1].Up? ==> !log[|log| - 1].s.update.isSnapshot
    ensures LastBlockGenuine(straddle, h, log[..|log| - 1])
  {
    var front := log[..|log| - 1];
    forall i | 0 <= i < |front| && front[i].Up? && NoneAfter(front, i) ensures Genuine(straddle, h, front[i].s) {
      forall j | i < j < |log| && log[j].Up? ensures !log[j].s.update.isSnapshot {
        assert j < |front| ==> front[j] == log[j];
      }
      assert NoneAfter(log, i) && log[i] == front[i];
    }
  }

  /**
    A gap-free log folds to the venue's own book at the id of its last update,
    whatever was cut out on the way, as soon as the last snapshot in it and the
    updates behind that are genuine. Nothing is asked of what came before: the venue
    may have numbered it differently.
  */
  lemma {:induction false} GapFreeFoldIsVenueBook(straddle: bool, h: History, log: seq<Entry>)
    requires Chained(straddle, log) && LastBlockGenuine(straddle, h, log)
    ensures var k := Kept(log);
            k != [] ==> Folded(EMPTY, Updates(k)) == h(k[|k| - 1].id)
  {
    if log != [] {
      var n, front := |log| - 1, log[..|log| - 1];
      if log[n].Up? && log[n].s.update.isSnapshot {
        FoldPush(Kept(front), log[n].s);
        assert NoneAfter(log, n);
      } else {
        ChainedPrefix(straddle, log, n);
        LastBlockFront(straddle, h, log);
        GapFreeFoldIsVenueBook(straddle, h, front);
        if log[n].Up? {
          DeltaContinues(straddle, h, log);
        }
      }
    }
  }

  lemma FoldPush(us: seq<Stamped>, d: Stamped)
    ensures Folded(EMPTY, Updates(us + [d])) == ApplyUpdate(Folded(EMPTY, Updates(us)), d.update)
  {
    assert Updates(us + [d])[..|us|] == Updates(us);
  }

  /** A genuine delta takes the book at the previous entry's id to the book at its own. */
  lemma DeltaContinues(straddle: bool, h: History, log: seq<Entry>)
    requires Chained(straddle, log) && LastBlockGenuine(straddle, h, log)
    requires log != [] && log[|log| - 1].Up? && !log[|log| - 1].s.update.isSnapshot
    requires var k := Kept(log[..|log| - 1]); k != [] ==> Folded(EMPTY, Updates(k)) == h(k[|k| - 1].id)
    ensures Folded(EMPTY, Updates(Kept(log))) == h(log[|log| - 1].s.id)
  {
    var n, front := |log| - 1, log[..|log| - 1];
    ChainedPrefix(straddle, log, n);
    ChainedIsInBlocks(straddle, front);
    FoldPush(Kept(front), log[n].s);
    assert front[n - 1] == log[n - 1];
    assert NoneAfter(log, n);
  }
}
