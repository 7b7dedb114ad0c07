/**
  Runs of the two protocols that are seeded over the socket: a snapshot and the
  updates that continue it are accepted from beginning to end.
*/
module SocketRuns {
  import opened Levels
  import opened Feed
  import opened Sequencing
  import opened Venues
  import Okx
  import Bybit

  // ----- OKX

  /** A snapshot frame and the update frames behind it. */
  ghost function OkxStream(snap: seq<Okx.DataEntry>, ds: seq<seq<Okx.DataEntry>>, recv: int): seq<Input> {
    if ds == [] then [Deliver(OkxFrame(Okx.Books(true, snap)), recv)]
    else OkxStream(snap, ds[..|ds| - 1], recv) + [Deliver(OkxFrame(Okx.Books(false, ds[|ds| - 1])), recv)]
  }

  /** The sequence number after all of them. */
  ghost function OkxEnd(snap: seq<Okx.DataEntry>, ds: seq<seq<Okx.DataEntry>>): Option<int> {
    if ds == [] then Okx.LastSeq(None, snap) else Okx.LastSeq(OkxEnd(snap, ds[..|ds| - 1]), ds[|ds| - 1])
  }

  /** Every frame is complete and continues the one before it. */
  ghost predicate OkxContinuous(snap: seq<Okx.DataEntry>, ds: seq<seq<Okx.DataEntry>>) {
    if ds == [] then Okx.AllComplete(true, snap)
    else OkxContinuous(snap, ds[..|ds| - 1]) && Okx.Acceptable(OkxEnd(snap, ds[..|ds| - 1]), false, ds[|ds| - 1])
  }

  /** The entries of all frames that change the book, the snapshot's first. */
  ghost function OkxHanded(snap: seq<Okx.DataEntry>, ds: seq<seq<Okx.DataEntry>>): seq<(bool, Okx.DataEntry)> {
    if ds == [] then Tagged(true, Okx.Changing(true, snap))
    else OkxHanded(snap, ds[..|ds| - 1]) + Tagged(false, Okx.Changing(false, ds[|ds| - 1]))
  }

  ghost function Tagged(isSnapshot: bool, es: seq<Okx.DataEntry>): (r: seq<(bool, Okx.DataEntry)>)
    ensures |r| == |es| && forall i :: 0 <= i < |es| ==> r[i] == (isSnapshot, es[i])
  {
    seq(|es|, i requires 0 <= i < |es| => (isSnapshot, es[i]))
  }

  ghost predicate AreTagged(out: seq<Stamped>, es: seq<(bool, Okx.DataEntry)>, recv: int) {
    |out| == |es| && forall i :: 0 <= i < |es| ==> Okx.IsEntry(out[i], es[i].0, es[i].1, recv)
  }

  lemma TaggedConcat(a: seq<Stamped>, es: seq<(bool, Okx.DataEntry)>, b: seq<Stamped>, isSnapshot: bool, fs: seq<Okx.DataEntry>, recv: int)
    requires AreTagged(a, es, recv) && Okx.AreEntries(b, isSnapshot, fs, recv)
    ensures AreTagged(a + b, es + Tagged(isSnapshot, fs), recv)
  {
  }

  /** Everything was accepted, the position is the one given, and the entries given were handed on. */
  ghost predicate OkxLed(p: Protocol, xs: seq<Input>, pos: Option<int>, es: seq<(bool, Okx.DataEntry)>, recv: int) {
    && AllOk(p, xs) && RunOf(p, xs).proto.OnOkx? && Okx.Consistent(RunOf(p, xs).proto.o)
    && Position(RunOf(p, xs).proto) == pos && AreTagged(Kept(RunOf(p, xs).log), es, recv)
  }

  /** One frame more. */
  lemma OkxFrameRuns(p: Protocol, xs: seq<Input>, pos: Option<int>, es: seq<(bool, Okx.DataEntry)>,
                     isSnapshot: bool, data: seq<Okx.DataEntry>, recv: int)
    requires OkxLed(p, xs, pos, es, recv)
    ensures var ys := xs + [Deliver(OkxFrame(Okx.Books(isSnapshot, data)), recv)];
            && (AllOk(p, ys) <==> Okx.Acceptable(pos, isSnapshot, data))
            && (AllOk(p, ys) ==>
                  OkxLed(p, ys, Okx.LastSeq(pos, data), es + Tagged(isSnapshot, Okx.Changing(isSnapshot, data)), recv))
  {
    var s, log := RunOf(p, xs).proto.o, RunOf(p, xs).log;
    var o := Okx.FrameStep(s, Okx.Books(isSnapshot, data), recv);
    RunPush(p, xs, OkxFrame(Okx.Books(isSnapshot, data)), recv);
    Okx.BooksDeliver(s, isSnapshot, data, recv);
    Okx.FrameAdvances(s, Okx.Books(isSnapshot, data), recv);
    if o.verdict == Ok {
      KeptMore(log, o.out);
      TaggedConcat(Kept(log), es, o.out, isSnapshot, Okx.Changing(isSnapshot, data), recv);
    }
  }

  lemma KeptMore(log: seq<Entry>, out: seq<Stamped>)
    ensures Kept(log + Ups(out)) == Kept(log) + out
  {
    KeptConcat(log, Ups(out));
    KeptUps(out);
  }

  /**
    A snapshot frame and update frames are all accepted exactly when every entry is complete
    and continues the one before it, across frames. Then what is handed on are the entries
    that change the book, in order and with their own levels, and the position is the last
    entry's.
  */
  lemma {:induction false} OkxStreamIff(snap: seq<Okx.DataEntry>, ds: seq<seq<Okx.DataEntry>>, recv: int)
    ensures var p, xs := OnOkx(Okx.FRESH), OkxStream(snap, ds, recv);
            && (AllOk(p, xs) <==> OkxContinuous(snap, ds))
            && (AllOk(p, xs) ==> OkxLed(p, xs, OkxEnd(snap, ds), OkxHanded(snap, ds), recv))
    decreases |ds|
  {
    var p := OnOkx(Okx.FRESH);
    if ds == [] {
      OkxSnapshotRuns(snap, recv);
    } else {
      var front, last := ds[..|ds| - 1], ds[|ds| - 1];
      var xs := OkxStream(snap, front, recv);
      OkxStreamIff(snap, front, recv);
      AllOkPrefix(p, xs, [Deliver(OkxFrame(Okx.Books(false, last)), recv)]);
      if AllOk(p, xs) {
        OkxFrameRuns(p, xs, OkxEnd(snap, front), OkxHanded(snap, front), false, last, recv);
      }
    }
  }

  /** The snapshot frame alone. */
  lemma OkxSnapshotRuns(snap: seq<Okx.DataEntry>, recv: int)
    ensures var p, xs := OnOkx(Okx.FRESH), [Deliver(OkxFrame(Okx.Books(true, snap)), recv)];
            && (AllOk(p, xs) <==> Okx.AllComplete(true, snap))
            && (AllOk(p, xs) ==> OkxLed(p, xs, Okx.LastSeq(None, snap), Tagged(true, Okx.Changing(true, snap)), recv))
  {
    var p := OnOkx(Okx.FRESH);
    OkxFrameRuns(p, [], None, [], true, snap, recv);
    assert [] + [Deliver(OkxFrame(Okx.Books(true, snap)), recv)] == [Deliver(OkxFrame(Okx.Books(true, snap)), recv)];
    assert [] + Tagged(true, Okx.Changing(true, snap)) == Tagged(true, Okx.Changing(true, snap));
  }

  // ----- Bybit

  ghost function BybitStream(fs: seq<Bybit.Frame>, recv: int): seq<Input> {
    if fs == [] then [] else BybitStream(fs[..|fs| - 1], recv) + [Deliver(BybitFrame(fs[|fs| - 1]), recv)]
  }

  /** The number of the last frame. */
  function BybitEnd(fs: seq<Bybit.Frame>): Option<int> {
    if fs == [] || !fs[|fs| - 1].OrderBook? then None else fs[|fs| - 1].u
  }

  /** Every frame is complete and is a snapshot or comes right after the one before it. */
  ghost predicate BybitContinuous(fs: seq<Bybit.Frame>) {
    fs != [] ==>
      var front, f := fs[..|fs| - 1], fs[|fs| - 1];
      BybitContinuous(front) && Bybit.Complete(f) && (f.isSnapshot || BybitEnd(front) == Some(f.u.value - 1))
  }

  /** The updates are the frames, each with its own levels, time and number. */
  ghost predicate AreFrames(out: seq<Stamped>, fs: seq<Bybit.Frame>, recv: int) {
    |out| == |fs| && forall i :: 0 <= i < |fs| ==> Bybit.IsFrame(out[i], fs[i], recv)
  }

  lemma AreFramesPush(out: seq<Stamped>, fs: seq<Bybit.Frame>, d: Stamped, recv: int)
    requires fs != [] && AreFrames(out, fs[..|fs| - 1], recv) && Bybit.IsFrame(d, fs[|fs| - 1], recv)
    ensures AreFrames(out + [d], fs, recv)
  {
  }

  /** Everything was accepted, and exactly these frames were handed on. */
  ghost predicate BybitLed(p: Protocol, xs: seq<Input>, fs: seq<Bybit.Frame>, recv: int) {
    && AllOk(p, xs) && RunOf(p, xs).proto.OnBybit?
    && Position(RunOf(p, xs).proto) == BybitEnd(fs) && AreFrames(Kept(RunOf(p, xs).log), fs, recv)
  }

  lemma BybitFrameRuns(p: Protocol, xs: seq<Input>, fs: seq<Bybit.Frame>, recv: int)
    requires fs != [] && BybitLed(p, xs, fs[..|fs| - 1], recv) && fs[|fs| - 1].OrderBook?
    ensures var ys, f := xs + [Deliver(BybitFrame(fs[|fs| - 1]), recv)], fs[|fs| - 1];
            && (AllOk(p, ys) <==> Bybit.Complete(f) && (f.isSnapshot || BybitEnd(fs[..|fs| - 1]) == Some(f.u.value - 1)))
            && (AllOk(p, ys) ==> BybitLed(p, ys, fs, recv))
  {
    var y, log, f := RunOf(p, xs).proto.y, RunOf(p, xs).log, fs[|fs| - 1];
    var o := Bybit.FrameStep(y, f, recv);
    RunPush(p, xs, BybitFrame(f), recv);
    Bybit.BookDelivers(y, f, recv);
    if o.verdict == Ok {
      KeptMore(log, o.out);
      assert o.out == [o.out[0]];
      AreFramesPush(Kept(log), fs, o.out[0], recv);
    }
  }

  /**
    Book frames are all accepted exactly when each is complete and is a snapshot or comes
    right after the one before it. Then all of them are handed on, with their own levels,
    and the position is the last one's number.
  */
  lemma {:induction false} BybitStreamIff(fs: seq<Bybit.Frame>, recv: int)
    requires forall i :: 0 <= i < |fs| ==> fs[i].OrderBook?
    ensures var p, xs := OnBybit(Bybit.FRESH), BybitStream(fs, recv);
            && (AllOk(p, xs) <==> BybitContinuous(fs))
            && (AllOk(p, xs) ==> BybitLed(p, xs, fs, recv))
  {
    var p := OnBybit(Bybit.FRESH);
    if fs != [] {
      var front, f := fs[..|fs| - 1], fs[|fs| - 1];
      var xs := BybitStream(front, recv);
      BybitStreamIff(front, recv);
      AllOkPrefix(p, xs, [Deliver(BybitFrame(f), recv)]);
      if AllOk(p, xs) {
        BybitFrameRuns(p, xs, fs, recv);
      }
    }
  }
}
