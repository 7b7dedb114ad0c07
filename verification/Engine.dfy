/**
  One publish of the engine (src/aggregator/engine.cc): which venues contribute,
  the merged sides, and who is resting at the touch.
*/
module Engines {
  import opened Levels
  import opened Fixed
  import opened Bands
  import opened Merge
  import opened MergeLaws
  import opened Runners

  /** A venue as the engine sees it when it publishes. */
  datatype VenueView = VenueView(state: VenueState, lastRecv: int, bids: seq<Level>, asks: seq<Level>)

  /** A venue (by index) and its quantity at the best price. */
  datatype VenueTouch = VenueTouch(venue: nat, qty: int)

  datatype ConsolidatedBook = ConsolidatedBook(
    contributing: seq<nat>, stale: seq<nat>,
    bids: seq<Level>, asks: seq<Level>, bidTouch: seq<VenueTouch>, askTouch: seq<VenueTouch>,
    bidsTruncated: bool, asksTruncated: bool)

  /** Live according to its runner, and with data that reached its book recently enough. */
  predicate Contributes(v: VenueView, now: int, staleness: int) {
    v.state == Live && v.lastRecv != 0 && now - v.lastRecv < staleness
  }

  /**
    A venue is merged from the arrival of its data until the staleness timeout has passed,
    while it is LIVE; a venue that is not, or whose book has received nothing, is not.
  */
  lemma ContributionExpires(v: VenueView, now: int, staleness: int)
    ensures v.state != Live || v.lastRecv == 0 ==> !Contributes(v, now, staleness)
    ensures v.state == Live && v.lastRecv != 0 ==> (Contributes(v, now, staleness) <==> now < v.lastRecv + staleness)
  {
  }

  /** Prices are 64-bit values, as the program's types have it. */
  predicate PricesFit(s: seq<Level>) {
    forall k :: 0 <= k < |s| ==> s[k].px <= INT64_MAX
  }

  ghost predicate ValidView(v: VenueView) {
    Ladder(true, v.bids) && Ladder(false, v.asks) && PricesFit(v.bids) && PricesFit(v.asks)
  }

  predicate Increasing(s: seq<nat>) {
    forall i, j :: 0 <= i < j < |s| ==> s[i] < s[j]
  }

  /** The chosen side of the chosen venues, in order. */
  function SideOf(venues: seq<VenueView>, chosen: seq<nat>, desc: bool): (r: seq<seq<Level>>)
    requires forall k :: 0 <= k < |chosen| ==> chosen[k] < |venues|
    ensures |r| == |chosen|
    ensures forall k :: 0 <= k < |chosen| ==> r[k] == if desc then venues[chosen[k]].bids else venues[chosen[k]].asks
  {
    seq(|chosen|, k requires 0 <= k < |chosen| => if desc then venues[chosen[k]].bids else venues[chosen[k]].asks)
  }

  /** Every venue is either a merge input or reported stale, never both. */
  method SelectContributingVenues(venues: seq<VenueView>, now: int, staleness: int)
    returns (contributing: seq<nat>, stale: seq<nat>)
    ensures Increasing(contributing) && Increasing(stale)
    ensures forall i: nat :: i in contributing <==> i < |venues| && Contributes(venues[i], now, staleness)
    ensures forall i: nat :: i in stale <==> i < |venues| && !Contributes(venues[i], now, staleness)
  {
    contributing, stale := [], [];
    for i := 0 to |venues|
      invariant forall k :: 0 <= k < |contributing| ==> contributing[k] < i
      invariant forall k :: 0 <= k < |stale| ==> stale[k] < i
      invariant Increasing(contributing) && Increasing(stale)
      invariant forall j: nat :: j in contributing <==> j < i && Contributes(venues[j], now, staleness)
      invariant forall j: nat :: j in stale <==> j < i && !Contributes(venues[j], now, staleness)
    {
      var live := venues[i].state == Live;
      var recent := venues[i].lastRecv != 0 && now - venues[i].lastRecv < staleness;
      if live && recent {
        contributing := contributing + [i];
      } else {
        stale := stale + [i];
      }
    }
  }

  function TouchTotal(ts: seq<VenueTouch>): int {
    if ts == [] then 0 else TouchTotal(ts[..|ts| - 1]) + ts[|ts| - 1].qty
  }

  /** The attribution loop: every input whose own best price is the merged best. */
  method AttributeTouch(chosen: seq<nat>, ins: seq<seq<Level>>, best: int) returns (touch: seq<VenueTouch>)
    requires |chosen| == |ins| && Increasing(chosen)
    ensures TouchTotal(touch) == if best == 0 then 0 else HeadTotal(ins, best)
    ensures forall t :: t in touch <==>
      exists k :: 0 <= k < |ins| && best != 0 && ins[k] != [] && ins[k][0].px == best && t == VenueTouch(chosen[k], ins[k][0].qty)
  {
    touch := [];
    for k := 0 to |ins|
      invariant TouchTotal(touch) == if best == 0 then 0 else HeadTotal(ins[..k], best)
      invariant forall t :: t in touch <==>
        exists j :: 0 <= j < k && best != 0 && ins[j] != [] && ins[j][0].px == best && t == VenueTouch(chosen[j], ins[j][0].qty)
    {
      var bestPx := if ins[k] == [] then 0 else ins[k][0].px;
      assert ins[..k + 1][..k] == ins[..k];
      if best != 0 && bestPx == best {
        var t := VenueTouch(chosen[k], ins[k][0].qty);
        assert (touch + [t])[..|touch|] == touch;
        touch := touch + [t];
      }
    }
    assert ins[..|ins|] == ins;
  }

  /** The quantity the inputs' own best levels hold at a price. */
  function HeadTotal(ins: seq<seq<Level>>, best: int): int {
    if ins == [] then 0
    else
      var s := ins[|ins| - 1];
      HeadTotal(ins[..|ins| - 1], best) + (if s != [] && s[0].px == best then s[0].qty else 0)
  }

  lemma {:induction false} HeadTotalIsSum(desc: bool, ins: seq<seq<Level>>, best: int)
    requires Ladders(desc, ins) && NoneBetter(desc, ins, best)
    ensures HeadTotal(ins, best) == SumAt(ins, best)
  {
    if ins != [] {
      var n := |ins| - 1;
      HeadTotalIsSum(desc, ins[..n], best);
      NetHead(desc, ins[n], best, best);
      SumWithout(ins, n, best);
      assert ins[..n] + ins[n + 1..] == ins[..n];
    }
  }

  /** Unless the cap is zero, the best level is published. */
  lemma FirstIsPublished(desc: bool, f: seq<Level>, limits: Limits)
    requires f != [] && f[0].px > 0 && f[0].px <= INT64_MAX && limits.maxLevels != 0
    ensures Published(desc, f, limits) != [] && Published(desc, f, limits)[0] == f[0]
  {
  }

  /** Unless the cap is zero, the published ladder starts with the merged best level. */
  lemma PublishesTheTouch(desc: bool, ins: seq<seq<Level>>, limits: Limits)
    requires Ladders(desc, ins)
    requires forall i :: 0 <= i < |ins| ==> PricesFit(ins[i])
    ensures var out := Published(desc, FullMerge(desc, ins), limits);
            && (out == [] <==> limits.maxLevels == 0 || forall i :: 0 <= i < |ins| ==> ins[i] == [])
            && (out != [] ==>
                  && NoneBetter(desc, ins, out[0].px) && out[0].px > 0
                  && out[0].qty == SumAt(ins, out[0].px))
  {
    var f := FullMerge(desc, ins);
    if exists i :: 0 <= i < |ins| && ins[i] != [] {
      var b := MergedTouch(desc, ins);
      if limits.maxLevels == 0 {
        StopIsFirst(desc, f, limits, 0);
      } else {
        FirstIsPublished(desc, f, limits);
      }
    } else {
      MergeNothing(desc, ins);
    }
  }

  /** The first level of the full merge. */
  lemma MergedTouch(desc: bool, ins: seq<seq<Level>>) returns (b: int)
    requires Ladders(desc, ins) && exists i :: 0 <= i < |ins| && ins[i] != []
    requires forall i :: 0 <= i < |ins| ==> PricesFit(ins[i])
    ensures var f := FullMerge(desc, ins);
            f != [] && f[0] == Level(b, SumAt(ins, b)) && 0 < b <= INT64_MAX && NoneBetter(desc, ins, b)
  {
    b := HasBestHead(desc, ins);
    var h :| 0 <= h < |ins| && ins[h] != [] && ins[h][0].px == b;
    assert PricesFit(ins[h]) && Ladder(desc, ins[h]);
    MergeRound(desc, ins, b);
  }

  /** What the touch attribution of one side must say. */
  ghost predicate TouchAgrees(venues: seq<VenueView>, contributing: seq<nat>, desc: bool,
                              side: seq<Level>, touch: seq<VenueTouch>) {
    && TouchTotal(touch) == (if side == [] then 0 else side[0].qty)
    && (forall t :: t in touch <==>
          && side != [] && t.venue in contributing && t.venue < |venues|
          && var own := if desc then venues[t.venue].bids else venues[t.venue].asks;
             Quotes(own, side[0].px) && t.qty == Net(own, side[0].px))
  }

  lemma AttributionAgrees(venues: seq<VenueView>, chosen: seq<nat>, desc: bool, side: seq<Level>, touch: seq<VenueTouch>)
    requires forall k :: 0 <= k < |chosen| ==> chosen[k] < |venues|
    requires Ladders(desc, SideOf(venues, chosen, desc))
    requires side != [] ==> NoneBetter(desc, SideOf(venues, chosen, desc), side[0].px) && side[0].px > 0
    requires side != [] ==> side[0].qty == SumAt(SideOf(venues, chosen, desc), side[0].px)
    requires var best, ins := Touch(side), SideOf(venues, chosen, desc);
             && TouchTotal(touch) == (if best == 0 then 0 else HeadTotal(ins, best))
             && forall t :: t in touch <==>
                  exists k :: 0 <= k < |ins| && best != 0 && ins[k] != [] && ins[k][0].px == best && t == VenueTouch(chosen[k], ins[k][0].qty)
    ensures TouchAgrees(venues, chosen, desc, side, touch)
  {
    var ins := SideOf(venues, chosen, desc);
    if side != [] {
      var best := side[0].px;
      HeadTotalIsSum(desc, ins, best);
      forall k | 0 <= k < |ins|
        ensures Quotes(ins[k], best) <==> ins[k] != [] && ins[k][0].px == best
        ensures Net(ins[k], best) == if ins[k] != [] && ins[k][0].px == best then ins[k][0].qty else 0
      {
        NetHead(desc, ins[k], best, best);
        NetOfLadder(desc, ins[k], best);
      }
    }
  }

  /**
    One publish. Contributing and stale venues partition all venues; each side is
    the published part of the merge of the contributing books, flagged as truncated
    exactly when a merged level is missing from it; and on each side the attributed
    quantities add up to the best level and name exactly the contributing venues
    resting at its price.
  */
  method Publish(venues: seq<VenueView>, now: int, staleness: int, limits: Limits) returns (book: ConsolidatedBook)
    requires forall i :: 0 <= i < |venues| ==> ValidView(venues[i])
    ensures Increasing(book.contributing) && Increasing(book.stale)
    ensures forall i: nat :: i in book.contributing <==> i < |venues| && Contributes(venues[i], now, staleness)
    ensures forall i: nat :: i in book.stale <==> i < |venues| && !Contributes(venues[i], now, staleness)
    ensures forall k :: 0 <= k < |book.contributing| ==> book.contributing[k] < |venues|
    ensures book.bids == Published(true, FullMerge(true, SideOf(venues, book.contributing, true)), limits)
    ensures book.asks == Published(false, FullMerge(false, SideOf(venues, book.contributing, false)), limits)
    ensures book.bidsTruncated <==> |book.bids| < |FullMerge(true, SideOf(venues, book.contributing, true))|
    ensures book.asksTruncated <==> |book.asks| < |FullMerge(false, SideOf(venues, book.contributing, false))|
    ensures TouchAgrees(venues, book.contributing, true, book.bids, book.bidTouch)
    ensures TouchAgrees(venues, book.contributing, false, book.asks, book.askTouch)
  {
    var contributing, stale := SelectContributingVenues(venues, now, staleness);
    assert forall k :: 0 <= k < |contributing| ==> contributing[k] in contributing;
    var bids, bidTouch, bidsTruncated := PublishSide(venues, contributing, true, limits);
    var asks, askTouch, asksTruncated := PublishSide(venues, contributing, false, limits);
    book := ConsolidatedBook(contributing, stale, bids, asks, bidTouch, askTouch, bidsTruncated, asksTruncated);
  }

  /** One side: merge, then attribute the touch. */
  method PublishSide(venues: seq<VenueView>, chosen: seq<nat>, desc: bool, limits: Limits)
    returns (side: seq<Level>, touch: seq<VenueTouch>, truncated: bool)
    requires forall i :: 0 <= i < |venues| ==> ValidView(venues[i])
    requires Increasing(chosen) && forall k :: 0 <= k < |chosen| ==> chosen[k] < |venues|
    ensures side == Published(desc, FullMerge(desc, SideOf(venues, chosen, desc)), limits)
    ensures truncated <==> |side| < |FullMerge(desc, SideOf(venues, chosen, desc))|
    ensures TouchAgrees(venues, chosen, desc, side, touch)
  {
    var ins := SideOf(venues, chosen, desc);
    SidesAreLadders(venues, chosen, desc);
    side, truncated := MergeSide(desc, ins, limits);
    PublishesTheTouch(desc, ins, limits);
    touch := AttributeTouch(chosen, ins, Touch(side));
    AttributionAgrees(venues, chosen, desc, side, touch);
  }

  // ----- the bands of a published side

  /** The summed quantity at every price is a 64-bit value, as the program's types have it. */
  ghost predicate SumsFit(ins: seq<seq<Level>>) {
    forall p :: SumAt(ins, p) <= INT64_MAX
  }

  /** The full merge is fit for the outward walk. */
  lemma MergeIsWalkable(desc: bool, ins: seq<seq<Level>>)
    requires Ladders(desc, ins) && SumsFit(ins) && forall i :: 0 <= i < |ins| ==> PricesFit(ins[i])
    ensures Ladder(desc, FullMerge(desc, ins)) && Narrow(FullMerge(desc, ins))
  {
    var f := FullMerge(desc, ins);
    FullMergeIsLadder(desc, ins);
    forall k | 0 <= k < |f| ensures f[k].px <= INT64_MAX && f[k].qty <= INT64_MAX {
      assert f[k].px in Total(ins);
      ListedIffPositive(desc, ins, f[k].px);
      var j := SomeInputRests(desc, ins, f[k].px);
      assert PricesFit(ins[j]);
    }
  }

  /** So is what is published of it. */
  lemma PublishedIsWalkable(desc: bool, f: seq<Level>, limits: Limits)
    requires Ladder(desc, f) && Narrow(f)
    ensures Ladder(desc, Published(desc, f, limits)) && Narrow(Published(desc, f, limits))
  {
    var g := Published(desc, f, limits);
    assert forall k :: 0 <= k < |g| ==> g[k] == f[k];
  }

  /** A band is the band of the full merge, except that it may have become depth limited. */
  predicate SameBand(cut: PriceBand, full: PriceBand) {
    cut.(depthLimited := full.depthLimited) == full && (full.depthLimited ==> cut.depthLimited)
  }

  /**
    What a subscriber is told about one side of a publish. Each volume band is the sweep
    of its target over the published part of the merge of the contributing books; each
    price band is that of the whole merge exactly when the limits let through every level
    inside it.
  */
  method PublishBands(venues: seq<VenueView>, chosen: seq<nat>, desc: bool, limits: Limits, targets: seq<int>, offsets: seq<int>)
    returns (side: seq<Level>, bands: SideBands)
    requires forall i :: 0 <= i < |venues| ==> ValidView(venues[i])
    requires Increasing(chosen) && forall k :: 0 <= k < |chosen| ==> chosen[k] < |venues|
    requires SumsFit(SideOf(venues, chosen, desc)) && Ascending(targets) && Ascending(offsets)
    ensures var f := FullMerge(desc, SideOf(venues, chosen, desc));
            && side == Published(desc, f, limits) && Ladder(desc, side) && Narrow(side)
            && |bands.volume| == |targets| + 1 && |bands.price| == |offsets| + 1
            && VolumeBandsOf(side, targets, bands.volume[..|targets|]) && bands.volume[|targets|] == OpenVolumeBand(side)
            && bands.price[|offsets|] == OpenPriceBand(side)
            && forall j :: 0 <= j < |offsets| ==>
                 var m := |Inside(desc, BoundOf(desc, f, offsets[j]), f)|;
                 && bands.price[j] == PriceBandOf(desc, side, offsets[j])
                 && m <= |f| && (SameBand(bands.price[j], PriceBandOf(desc, f, offsets[j])) <==> Reaches(desc, f, limits, m))
  {
    ghost var ins: seq<seq<Level>> := SideOf(venues, chosen, desc);
    SidesAreLadders(venues, chosen, desc);
    MergeIsWalkable(desc, ins);
    ghost var f := FullMerge(desc, ins);
    PublishedIsWalkable(desc, f, limits);
    var touch, truncated;
    side, touch, truncated := PublishSide(venues, chosen, desc, limits);
    bands := ComputeSideBands(desc, side, targets, offsets);
    PriceBandsCompared(desc, f, limits, offsets, bands.price[..|offsets|]);
    assert forall j :: 0 <= j < |offsets| ==> bands.price[..|offsets|][j] == bands.price[j];
  }

  lemma SidesAreLadders(venues: seq<VenueView>, chosen: seq<nat>, desc: bool)
    requires forall i :: 0 <= i < |venues| ==> ValidView(venues[i])
    requires forall k :: 0 <= k < |chosen| ==> chosen[k] < |venues|
    ensures Ladders(desc, SideOf(venues, chosen, desc))
    ensures forall k :: 0 <= k < |chosen| ==> PricesFit(SideOf(venues, chosen, desc)[k])
  {
    var ins := SideOf(venues, chosen, desc);
    forall k | 0 <= k < |ins| ensures Ladder(desc, ins[k]) && PricesFit(ins[k]) {
      assert ValidView(venues[chosen[k]]);
    }
  }

  lemma PriceBandsCompared(desc: bool, f: seq<Level>, limits: Limits, offsets: seq<int>, bands: seq<PriceBand>)
    requires Ladder(desc, f) && Narrow(f) && PriceBandsOf(desc, Published(desc, f, limits), offsets, bands)
    ensures forall j :: 0 <= j < |offsets| ==>
              var m := |Inside(desc, BoundOf(desc, f, offsets[j]), f)|;
              && bands[j] == PriceBandOf(desc, Published(desc, f, limits), offsets[j])
              && m <= |f| && (SameBand(bands[j], PriceBandOf(desc, f, offsets[j])) <==> Reaches(desc, f, limits, m))
  {
    forall j | 0 <= j < |offsets|
      ensures var m := |Inside(desc, BoundOf(desc, f, offsets[j]), f)|;
              && bands[j] == PriceBandOf(desc, Published(desc, f, limits), offsets[j])
              && m <= |f| && (SameBand(bands[j], PriceBandOf(desc, f, offsets[j])) <==> Reaches(desc, f, limits, m))
    {
      BandsSurviveTheCut(desc, f, limits, offsets[j]);
    }
  }
}
