/**
  Depth bands (src/core/analytics.cc). One outward walk closes two families of
  bands; the specification sweeps the ladder once per band, independently.
*/
module Bands {
  import opened Levels
  import opened Fixed

  datatype VolumeBand = VolumeBand(
    target: int, vwap: int, worst: int, filledQty: int, filledNotional: int,
    fullyFilled: bool, openEnded: bool, levels: nat)

  datatype PriceBand = PriceBand(
    offset: int, bound: int, vwap: int, qty: int, notional: int,
    levels: nat, openEnded: bool, depthLimited: bool)

  datatype SideBands = SideBands(volume: seq<VolumeBand>, price: seq<PriceBand>)

  // ----- totals

  function TotalQty(ls: seq<Level>): int {
    if ls == [] then 0 else TotalQty(ls[..|ls| - 1]) + ls[|ls| - 1].qty
  }

  function TotalNotional(ls: seq<Level>): int {
    if ls == [] then 0 else TotalNotional(ls[..|ls| - 1]) + NotionalWide(ls[|ls| - 1].px, ls[|ls| - 1].qty)
  }

  /** The best price, or the "no liquidity" sentinel zero. */
  function Touch(ls: seq<Level>): int {
    if ls == [] then 0 else ls[0].px
  }

  /** The worst price present, or zero. */
  function Worst(ls: seq<Level>): int {
    if ls == [] then 0 else ls[|ls| - 1].px
  }

  // ----- the touch

  datatype TouchInfo = TouchInfo(
    hasBid: bool, hasAsk: bool, bestBid: int, bestAsk: int, mid: int, spread: int, spreadBps: int, crossed: bool)

  function ComputeTouch(bids: seq<Level>, asks: seq<Level>): TouchInfo {
    var bid, ask := Touch(bids), Touch(asks);
    if bid == 0 || ask == 0 then TouchInfo(bid != 0, ask != 0, bid, ask, 0, 0, 0, false)
    else
      var mid := NarrowSaturating(TruncDiv(bid + ask, 2));
      TouchInfo(true, true, bid, ask, mid, ask - bid, BpsE8(ask - bid, mid), bid >= ask)
  }

  /**
    The touch of two ladders. The best prices are those of the first levels, zero for a
    missing side. With both sides present the mid is their average rounded down, the
    spread the ask's less the bid's, the book crossed or locked exactly when the bid
    reaches the ask, and the spread in basis points is that of the spread over the mid,
    exact to one unit or saturated; with a side missing nothing is derived.
  */
  lemma TouchIsConsistent(bids: seq<Level>, asks: seq<Level>)
    requires Ladder(true, bids) && Ladder(false, asks)
    requires (bids != [] ==> bids[0].px <= INT64_MAX) && (asks != [] ==> asks[0].px <= INT64_MAX)
    ensures var t := ComputeTouch(bids, asks);
            && (t.hasBid <==> bids != []) && (t.hasAsk <==> asks != [])
            && t.bestBid == (if bids == [] then 0 else bids[0].px)
            && t.bestAsk == (if asks == [] then 0 else asks[0].px)
            && (bids != [] && asks != [] ==>
                  && 2 * t.mid <= bids[0].px + asks[0].px < 2 * t.mid + 2 && t.mid > 0
                  && t.spread == asks[0].px - bids[0].px
                  && (t.crossed <==> bids[0].px >= asks[0].px)
                  && IsBps(t.spreadBps, t.spread, t.mid))
            && (bids == [] || asks == [] ==> t.mid == 0 && t.spread == 0 && t.spreadBps == 0 && !t.crossed)
  {
    if bids != [] && asks != [] {
      var mid := TruncDiv(bids[0].px + asks[0].px, 2);
      BpsBounds(asks[0].px - bids[0].px, mid);
    }
  }

  // ----- one volume band: sweep a notional from the touch

  /** A sweep in progress. */
  datatype Sweep = Sweep(qty: int, notional: int, levels: nat, worst: int, met: bool)

  /**
    The reference sweep for a single target: whole levels while they fit, then as
    much of the next one as the rest of the target buys.
  */
  function SweepFrom(ls: seq<Level>, target: int, i: nat, s: Sweep): Sweep
    requires i <= |ls| && forall k :: 0 <= k < |ls| ==> ls[k].px > 0
    decreases |ls| - i
  {
    if i == |ls| || s.met then s
    else
      var x := ls[i];
      var whole := s.notional + NotionalWide(x.px, x.qty) <= target;
      var take := if whole then x.qty else TruncDiv((target - s.notional) * SCALE, x.px);
      if !whole && take <= 0 then s.(met := true)
      else
        var notional := s.notional + NotionalWide(x.px, take);
        SweepFrom(ls, target, i + 1, Sweep(s.qty + take, notional, s.levels + 1, x.px, !whole || notional >= target))
  }

  function SweepOf(ls: seq<Level>, target: int): Sweep
    requires forall k :: 0 <= k < |ls| ==> ls[k].px > 0
  {
    SweepFrom(ls, target, 0, Sweep(0, 0, 0, Touch(ls), false))
  }

  function BandOfSweep(target: int, s: Sweep): VolumeBand {
    VolumeBand(target, Vwap(s.notional, s.qty), s.worst, NarrowSaturating(s.qty), NarrowSaturating(s.notional),
               s.met, false, s.levels)
  }

  /** The volume band of one target, swept on its own. */
  function VolumeBandOf(ls: seq<Level>, target: int): VolumeBand
    requires forall k :: 0 <= k < |ls| ==> ls[k].px > 0
  {
    BandOfSweep(target, SweepOf(ls, target))
  }

  /** The trailing volume band: everything there is. */
  function OpenVolumeBand(ls: seq<Level>): VolumeBand {
    var q, n := TotalQty(ls), TotalNotional(ls);
    VolumeBand(0, Vwap(n, q), Worst(ls), NarrowSaturating(q), NarrowSaturating(n), false, true, |ls|)
  }

  // ----- one price band: everything within an offset of the touch

  predicate Within(desc: bool, bound: int, px: int) {
    if desc then px >= bound else px <= bound
  }

  /** The levels inside the bound, wherever they are. */
  function Inside(desc: bool, bound: int, ls: seq<Level>): seq<Level> {
    if ls == [] then []
    else if Within(desc, bound, ls[|ls| - 1].px) then Inside(desc, bound, ls[..|ls| - 1]) + [ls[|ls| - 1]]
    else Inside(desc, bound, ls[..|ls| - 1])
  }

  function BoundOf(desc: bool, ls: seq<Level>, offset: int): int {
    OffsetByBpsOutward(Touch(ls), offset, desc)
  }

  function MakePriceBand(offset: int, bound: int, q: int, n: int, levels: nat, openEnded: bool, depthLimited: bool): PriceBand {
    PriceBand(offset, bound, Vwap(n, q), NarrowSaturating(q), NarrowSaturating(n), levels, openEnded, depthLimited)
  }

  /** The price band of one offset: totals of the levels inside its bound. */
  function PriceBandOf(desc: bool, ls: seq<Level>, offset: int): PriceBand {
    var bound := BoundOf(desc, ls, offset);
    var inside := Inside(desc, bound, ls);
    MakePriceBand(offset, bound, TotalQty(inside), TotalNotional(inside), |inside|, false, inside == ls)
  }

  function OpenPriceBand(ls: seq<Level>): PriceBand {
    MakePriceBand(0, Worst(ls), TotalQty(ls), TotalNotional(ls), |ls|, true, false)
  }

  // ----- both families

  predicate Ascending(ts: seq<int>) {
    forall i, j :: 0 <= i < j < |ts| ==> ts[i] <= ts[j]
  }

  /** Every quantity and price is a 64-bit value, as the program's types have it. */
  predicate Narrow(ls: seq<Level>) {
    forall k :: 0 <= k < |ls| ==> ls[k].px <= INT64_MAX && ls[k].qty <= INT64_MAX
  }

  ghost predicate VolumeBandsOf(ls: seq<Level>, targets: seq<int>, bands: seq<VolumeBand>)
    requires Resting(ls)
  {
    |bands| == |targets| && forall j :: 0 <= j < |bands| ==> bands[j] == VolumeBandOf(ls, targets[j])
  }

  ghost predicate PriceBandsOf(desc: bool, ls: seq<Level>, offsets: seq<int>, bands: seq<PriceBand>) {
    |bands| == |offsets| && forall j :: 0 <= j < |bands| ==> bands[j] == PriceBandOf(desc, ls, offsets[j])
  }

  // ----- closed form of a sweep

  lemma {:induction false} NotionalMono(ls: seq<Level>, i: nat, j: nat)
    requires Resting(ls) && i <= j <= |ls|
    ensures TotalNotional(ls[..i]) <= TotalNotional(ls[..j])
    ensures TotalQty(ls[..i]) <= TotalQty(ls[..j])
    decreases j - i
  {
    if i < j {
      NotionalMono(ls, i, j - 1);
      assert ls[..j][..j - 1] == ls[..j - 1];
      NotionalBounds(ls[j - 1].px, ls[j - 1].qty);
    }
  }

  lemma TotalsStep(ls: seq<Level>, i: nat)
    requires i < |ls|
    ensures TotalQty(ls[..i + 1]) == TotalQty(ls[..i]) + ls[i].qty
    ensures TotalNotional(ls[..i + 1]) == TotalNotional(ls[..i]) + NotionalWide(ls[i].px, ls[i].qty)
  {
    assert ls[..i + 1][..i] == ls[..i];
  }

  /** The state of any sweep that has consumed exactly the first i levels. */
  function WholePrefix(ls: seq<Level>, i: nat): Sweep
    requires i <= |ls|
  {
    Sweep(TotalQty(ls[..i]), TotalNotional(ls[..i]), i, if i == 0 then Touch(ls) else ls[i - 1].px, false)
  }

  /** While the target is out of reach the sweep takes whole levels. */
  lemma {:induction false} SweepTakesPrefix(ls: seq<Level>, target: int, i: nat)
    requires Resting(ls) && i <= |ls|
    requires i > 0 ==> TotalNotional(ls[..i]) < target
    ensures SweepOf(ls, target) == SweepFrom(ls, target, i, WholePrefix(ls, i))
  {
    if i > 0 {
      NotionalMono(ls, i - 1, i);
      SweepTakesPrefix(ls, target, i - 1);
      TotalsStep(ls, i - 1);
    }
  }

  /** A target the ladder cannot reach: the sweep takes everything. */
  lemma SweepRunsOut(ls: seq<Level>, target: int)
    requires Resting(ls) && (ls != [] ==> TotalNotional(ls) < target)
    ensures SweepOf(ls, target) == WholePrefix(ls, |ls|)
  {
    assert ls[..|ls|] == ls;
    SweepTakesPrefix(ls, target, |ls|);
  }

  /** How much of level i the sweep takes when it ends there. */
  function Partial(ls: seq<Level>, target: int, i: nat): int
    requires i < |ls|
  {
    var n := TotalNotional(ls[..i]);
    if n + NotionalWide(ls[i].px, ls[i].qty) <= target then ls[i].qty else QtyForNotional(target - n, ls[i].px)
  }

  /** The sweep ends inside level i: before it the target is out of reach, with it not. */
  ghost predicate ClosesAt(ls: seq<Level>, target: int, i: nat) {
    && i < |ls|
    && (i > 0 ==> TotalNotional(ls[..i]) < target)
    && TotalNotional(ls[..i]) + NotionalWide(ls[i].px, ls[i].qty) >= target
  }

  function ClosedSweep(ls: seq<Level>, target: int, i: nat): Sweep
    requires i < |ls|
  {
    var p := Partial(ls, target, i);
    var s := WholePrefix(ls, i);
    if p > 0 then Sweep(s.qty + p, s.notional + NotionalWide(ls[i].px, p), i + 1, ls[i].px, true)
    else s.(met := true)
  }

  /** A sweep that ends inside level i is the prefix plus the partial level. */
  lemma SweepCloses(ls: seq<Level>, target: int, i: nat)
    requires Resting(ls) && Narrow(ls) && ClosesAt(ls, target, i)
    ensures SweepOf(ls, target) == ClosedSweep(ls, target, i)
    ensures 0 <= Partial(ls, target, i) <= ls[i].qty
  {
    SweepTakesPrefix(ls, target, i);
    var n, x := TotalNotional(ls[..i]), ls[i];
    if n + NotionalWide(x.px, x.qty) > target {
      PartialBounds(target - n, x.px, x.qty);
      if target - n <= 0 {
        NonPositiveBuysNothing(target - n, x.px);
      }
    }
  }

  lemma NonPositiveBuysNothing(residual: int, px: int)
    requires residual <= 0 && px > 0
    ensures TruncDiv(residual * SCALE, px) <= 0
  {
  }

  // ----- levels inside a bound

  /** On a ladder the levels inside a bound are a prefix. */
  lemma {:induction false} InsideIsPrefix(desc: bool, bound: int, ls: seq<Level>, k: nat)
    requires BestFirst(desc, ls) && k <= |ls|
    requires forall i :: 0 <= i < k ==> Within(desc, bound, ls[i].px)
    requires k < |ls| ==> !Within(desc, bound, ls[k].px)
    ensures Inside(desc, bound, ls) == ls[..k]
    decreases |ls|
  {
    if k == |ls| {
      assert ls[..k] == ls;
      InsideWhole(desc, bound, ls);
    } else {
      var n := |ls| - 1;
      assert k < n ==> Better(desc, ls[k].px, ls[n].px);
      InsideIsPrefix(desc, bound, ls[..n], k);
      assert ls[..n][..k] == ls[..k];
    }
  }

  lemma {:induction false} InsideWhole(desc: bool, bound: int, ls: seq<Level>)
    requires forall i :: 0 <= i < |ls| ==> Within(desc, bound, ls[i].px)
    ensures Inside(desc, bound, ls) == ls
  {
    if ls != [] {
      InsideWhole(desc, bound, ls[..|ls| - 1]);
    }
  }

  /** A price band whose bound falls between level k - 1 and level k. */
  lemma PriceBandAt(desc: bool, ls: seq<Level>, offset: int, k: nat)
    requires BestFirst(desc, ls) && k <= |ls|
    requires forall i :: 0 <= i < k ==> Within(desc, BoundOf(desc, ls, offset), ls[i].px)
    requires k < |ls| ==> !Within(desc, BoundOf(desc, ls, offset), ls[k].px)
    ensures PriceBandOf(desc, ls, offset) ==
            MakePriceBand(offset, BoundOf(desc, ls, offset), TotalQty(ls[..k]), TotalNotional(ls[..k]), k, false, k == |ls|)
  {
    InsideIsPrefix(desc, BoundOf(desc, ls, offset), ls, k);
    assert ls[..|ls|] == ls;
  }

  lemma PushPriceBand(desc: bool, ls: seq<Level>, offsets: seq<int>, bands: seq<PriceBand>)
    requires |bands| < |offsets| && PriceBandsOf(desc, ls, offsets[..|bands|], bands)
    ensures PriceBandsOf(desc, ls, offsets[..|bands| + 1], bands + [PriceBandOf(desc, ls, offsets[|bands|])])
  {
  }

  lemma PushVolumeBand(ls: seq<Level>, targets: seq<int>, bands: seq<VolumeBand>)
    requires Resting(ls) && |bands| < |targets| && VolumeBandsOf(ls, targets[..|bands|], bands)
    ensures VolumeBandsOf(ls, targets[..|bands| + 1], bands + [VolumeBandOf(ls, targets[|bands|])])
  {
  }

  /** Inside the nearer bound is inside the farther one. */
  lemma WiderContains(desc: bool, ls: seq<Level>, near: int, far: int, px: int)
    requires Resting(ls) && Narrow(ls) && near <= far
    requires Within(desc, BoundOf(desc, ls, near), px)
    ensures Within(desc, BoundOf(desc, ls, far), px)
  {
    OffsetMono(Touch(ls), near, far, desc);
  }

  // ----- the walk

  /** The band reported for a target met with `partial` of the level being walked. */
  function CloseVolumeBand(target: int, px: int, worst: int, partial: int, q: int, n: int, levels: nat): VolumeBand {
    var filledQty := q + partial;
    var filledNotional := n + (if partial > 0 then NotionalWide(px, partial) else 0);
    VolumeBand(target, Vwap(filledNotional, filledQty), if partial > 0 then px else worst,
               NarrowSaturating(filledQty), NarrowSaturating(filledNotional), true, false,
               levels + (if partial > 0 then 1 else 0))
  }

  /** Closes each price band that level i falls outside of. */
  method ClosePriceBands(desc: bool, ls: seq<Level>, offsets: seq<int>, i: nat, q: int, n: int, done: seq<PriceBand>)
    returns (bands: seq<PriceBand>)
    requires Ladder(desc, ls) && Narrow(ls) && Ascending(offsets)
    requires i < |ls| && q == TotalQty(ls[..i]) && n == TotalNotional(ls[..i])
    requires |done| <= |offsets| && PriceBandsOf(desc, ls, offsets[..|done|], done)
    requires forall j, k :: |done| <= j < |offsets| && 0 <= k < i ==> Within(desc, BoundOf(desc, ls, offsets[j]), ls[k].px)
    ensures |bands| <= |offsets| && PriceBandsOf(desc, ls, offsets[..|bands|], bands)
    ensures forall j, k :: |bands| <= j < |offsets| && 0 <= k < i + 1 ==> Within(desc, BoundOf(desc, ls, offsets[j]), ls[k].px)
  {
    bands := done;
    var index := |done|;
    var reference := ls[0].px;
    while index < |offsets|
      invariant index == |bands| <= |offsets| && |done| <= index
      invariant PriceBandsOf(desc, ls, offsets[..index], bands)
      decreases |offsets| - index
    {
      var offset := offsets[index];
      var bound := OffsetByBpsOutward(reference, offset, desc);
      var inside := if desc then ls[i].px >= bound else ls[i].px <= bound;
      if inside {
        break;
      }
      PriceBandAt(desc, ls, offset, i);
      PushPriceBand(desc, ls, offsets, bands);
      bands := bands + [MakePriceBand(offset, bound, q, n, i, false, false)];
      index := index + 1;
    }
    forall j, k | index <= j < |offsets| && 0 <= k < i + 1
      ensures Within(desc, BoundOf(desc, ls, offsets[j]), ls[k].px)
    {
      if k == i {
        WiderContains(desc, ls, offsets[index], offsets[j], ls[i].px);
      }
    }
  }

  /** What the walk reports when a target ends in level i is that target's own band. */
  lemma CloseIsBand(ls: seq<Level>, target: int, i: nat)
    requires Resting(ls) && Narrow(ls) && ClosesAt(ls, target, i)
    ensures var s := WholePrefix(ls, i);
            CloseVolumeBand(target, ls[i].px, s.worst, Partial(ls, target, i), s.qty, s.notional, i)
            == VolumeBandOf(ls, target)
  {
    SweepCloses(ls, target, i);
  }

  /** The band completed inside level i is the next one requested. */
  lemma PushClosed(ls: seq<Level>, targets: seq<int>, bands: seq<VolumeBand>, i: nat)
    requires Resting(ls) && Narrow(ls) && |bands| < |targets| && VolumeBandsOf(ls, targets[..|bands|], bands)
    requires ClosesAt(ls, targets[|bands|], i)
    ensures var s, target := WholePrefix(ls, i), targets[|bands|];
            VolumeBandsOf(ls, targets[..|bands| + 1],
                          bands + [CloseVolumeBand(target, ls[i].px, s.worst, Partial(ls, target, i), s.qty, s.notional, i)])
  {
    CloseIsBand(ls, targets[|bands|], i);
    PushVolumeBand(ls, targets, bands);
  }

  /** Completes each volume band that finishes inside level i. */
  method CloseVolumeBands(ls: seq<Level>, targets: seq<int>, i: nat, q: int, n: int, worst: int, done: seq<VolumeBand>)
    returns (bands: seq<VolumeBand>)
    requires Resting(ls) && Narrow(ls) && Ascending(targets)
    requires i < |ls| && q == TotalQty(ls[..i]) && n == TotalNotional(ls[..i])
    requires worst == if i == 0 then Touch(ls) else ls[i - 1].px
    requires |done| <= |targets| && VolumeBandsOf(ls, targets[..|done|], done)
    requires i > 0 ==> forall j :: |done| <= j < |targets| ==> n < targets[j]
    ensures |bands| <= |targets| && VolumeBandsOf(ls, targets[..|bands|], bands)
    ensures forall j :: |bands| <= j < |targets| ==> TotalNotional(ls[..i + 1]) < targets[j]
  {
    bands := done;
    var index := |done|;
    var px, qty := ls[i].px, ls[i].qty;
    var levelNotional := NotionalWide(px, qty);
    TotalsStep(ls, i);
    while index < |targets| && n + levelNotional >= targets[index]
      invariant |done| <= index == |bands| <= |targets|
      invariant VolumeBandsOf(ls, targets[..index], bands)
    {
      var target := targets[index];
      var consumesWholeLevel := n + levelNotional <= target;
      var partial := if consumesWholeLevel then qty else QtyForNotional(target - n, px);
      assert partial == Partial(ls, target, i);
      PushClosed(ls, targets, bands, i);
      bands := bands + [CloseVolumeBand(target, px, worst, partial, q, n, i)];
      index := index + 1;
    }
    forall j | index <= j < |targets| ensures n + levelNotional < targets[j] {
      assert targets[index] <= targets[j];
    }
  }

  /**
    The single outward walk. Each band is the band of its own sweep, in request
    order, followed by exactly one open-ended band.
  */
  method ComputeSideBands(desc: bool, ls: seq<Level>, targets: seq<int>, offsets: seq<int>) returns (out: SideBands)
    requires Ladder(desc, ls) && Narrow(ls)
    requires Ascending(targets) && Ascending(offsets)
    ensures |out.volume| == |targets| + 1 && |out.price| == |offsets| + 1
    ensures VolumeBandsOf(ls, targets, out.volume[..|targets|]) && out.volume[|targets|] == OpenVolumeBand(ls)
    ensures PriceBandsOf(desc, ls, offsets, out.price[..|offsets|]) && out.price[|offsets|] == OpenPriceBand(ls)
  {
    var volume: seq<VolumeBand>, price: seq<PriceBand> := [], [];
    var reference := Touch(ls);
    if reference == 0 {
      out := EmitEmptyBands(desc, targets, offsets);
      return;
    }
    var q, n, worst := 0, 0, reference;
    for i := 0 to |ls|
      invariant q == TotalQty(ls[..i]) && n == TotalNotional(ls[..i])
      invariant worst == if i == 0 then reference else ls[i - 1].px
      invariant |price| <= |offsets| && PriceBandsOf(desc, ls, offsets[..|price|], price)
      invariant forall j, k :: |price| <= j < |offsets| && 0 <= k < i ==> Within(desc, BoundOf(desc, ls, offsets[j]), ls[k].px)
      invariant |volume| <= |targets| && VolumeBandsOf(ls, targets[..|volume|], volume)
      invariant i > 0 ==> forall j :: |volume| <= j < |targets| ==> n < targets[j]
    {
      price := ClosePriceBands(desc, ls, offsets, i, q, n, price);
      volume := CloseVolumeBands(ls, targets, i, q, n, worst, volume);
      TotalsStep(ls, i);
      q := q + ls[i].qty;
      n := n + NotionalWide(ls[i].px, ls[i].qty);
      worst := ls[i].px;
    }
    assert ls[..|ls|] == ls;
    price := FinishPriceBands(desc, ls, offsets, q, n, price);
    volume := FinishVolumeBands(ls, targets, q, n, worst, volume);
    out := SideBands(volume + [VolumeBand(0, Vwap(n, q), worst, NarrowSaturating(q), NarrowSaturating(n), false, true, |ls|)],
                     price + [MakePriceBand(0, worst, q, n, |ls|, true, false)]);
    assert out.volume[..|targets|] == volume && out.price[..|offsets|] == price;
  }

  /** The bands of a side with no liquidity. */
  method EmitEmptyBands(desc: bool, targets: seq<int>, offsets: seq<int>) returns (out: SideBands)
    ensures |out.volume| == |targets| + 1 && |out.price| == |offsets| + 1
    ensures VolumeBandsOf([], targets, out.volume[..|targets|]) && out.volume[|targets|] == OpenVolumeBand([])
    ensures PriceBandsOf(desc, [], offsets, out.price[..|offsets|]) && out.price[|offsets|] == OpenPriceBand([])
  {
    var volume, price := [], [];
    for j := 0 to |targets|
      invariant VolumeBandsOf([], targets[..j], volume)
    {
      volume := volume + [VolumeBand(targets[j], 0, 0, 0, 0, false, false, 0)];
    }
    for j := 0 to |offsets|
      invariant PriceBandsOf(desc, [], offsets[..j], price)
    {
      price := price + [MakePriceBand(offsets[j], 0, 0, 0, 0, false, true)];
    }
    out := SideBands(volume + [VolumeBand(0, 0, 0, 0, 0, false, true, 0)],
                     price + [MakePriceBand(0, 0, 0, 0, 0, true, false)]);
    assert targets[..|targets|] == targets && offsets[..|offsets|] == offsets;
    assert out.volume[..|targets|] == volume && out.price[..|offsets|] == price;
  }

  /** What is left of the offsets once every level has been walked. */
  method FinishPriceBands(desc: bool, ls: seq<Level>, offsets: seq<int>, q: int, n: int, done: seq<PriceBand>)
    returns (bands: seq<PriceBand>)
    requires Ladder(desc, ls) && Narrow(ls)
    requires q == TotalQty(ls) && n == TotalNotional(ls)
    requires |done| <= |offsets| && PriceBandsOf(desc, ls, offsets[..|done|], done)
    requires forall j, k :: |done| <= j < |offsets| && 0 <= k < |ls| ==> Within(desc, BoundOf(desc, ls, offsets[j]), ls[k].px)
    ensures |bands| == |offsets| && PriceBandsOf(desc, ls, offsets, bands)
  {
    bands := done;
    var reference := Touch(ls);
    assert ls[..|ls|] == ls;
    while |bands| < |offsets|
      invariant |done| <= |bands| <= |offsets|
      invariant PriceBandsOf(desc, ls, offsets[..|bands|], bands)
    {
      var offset := offsets[|bands|];
      var bound := OffsetByBpsOutward(reference, offset, desc);
      PriceBandAt(desc, ls, offset, |ls|);
      PushPriceBand(desc, ls, offsets, bands);
      bands := bands + [MakePriceBand(offset, bound, q, n, |ls|, false, true)];
    }
    assert offsets[..|bands|] == offsets;
  }

  /** Volume targets the ladder is too thin to fill. */
  method FinishVolumeBands(ls: seq<Level>, targets: seq<int>, q: int, n: int, worst: int, done: seq<VolumeBand>)
    returns (bands: seq<VolumeBand>)
    requires Resting(ls)
    requires q == TotalQty(ls) && n == TotalNotional(ls) && worst == Worst(ls)
    requires |done| <= |targets| && VolumeBandsOf(ls, targets[..|done|], done)
    requires ls != [] ==> forall j :: |done| <= j < |targets| ==> n < targets[j]
    ensures |bands| == |targets| && VolumeBandsOf(ls, targets, bands)
  {
    bands := done;
    assert ls[..|ls|] == ls;
    while |bands| < |targets|
      invariant |done| <= |bands| <= |targets|
      invariant VolumeBandsOf(ls, targets[..|bands|], bands)
    {
      var target := targets[|bands|];
      SweepRunsOut(ls, target);
      PushVolumeBand(ls, targets, bands);
      bands := bands + [VolumeBand(target, Vwap(n, q), worst, NarrowSaturating(q), NarrowSaturating(n), false, false, |ls|)];
    }
    assert targets[..|bands|] == targets;
  }
}
