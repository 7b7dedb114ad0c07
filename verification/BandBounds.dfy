/**
  What truncation does to the bands: how far a fill falls short of its target, how
  bands compare with each other, and where averages can lie.
*/
module BandBounds {
  import opened Levels
  import opened Fixed
  import opened Bands

  // ----- where a sweep ends

  /** The level that brings the total notional to the target, or the end of the ladder. */
  function EndFrom(ls: seq<Level>, target: int, i: nat): (r: nat)
    requires i <= |ls|
    ensures i <= r <= |ls|
    decreases |ls| - i
  {
    if i == |ls| || TotalNotional(ls[..i + 1]) >= target then i else EndFrom(ls, target, i + 1)
  }

  function EndOf(ls: seq<Level>, target: int): (r: nat)
    ensures r <= |ls|
  {
    EndFrom(ls, target, 0)
  }

  /** The target is met inside level i, or out of reach when i is the end of the ladder. */
  ghost predicate EndsAt(ls: seq<Level>, target: int, i: nat) {
    && i <= |ls|
    && (i == |ls| ==> TotalNotional(ls) < target)
    && (i < |ls| ==> ClosesAt(ls, target, i))
  }

  lemma {:induction false} EndFromEnds(ls: seq<Level>, target: int, i: nat)
    requires i <= |ls| && TotalNotional(ls[..i]) < target
    ensures EndsAt(ls, target, EndFrom(ls, target, i))
    decreases |ls| - i
  {
    if i == |ls| {
      assert ls[..i] == ls;
    } else {
      TotalsStep(ls, i);
      if TotalNotional(ls[..i + 1]) < target {
        EndFromEnds(ls, target, i + 1);
      }
    }
  }

  /** A positive target is either out of reach or met inside exactly one level. */
  lemma SweepEnds(ls: seq<Level>, target: int)
    requires target > 0
    ensures EndsAt(ls, target, EndOf(ls, target))
  {
    assert ls[..0] == [];
    EndFromEnds(ls, target, 0);
  }

  /** A band is fully filled exactly when the ladder's total notional reaches its target. */
  lemma FullyFilledIff(ls: seq<Level>, target: int)
    requires Resting(ls) && Narrow(ls) && target > 0
    ensures VolumeBandOf(ls, target).fullyFilled <==> TotalNotional(ls) >= target
  {
    var i := EndOf(ls, target);
    SweepEnds(ls, target);
    assert ls[..|ls|] == ls;
    if i == |ls| {
      SweepRunsOut(ls, target);
    } else {
      SweepCloses(ls, target, i);
      TotalsStep(ls, i);
      NotionalMono(ls, i + 1, |ls|);
    }
  }

  /**
    A filled sweep never exceeds its target and falls short of it by less than one
    unit of quantity at the closing price plus one unit of notional.
  */
  lemma FillShortfall(ls: seq<Level>, target: int, i: nat)
    requires Resting(ls) && Narrow(ls) && target > 0 && ClosesAt(ls, target, i)
    ensures var s := SweepOf(ls, target);
            s.met && 0 <= target - s.notional && (target - s.notional) * SCALE < ls[i].px + SCALE
  {
    SweepCloses(ls, target, i);
    var n, x := TotalNotional(ls[..i]), ls[i];
    if n + NotionalWide(x.px, x.qty) > target {
      assert n < target by { assert ls[..0] == []; }
      PartialBounds(target - n, x.px, x.qty);
      NotionalBounds(x.px, 0);
    }
  }

  // ----- what a sweep consumes

  /** The levels a sweep takes, the last one cut to the part it takes. */
  function Consumed(ls: seq<Level>, target: int, i: nat): seq<Level>
    requires i <= |ls|
  {
    if i < |ls| && Partial(ls, target, i) > 0
    then ls[..i] + [Level(ls[i].px, Partial(ls, target, i))] else ls[..i]
  }

  /** What a sweep for the target takes. */
  function Taken(ls: seq<Level>, target: int): seq<Level> {
    Consumed(ls, target, EndOf(ls, target))
  }

  /** A sweep reports the totals of exactly the levels it takes. */
  lemma SweepIsConsumed(ls: seq<Level>, target: int, i: nat)
    requires Resting(ls) && Narrow(ls) && target > 0 && EndsAt(ls, target, i)
    ensures var s, c := SweepOf(ls, target), Consumed(ls, target, i);
            && s.qty == TotalQty(c) && s.notional == TotalNotional(c) && s.levels == |c|
            && (s.met <==> i < |ls|)
            && Resting(c) && Narrow(c)
  {
    var c := Consumed(ls, target, i);
    if i == |ls| {
      SweepRunsOut(ls, target);
      assert ls[..i] == ls;
    } else {
      SweepCloses(ls, target, i);
      if Partial(ls, target, i) > 0 {
        assert c[..i] == ls[..i];
      }
    }
  }

  /** Notional over quantity, truncated; zero for nothing. */
  function AveragePrice(c: seq<Level>): int {
    if TotalQty(c) <= 0 then 0 else TruncDiv(TotalNotional(c) * SCALE, TotalQty(c))
  }

  /** The VWAP of consumed levels never saturates. */
  lemma VwapIsAverage(c: seq<Level>)
    requires Resting(c) && Narrow(c)
    ensures Vwap(TotalNotional(c), TotalQty(c)) == AveragePrice(c)
  {
    TotalNotionalNonNegative(c);
    AverageBounds(c, 0, INT64_MAX);
    if TotalQty(c) > 0 {
      VwapOf(TotalNotional(c), TotalQty(c), 0, INT64_MAX);
    }
  }

  lemma SweepWorst(ls: seq<Level>, target: int, i: nat)
    requires Resting(ls) && Narrow(ls) && target > 0 && EndsAt(ls, target, i)
    ensures SweepOf(ls, target).worst == if Consumed(ls, target, i) == [] then Touch(ls) else Worst(Consumed(ls, target, i))
  {
    if i < |ls| {
      SweepCloses(ls, target, i);
    } else {
      SweepRunsOut(ls, target);
    }
  }

  /** A sweep never takes more than its target. */
  lemma SweepWithinTarget(ls: seq<Level>, target: int, i: nat)
    requires Resting(ls) && Narrow(ls) && target > 0 && EndsAt(ls, target, i)
    ensures SweepOf(ls, target).notional <= target
  {
    if i < |ls| {
      FillShortfall(ls, target, i);
    } else {
      SweepRunsOut(ls, target);
      assert ls[..|ls|] == ls;
    }
  }

  /** A published amount: the amount itself, held at the largest 64-bit value. */
  function Capped(v: int): int {
    if v > INT64_MAX then INT64_MAX else v
  }

  /**
    A published volume band says exactly what its sweep consumed, its amounts held at
    the largest 64-bit value; the average never saturates, and the worst price is that
    of the last level taken, or the touch when not even one unit was.
  */
  lemma VolumeBandIsExact(ls: seq<Level>, target: int)
    requires Resting(ls) && Narrow(ls) && target > 0
    ensures var b, c := VolumeBandOf(ls, target), Taken(ls, target);
            && b.target == target && !b.openEnded && (b.fullyFilled <==> TotalNotional(ls) >= target)
            && b.filledQty == Capped(TotalQty(c)) && b.filledNotional == Capped(TotalNotional(c)) && b.levels == |c|
            && TotalNotional(c) <= target
            && b.worst == (if c == [] then Touch(ls) else Worst(c))
            && b.vwap == AveragePrice(c)
  {
    var i, c := EndOf(ls, target), Taken(ls, target);
    SweepEnds(ls, target);
    SweepIsConsumed(ls, target, i);
    SweepWithinTarget(ls, target, i);
    SweepWorst(ls, target, i);
    FullyFilledIff(ls, target);
    TotalNotionalNonNegative(c);
    QtyBelowProduct(c);
    VwapIsAverage(c);
  }

  /** Where the bound falls on a ladder. */
  lemma {:induction false} Edge(desc: bool, bound: int, ls: seq<Level>, n: nat) returns (k: nat)
    requires n <= |ls| && forall i :: 0 <= i < n ==> Within(desc, bound, ls[i].px)
    ensures n <= k <= |ls| && forall i :: 0 <= i < k ==> Within(desc, bound, ls[i].px)
    ensures k < |ls| ==> !Within(desc, bound, ls[k].px)
    decreases |ls| - n
  {
    k := n;
    if n < |ls| && Within(desc, bound, ls[n].px) {
      k := Edge(desc, bound, ls, n + 1);
    }
  }

  /** A published price band says exactly what rests inside its bound, held at 64 bits. */
  lemma PriceBandIsExact(desc: bool, ls: seq<Level>, offset: int)
    requires Ladder(desc, ls) && Narrow(ls)
    ensures var b := PriceBandOf(desc, ls, offset);
            var c := Inside(desc, b.bound, ls);
            && b.offset == offset && !b.openEnded && b.bound == OffsetByBpsOutward(Touch(ls), offset, desc)
            && b.qty == Capped(TotalQty(c)) && b.notional == Capped(TotalNotional(c)) && b.levels == |c|
            && b.vwap == AveragePrice(c)
            && (b.depthLimited <==> forall k :: 0 <= k < |ls| ==> Within(desc, b.bound, ls[k].px))
  {
    var bound := BoundOf(desc, ls, offset);
    var k := Edge(desc, bound, ls, 0);
    InsideIsPrefix(desc, bound, ls, k);
    PriceBandAt(desc, ls, offset, k);
    PrefixIsExact(ls, k);
  }

  /** The published totals of a ladder's first levels. */
  lemma PrefixIsExact(ls: seq<Level>, k: nat)
    requires Resting(ls) && Narrow(ls) && k <= |ls|
    ensures var c := ls[..k];
            && NarrowSaturating(TotalQty(c)) == Capped(TotalQty(c))
            && NarrowSaturating(TotalNotional(c)) == Capped(TotalNotional(c))
            && Vwap(TotalNotional(c), TotalQty(c)) == AveragePrice(c)
  {
    var c := ls[..k];
    TotalNotionalNonNegative(c);
    QtyBelowProduct(c);
    VwapIsAverage(c);
  }

  /** Both open-ended bands report the whole ladder. */
  lemma OpenBandsAreExact(ls: seq<Level>)
    requires Resting(ls) && Narrow(ls)
    ensures var b := OpenVolumeBand(ls);
            && b.target == 0 && b.openEnded && !b.fullyFilled && b.levels == |ls|
            && b.filledQty == Capped(TotalQty(ls)) && b.filledNotional == Capped(TotalNotional(ls))
            && b.vwap == AveragePrice(ls) && b.worst == Worst(ls)
    ensures var b := OpenPriceBand(ls);
            && b.offset == 0 && b.openEnded && !b.depthLimited && b.levels == |ls|
            && b.qty == Capped(TotalQty(ls)) && b.notional == Capped(TotalNotional(ls))
            && b.vwap == AveragePrice(ls) && b.bound == Worst(ls)
  {
    assert ls[..|ls|] == ls;
    PrefixIsExact(ls, |ls|);
  }

  // ----- bands compared with each other

  /** At most the whole of the level a sweep ends in is taken. */
  lemma ClosedBelowNext(ls: seq<Level>, target: int, i: nat)
    requires Resting(ls) && Narrow(ls) && ClosesAt(ls, target, i)
    ensures var s := SweepOf(ls, target);
            && TotalQty(ls[..i]) <= s.qty <= TotalQty(ls[..i + 1])
            && TotalNotional(ls[..i]) <= s.notional <= TotalNotional(ls[..i + 1])
            && i <= s.levels <= i + 1
  {
    SweepCloses(ls, target, i);
    TotalsStep(ls, i);
    var p := Partial(ls, target, i);
    NotionalGrows(ls[i].px, p, ls[i].qty);
  }

  lemma NotionalGrows(px: int, a: int, b: int)
    requires px > 0 && 0 <= a <= b
    ensures 0 <= NotionalWide(px, a) <= NotionalWide(px, b)
  {
    MulMono(0, a, px);
    MulMono(a, b, px);
    assert px * a == a * px && px * b == b * px;
    DivBounds(px * a, SCALE);
    DivMono(px * a, px * b, SCALE);
  }

  /** Two targets met in the same level: the larger takes at least as much of it. */
  lemma SameLevelMono(ls: seq<Level>, near: int, far: int, i: nat)
    requires Resting(ls) && Narrow(ls) && 0 < near <= far
    requires ClosesAt(ls, near, i) && ClosesAt(ls, far, i)
    ensures Partial(ls, near, i) <= Partial(ls, far, i)
  {
    var n, x := TotalNotional(ls[..i]), ls[i];
    SweepCloses(ls, near, i);
    SweepCloses(ls, far, i);
    if n + NotionalWide(x.px, x.qty) > far {
      assert n < near by { assert ls[..0] == []; }
      PartialBounds(near - n, x.px, x.qty);
      PartialBounds(far - n, x.px, x.qty);
      DivMono((near - n) * SCALE, (far - n) * SCALE, x.px);
    }
  }

  ghost predicate NoLargerThan(a: Sweep, b: Sweep) {
    a.qty <= b.qty && a.notional <= b.notional && a.levels <= b.levels
  }

  /** Quantity, notional and level count never decrease from a target to a larger one. */
  lemma SweepsAreMonotone(ls: seq<Level>, near: int, far: int)
    requires Resting(ls) && Narrow(ls) && 0 < near <= far
    ensures NoLargerThan(SweepOf(ls, near), SweepOf(ls, far))
    ensures NoLargerThan(SweepOf(ls, far), WholePrefix(ls, |ls|))
  {
    var i, j := EndOf(ls, near), EndOf(ls, far);
    SweepEnds(ls, near);
    SweepEnds(ls, far);
    assert ls[..|ls|] == ls;
    SweepBelowTotal(ls, near, i);
    SweepBelowTotal(ls, far, j);
    if j == |ls| {
      SweepRunsOut(ls, far);
    } else {
      TotalsStep(ls, j);
      assert i <= j by {
        if i > j {
          NotionalMono(ls, j + 1, i);
        }
      }
      ClosedBelowNext(ls, near, i);
      ClosedBelowNext(ls, far, j);
      if i < j {
        NotionalMono(ls, i + 1, j);
      } else {
        SameLevelMono(ls, near, far, i);
        SweepCloses(ls, near, i);
        SweepCloses(ls, far, i);
        NotionalGrows(ls[i].px, Partial(ls, near, i), Partial(ls, far, i));
      }
    }
  }

  lemma SweepBelowTotal(ls: seq<Level>, target: int, i: nat)
    requires Resting(ls) && Narrow(ls) && target > 0 && EndsAt(ls, target, i)
    ensures NoLargerThan(SweepOf(ls, target), WholePrefix(ls, |ls|))
  {
    if i == |ls| {
      SweepRunsOut(ls, target);
    } else {
      ClosedBelowNext(ls, target, i);
      NotionalMono(ls, i + 1, |ls|);
    }
  }

  // ----- averages

  function TotalProduct(ls: seq<Level>): int {
    if ls == [] then 0 else TotalProduct(ls[..|ls| - 1]) + ls[|ls| - 1].px * ls[|ls| - 1].qty
  }

  /** What truncating each level's notional loses, in units of 1e-16. */
  function Loss(ls: seq<Level>): int {
    if ls == [] then 0 else Loss(ls[..|ls| - 1]) + (ls[|ls| - 1].px * ls[|ls| - 1].qty) % SCALE
  }

  /** How far the levels lie above a price, weighted by their quantities. */
  function Above(ls: seq<Level>, lo: int): int {
    if ls == [] then 0 else Above(ls[..|ls| - 1], lo) + (ls[|ls| - 1].px - lo) * ls[|ls| - 1].qty
  }

  /** The exact product is the notional and what truncation lost; each level loses less than one unit. */
  lemma {:induction false} LossBounds(ls: seq<Level>)
    requires Resting(ls)
    ensures TotalProduct(ls) == TotalNotional(ls) * SCALE + Loss(ls)
    ensures 0 <= Loss(ls) <= |ls| * (SCALE - 1)
  {
    if ls != [] {
      var n := |ls| - 1;
      LossBounds(ls[..n]);
      NotionalSplit(ls[n].px, ls[n].qty);
    }
  }

  lemma NotionalSplit(px: int, qty: int)
    requires px >= 0 && qty >= 0
    ensures px * qty == NotionalWide(px, qty) * SCALE + (px * qty) % SCALE
  {
    MulMono(0, px, qty);
  }

  lemma {:induction false} AboveIsProduct(ls: seq<Level>, lo: int)
    ensures Above(ls, lo) == TotalProduct(ls) - lo * TotalQty(ls)
  {
    if ls != [] {
      var n := |ls| - 1;
      AboveIsProduct(ls[..n], lo);
      var q, x := TotalQty(ls[..n]), ls[n];
      assert (x.px - lo) * x.qty == x.px * x.qty - lo * x.qty;
      assert lo * (q + x.qty) == lo * q + lo * x.qty;
    }
  }

  lemma {:induction false} ProductBounds(ls: seq<Level>, lo: int, hi: int)
    requires Resting(ls) && forall k :: 0 <= k < |ls| ==> lo <= ls[k].px <= hi
    ensures lo * TotalQty(ls) <= TotalProduct(ls) <= hi * TotalQty(ls)
    ensures TotalQty(ls) >= |ls|
  {
    if ls != [] {
      var n := |ls| - 1;
      ProductBounds(ls[..n], lo, hi);
      var q, x := TotalQty(ls[..n]), ls[n];
      MulMono(lo, x.px, x.qty);
      MulMono(x.px, hi, x.qty);
      assert lo * (q + x.qty) == lo * q + lo * x.qty;
      assert hi * (q + x.qty) == hi * q + hi * x.qty;
    }
  }

  /** The notional of consumed levels against their price range. */
  lemma AverageBounds(ls: seq<Level>, lo: int, hi: int)
    requires Resting(ls) && forall k :: 0 <= k < |ls| ==> lo <= ls[k].px <= hi
    ensures lo * TotalQty(ls) - |ls| * (SCALE - 1) <= TotalNotional(ls) * SCALE <= hi * TotalQty(ls)
  {
    LossBounds(ls);
    ProductBounds(ls, lo, hi);
  }

  /**
    The VWAP of consumed levels never saturates and never exceeds the highest price
    consumed. It reaches the lowest price exactly when the price spread inside the
    levels makes up for what truncation loses; and quantity times VWAP misses the
    notional by less than one unit of the VWAP, exactly zero when the division is even.
  */
  lemma VwapBounds(ls: seq<Level>, lo: int, hi: int)
    requires Resting(ls) && Narrow(ls) && ls != []
    requires hi <= INT64_MAX && forall k :: 0 <= k < |ls| ==> lo <= ls[k].px <= hi
    ensures var q, n := TotalQty(ls), TotalNotional(ls);
            var v := Vwap(n, q);
            && q > 0 && v == TruncDiv(n * SCALE, q) && v <= hi
            && (v >= lo <==> Above(ls, lo) >= Loss(ls))
            && 0 <= n * SCALE - v * q < q
            && (v * q == n * SCALE <==> (n * SCALE) % q == 0)
  {
    var q, n := TotalQty(ls), TotalNotional(ls);
    AverageBounds(ls, lo, hi);
    ProductBounds(ls, lo, hi);
    LossBounds(ls);
    AboveIsProduct(ls, lo);
    TotalNotionalNonNegative(ls);
    VwapOf(n, q, lo, hi);
  }

  lemma {:induction false} TotalNotionalNonNegative(ls: seq<Level>)
    requires Resting(ls)
    ensures TotalNotional(ls) >= 0
  {
    if ls != [] {
      TotalNotionalNonNegative(ls[..|ls| - 1]);
      NotionalBounds(ls[|ls| - 1].px, ls[|ls| - 1].qty);
    }
  }

  lemma VwapOf(n: int, q: int, lo: int, hi: int)
    requires n >= 0 && q > 0 && n * SCALE <= hi * q && hi <= INT64_MAX
    ensures var v := TruncDiv(n * SCALE, q);
            && v == Vwap(n, q) && v <= hi
            && (v >= lo <==> n * SCALE >= lo * q)
            && 0 <= n * SCALE - v * q < q
            && (v * q == n * SCALE <==> (n * SCALE) % q == 0)
  {
    var a := n * SCALE;
    var v := TruncDiv(a, q);
    DivBounds(a, q);
    assert (hi + 1) * q == hi * q + q;
    if v > hi {
      MulMono(hi + 1, v, q);
    }
    if v >= lo {
      MulMono(lo, v, q);
    } else {
      MulMono(v + 1, lo, q);
      assert (v + 1) * q == v * q + q;
    }
    assert a == q * (a / q) + a % q;
  }

  // ----- published averages between touch and worst price

  /** Whether a band's average lies between the touch and the band's worst price. */
  predicate Bracketed(touch: int, b: VolumeBand) {
    if touch <= b.worst then touch <= b.vwap <= b.worst else b.worst <= b.vwap <= touch
  }

  /** The lower end of a ladder's prices. */
  function Lowest(desc: bool, c: seq<Level>): int {
    if desc then Worst(c) else Touch(c)
  }

  /** The average of a nonempty ladder lies between its ends exactly when the spread covers the loss. */
  lemma AverageBetweenEnds(desc: bool, c: seq<Level>)
    requires Ladder(desc, c) && Narrow(c) && c != []
    ensures var lo, hi, v := Lowest(desc, c), Lowest(!desc, c), AveragePrice(c);
            lo <= hi && (lo <= v <= hi <==> Above(c, lo) >= Loss(c))
  {
    var lo, hi := Lowest(desc, c), Lowest(!desc, c);
    forall k | 0 <= k < |c| ensures lo <= c[k].px <= hi {
      assert 0 < k ==> Better(desc, c[0].px, c[k].px);
      assert k < |c| - 1 ==> Better(desc, c[k].px, c[|c| - 1].px);
    }
    VwapBounds(c, lo, hi);
    VwapIsAverage(c);
  }

  /** The order of a ladder lies in its prices. */
  lemma SamePricesBestFirst(desc: bool, ls: seq<Level>, c: seq<Level>)
    requires BestFirst(desc, ls) && |c| <= |ls| && forall k :: 0 <= k < |c| ==> c[k].px == ls[k].px
    ensures BestFirst(desc, c)
  {
  }

  lemma ConsumedPrices(ls: seq<Level>, target: int, i: nat)
    requires i <= |ls|
    ensures var c := Consumed(ls, target, i);
            |c| <= |ls| && forall k :: 0 <= k < |c| ==> c[k].px == ls[k].px
  {
  }

  lemma TakenIsLadder(desc: bool, ls: seq<Level>, target: int)
    requires Ladder(desc, ls) && Narrow(ls) && target > 0
    ensures var c := Taken(ls, target);
            && Ladder(desc, c) && Narrow(c) && |c| <= |ls|
            && forall k :: 0 <= k < |c| ==> c[k].px == ls[k].px
  {
    SweepEnds(ls, target);
    SweepIsConsumed(ls, target, EndOf(ls, target));
    ConsumedPrices(ls, target, EndOf(ls, target));
    SamePricesBestFirst(desc, ls, Taken(ls, target));
  }

  /**
    When a published volume band keeps the documented bracket: on an empty side, or
    when the sweep took something and the prices it took lie far enough above the
    lowest of them to make up for what truncating their notionals loses.
  */
  lemma VolumeBandBracketedIff(desc: bool, ls: seq<Level>, target: int)
    requires Ladder(desc, ls) && Narrow(ls) && target > 0
    ensures var c := Taken(ls, target);
            Bracketed(Touch(ls), VolumeBandOf(ls, target)) <==>
            ls == [] || (c != [] && Above(c, Lowest(desc, c)) >= Loss(c))
  {
    var c := Taken(ls, target);
    VolumeBandIsExact(ls, target);
    TakenIsLadder(desc, ls, target);
    if c != [] {
      AverageBetweenEnds(desc, c);
    }
  }

  /** The open-ended band takes the whole ladder. */
  lemma OpenBandBracketedIff(desc: bool, ls: seq<Level>)
    requires Ladder(desc, ls) && Narrow(ls)
    ensures Bracketed(Touch(ls), OpenVolumeBand(ls)) <==> Above(ls, Lowest(desc, ls)) >= Loss(ls)
  {
    VwapIsAverage(ls);
    if ls != [] {
      AverageBetweenEnds(desc, ls);
    }
  }

  // ----- published quantity times published average

  /**
    Whether totals q and n, each published at no more than the largest 64-bit value,
    have an average whose product with the quantity is the notional: nothing was
    bought; or the quantity fits and divides the published notional evenly, the
    average not feeling what was cut off it; or neither fits and the average price
    is one.
  */
  predicate ProductExact(q: int, n: int)
    requires q >= 0
  {
    || n == 0
    || (0 < q <= INT64_MAX && (Capped(n) * SCALE) % q == 0 && (n - Capped(n)) * SCALE < q)
    || (q > INT64_MAX && n > INT64_MAX && 0 <= (n - q) * SCALE < q)
  }

  /** A quotient is a given number exactly when the dividend lies within one divisor above its multiple. */
  lemma QuotientIff(a: int, q: int, v: int, w: int)
    requires q > 0 && v * q <= a < v * q + q
    ensures v == w <==> w * q <= a < w * q + q
  {
    if v < w {
      MulMono(v + 1, w, q);
      assert (v + 1) * q == v * q + q;
    } else if w < v {
      MulMono(w + 1, v, q);
      assert (w + 1) * q == w * q + q;
    }
  }

  /** A quantity that fits: the published notional must be a multiple, less than one quantity below the true one. */
  lemma FittingProduct(q: int, a: int, v: int, m: int)
    requires q > 0 && v * q <= a < v * q + q && 0 <= m <= a
    ensures q * v == m <==> m % q == 0 && a - m < q
  {
    var w := m / q;
    assert m == q * w + m % q;
    assert q * w == w * q && q * v == v * q;
    QuotientIff(a, q, v, w);
    if q * v == m {
      MultipleHasNoRemainder(q, v);
    }
  }

  lemma MultipleHasNoRemainder(q: int, v: int)
    requires q > 0
    ensures (q * v) % q == 0
  {
    QuotientIs(q * v, q, v);
    assert q * v == q * ((q * v) / q) + (q * v) % q;
  }

  /** A quantity that does not fit is published smaller than it is, so its product is too, unless the notional is cut as well. */
  lemma CutProduct(q: int, n: int, v: int)
    requires q > INT64_MAX && n > 0 && v >= 0 && v * q <= n * SCALE < v * q + q
    ensures INT64_MAX * v == Capped(n) * SCALE <==> n > INT64_MAX && 0 <= (n - q) * SCALE < q
  {
    QuotientIff(n * SCALE, q, v, SCALE);
    assert (n - q) * SCALE == n * SCALE - SCALE * q;
    if n <= INT64_MAX && v > 0 {
      MulStrict(INT64_MAX, q, v);
      assert q * v == v * q;
    }
  }

  lemma MulStrict(x: int, y: int, b: int)
    requires x < y && b > 0
    ensures x * b < y * b
  {
    MulMono(x + 1, y, b);
    assert (x + 1) * b == x * b + b;
  }

  /** The published totals of some levels: when their product is exact, and how far the true one is off. */
  lemma ProductOfLevels(c: seq<Level>)
    requires Resting(c) && Narrow(c)
    ensures var q, n, v := TotalQty(c), TotalNotional(c), AveragePrice(c);
            && q >= 0 && (Capped(q) * v == Capped(n) * SCALE <==> ProductExact(q, n))
            && 0 <= n * SCALE - q * v && (c != [] ==> n * SCALE - q * v < q)
  {
    var q, n, v := TotalQty(c), TotalNotional(c), AveragePrice(c);
    TotalNotionalNonNegative(c);
    ProductBounds(c, 0, INT64_MAX);
    if c != [] {
      DivBounds(n * SCALE, q);
      assert q * v == v * q;
      ProductOfTotals(q, n, v);
    }
  }

  lemma ProductOfTotals(q: int, n: int, v: int)
    requires q > 0 && n >= 0 && v >= 0 && v * q <= n * SCALE < v * q + q
    ensures Capped(q) * v == Capped(n) * SCALE <==> ProductExact(q, n)
  {
    if n == 0 {
      ZeroQuotient(q, v);
    } else if q <= INT64_MAX {
      FittingProduct(q, n * SCALE, v, Capped(n) * SCALE);
    } else {
      CutProduct(q, n, v);
    }
  }

  lemma ZeroQuotient(q: int, v: int)
    requires q > 0 && v >= 0 && v * q <= 0
    ensures v == 0
  {
    if v > 0 {
      MulMono(1, v, q);
    }
  }

  /**
    When a published volume band's quantity times its average is its notional, as
    documented. A 64-bit target keeps the notional within 64 bits: what can go wrong is
    a division that is not even and a quantity that does not fit. On the totals taken
    the product never exceeds the notional and misses by less than one unit of the average.
  */
  lemma ProductIsNotionalIff(ls: seq<Level>, target: int)
    requires Resting(ls) && Narrow(ls) && target > 0
    ensures var b, c := VolumeBandOf(ls, target), Taken(ls, target);
            var q, n := TotalQty(c), TotalNotional(c);
            && q >= 0 && (b.filledQty * b.vwap == b.filledNotional * SCALE <==> ProductExact(q, n))
            && (target <= INT64_MAX ==>
                  (ProductExact(q, n) <==> n == 0 || (0 < q <= INT64_MAX && (n * SCALE) % q == 0)))
            && 0 <= n * SCALE - q * b.vwap && (c != [] ==> n * SCALE - q * b.vwap < q)
  {
    VolumeBandIsExact(ls, target);
    SweepEnds(ls, target);
    SweepIsConsumed(ls, target, EndOf(ls, target));
    ProductOfLevels(Taken(ls, target));
  }

  /** The same for the open-ended band, whose notional may not fit either. */
  lemma OpenProductIsNotionalIff(ls: seq<Level>)
    requires Resting(ls) && Narrow(ls)
    ensures var b := OpenVolumeBand(ls);
            var q, n := TotalQty(ls), TotalNotional(ls);
            && q >= 0 && (b.filledQty * b.vwap == b.filledNotional * SCALE <==> ProductExact(q, n))
            && (n <= INT64_MAX ==>
                  (ProductExact(q, n) <==> n == 0 || (0 < q <= INT64_MAX && (n * SCALE) % q == 0)))
            && 0 <= n * SCALE - q * b.vwap && (ls != [] ==> n * SCALE - q * b.vwap < q)
  {
    assert ls[..|ls|] == ls;
    PrefixIsExact(ls, |ls|);
    ProductOfLevels(ls);
  }

  /** And for a price band. */
  lemma PriceProductIsNotionalIff(desc: bool, ls: seq<Level>, offset: int)
    requires Ladder(desc, ls) && Narrow(ls)
    ensures var b := PriceBandOf(desc, ls, offset);
            var c := Inside(desc, b.bound, ls);
            TotalQty(c) >= 0 && (b.qty * b.vwap == b.notional * SCALE <==> ProductExact(TotalQty(c), TotalNotional(c)))
  {
    var bound := BoundOf(desc, ls, offset);
    var k := Edge(desc, bound, ls, 0);
    InsideIsPrefix(desc, bound, ls, k);
    PriceBandIsExact(desc, ls, offset);
    ProductOfLevels(ls[..k]);
  }

  /** A sweep that closes before it can take one unit reports an average of zero at a positive worst price. */
  lemma DustTargetIsNotBracketed()
    ensures var ls := [Level(2 * SCALE, 1)];
            var b := VolumeBandOf(ls, 1);
            && Ladder(true, ls) && b.fullyFilled && b.levels == 0 && b.vwap == 0 && b.worst == 2 * SCALE
            && !Bracketed(Touch(ls), b)
  {
    var ls := [Level(2 * SCALE, 1)];
    assert ls[..0] == [] && ls[..1] == ls;
    assert NotionalWide(2 * SCALE, 1) == 2;
    TotalsStep(ls, 0);
    SweepCloses(ls, 1, 0);
    assert TruncDiv(1 * SCALE, 2 * SCALE) == 0;
  }

  /**
    The documented claim that a band's VWAP lies between touch and worst price
    fails on dust: one unit at one price step has notional zero.
  */
  lemma VwapCanFallBelowWorst()
    ensures var ls := [Level(1, 1)];
            Ladder(true, ls) && OpenVolumeBand(ls).vwap == 0 && OpenVolumeBand(ls).worst == 1
  {
  }

  /** A division that is not even: the product misses in the open-ended band and in the band of a target. */
  lemma ProductCanMissNotional()
    ensures var ls := [Level(2 * SCALE, 1), Level(SCALE, 2)];
            var b, o := VolumeBandOf(ls, 4), OpenVolumeBand(ls);
            && Ladder(true, ls)
            && b.filledQty * b.vwap != b.filledNotional * SCALE
            && o.filledQty * o.vwap != o.filledNotional * SCALE
  {
    var ls := [Level(2 * SCALE, 1), Level(SCALE, 2)];
    assert NotionalWide(2 * SCALE, 1) == 2 && NotionalWide(SCALE, 2) == 2;
    WholeLadderTaken(ls, 2, 2);
    OpenProductIsNotionalIff(ls);
  }

  /** Two levels whose notionals together are the target are taken whole. */
  lemma WholeLadderTaken(ls: seq<Level>, first: int, second: int)
    requires |ls| == 2 && Resting(ls) && Narrow(ls) && first >= 0 && second > 0
    requires NotionalWide(ls[0].px, ls[0].qty) == first && NotionalWide(ls[1].px, ls[1].qty) == second
    ensures TotalQty(ls) == ls[0].qty + ls[1].qty && TotalNotional(ls) == first + second
    ensures var b, o := VolumeBandOf(ls, first + second), OpenVolumeBand(ls);
            b.filledQty == o.filledQty && b.filledNotional == o.filledNotional && b.vwap == o.vwap
  {
    TotalsStep(ls, 0);
    TotalsStep(ls, 1);
    assert ls[..0] == [] && ls[..2] == ls;
    SweepCloses(ls, first + second, 1);
  }

  /**
    A quantity that does not fit: the division is even, and the product still misses,
    because the published quantity is smaller than what was taken.
  */
  lemma CutQuantityMissesNotional()
    ensures var x := 0x7FFF_FFFF_FFFF_FFFC;
            var ls := [Level(25_000_000, x), Level(75_000_000, x)];
            var b, o := VolumeBandOf(ls, x), OpenVolumeBand(ls);
            && Ladder(false, ls) && Narrow(ls) && b.fullyFilled && b.vwap == 50_000_000
            && (TotalNotional(ls) * SCALE) % (2 * x) == 0 && TotalQty(ls) == 2 * x
            && b.filledQty * b.vwap != b.filledNotional * SCALE
            && o.filledQty * o.vwap != o.filledNotional * SCALE
  {
    var x := 0x7FFF_FFFF_FFFF_FFFC;
    var ls := [Level(25_000_000, x), Level(75_000_000, x)];
    var y := 0x1FFF_FFFF_FFFF_FFFF;
    assert NotionalWide(25_000_000, x) == y && NotionalWide(75_000_000, x) == 3 * y;
    WholeLadderTaken(ls, y, 3 * y);
    FullyFilledIff(ls, x);
    OpenProductIsNotionalIff(ls);
  }

  // ----- widths

  lemma {:induction false} PrefixProduct(ls: seq<Level>, i: nat)
    requires Resting(ls) && i <= |ls|
    ensures 0 <= TotalProduct(ls[..i]) <= TotalProduct(ls)
    decreases |ls|
  {
    if ls == [] {
    } else {
      var n := |ls| - 1;
      MulMono(0, ls[n].px, ls[n].qty);
      if i == |ls| {
        assert ls[..i] == ls;
        PrefixProduct(ls[..n], n);
        assert ls[..n][..n] == ls[..n];
      } else {
        PrefixProduct(ls[..n], i);
        assert ls[..n][..i] == ls[..i];
      }
    }
  }

  /**
    Every 128-bit intermediate of the walk fits when the ladder's sum of price
    times quantity is below 2^127: the level's product, the running quantity and
    scaled running notional before and after the level, and the scaled remainder
    of any target that ends in it.
  */
  lemma WalkFitsWide(ls: seq<Level>, target: int, i: nat)
    requires Resting(ls) && Narrow(ls) && i < |ls| && TotalProduct(ls) < INT128_LIMIT
    ensures FitsWide(ls[i].px * ls[i].qty)
    ensures FitsWide(TotalQty(ls[..i + 1])) && FitsWide(TotalNotional(ls[..i + 1]) * SCALE)
    ensures target > 0 && ClosesAt(ls, target, i) ==>
            FitsWide((target - TotalNotional(ls[..i])) * SCALE) && FitsWide(SweepOf(ls, target).notional * SCALE)
  {
    var c := ls[..i + 1];
    PrefixProduct(ls, i + 1);
    PrefixProduct(ls, i);
    assert c[..i] == ls[..i];
    assert TotalProduct(c) == TotalProduct(ls[..i]) + ls[i].px * ls[i].qty;
    MulMono(0, ls[i].px, ls[i].qty);
    LossBounds(c);
    LossBounds(ls[..i]);
    TotalNotionalNonNegative(c);
    TotalNotionalNonNegative(ls[..i]);
    QtyBelowProduct(c);
    TotalsStep(ls, i);
    if target > 0 && ClosesAt(ls, target, i) {
      ClosedBelowNext(ls, target, i);
      assert TotalNotional(ls[..i]) < target by { assert ls[..0] == []; }
      assert target <= TotalNotional(c);
    }
  }

  lemma {:induction false} QtyBelowProduct(ls: seq<Level>)
    requires Resting(ls)
    ensures 0 <= TotalQty(ls) <= TotalProduct(ls)
  {
    if ls != [] {
      var n := |ls| - 1;
      QtyBelowProduct(ls[..n]);
      MulMono(1, ls[n].px, ls[n].qty);
    }
  }

  /** The bound of a price band is computed within 128 bits for all 64-bit inputs. */
  lemma BoundFitsWide(reference: int, offset: int)
    requires 0 <= reference <= INT64_MAX && 0 <= offset <= INT64_MAX
    ensures FitsWide(reference * offset + BPS_SCALE - 1)
  {
    MulMono(0, reference, offset);
    MulMono(reference, INT64_MAX, offset);
    MulMono(offset, INT64_MAX, INT64_MAX);
    assert reference * offset <= INT64_MAX * INT64_MAX;
  }
}
