/**
  Fixed-point arithmetic at scale 1e8 (src/core/fixed.h). Values are unbounded
  integers here; where a width matters it is stated.
*/
module Fixed {
  const SCALE: int := 100_000_000
  const BPS_SCALE: int := 10_000 * SCALE
  const INT64_MAX: int := 0x7FFF_FFFF_FFFF_FFFF
  const INT64_MIN: int := -0x8000_0000_0000_0000
  const INT128_LIMIT: int := 0x8000_0000_0000_0000_0000_0000_0000_0000

  predicate FitsInt64(v: int) {
    INT64_MIN <= v <= INT64_MAX
  }

  /** A 128-bit intermediate of the walk that neither overflows nor wraps. */
  predicate FitsWide(v: int) {
    -INT128_LIMIT <= v < INT128_LIMIT
  }

  /** Integer division as the language of the program has it: toward zero. */
  function TruncDiv(a: int, b: int): int
    requires b > 0
  {
    if a >= 0 then a / b else -((-a) / b)
  }

  function NarrowSaturating(v: int): (r: int)
    ensures FitsInt64(r) && (FitsInt64(v) ==> r == v)
  {
    if v > INT64_MAX then INT64_MAX else if v < INT64_MIN then INT64_MIN else v
  }

  function NotionalWide(px: int, qty: int): int {
    TruncDiv(px * qty, SCALE)
  }

  function QtyForNotional(notional: int, px: int): int {
    if px <= 0 || notional <= 0 then 0 else NarrowSaturating(TruncDiv(notional * SCALE, px))
  }

  function Vwap(notional: int, qty: int): int {
    if qty <= 0 then 0 else NarrowSaturating(TruncDiv(notional * SCALE, qty))
  }

  function BpsE8(delta: int, reference: int): int {
    if reference <= 0 then 0 else NarrowSaturating(TruncDiv(delta * BPS_SCALE, reference))
  }

  /** `offset` basis points (scaled 1e8) away from the reference, rounded outward. */
  function OffsetByBpsOutward(reference: int, offset: int, downward: bool): int {
    if reference <= 0 || offset <= 0 then reference
    else
      var delta := TruncDiv(reference * offset + BPS_SCALE - 1, BPS_SCALE);
      NarrowSaturating(if downward then reference - delta else reference + delta)
  }

  // ----- division facts

  lemma DivBounds(a: int, b: int)
    requires a >= 0 && b > 0
    ensures TruncDiv(a, b) >= 0
    ensures TruncDiv(a, b) * b <= a < TruncDiv(a, b) * b + b
  {
    var q, r := a / b, a % b;
    assert a == b * q + r && 0 <= r < b;
    assert b * q == q * b;
    if q < 0 {
      MulMono(q, -1, b);
    }
  }

  lemma MulMono(x: int, y: int, b: int)
    requires x <= y && b >= 0
    ensures x * b <= y * b
  {
  }

  lemma DivMono(a: int, c: int, b: int)
    requires 0 <= a <= c && b > 0
    ensures TruncDiv(a, b) <= TruncDiv(c, b)
  {
    DivBounds(a, b);
    DivBounds(c, b);
    if TruncDiv(a, b) > TruncDiv(c, b) {
      MulMono(TruncDiv(c, b) + 1, TruncDiv(a, b), b);
    }
  }

  // ----- notional and quantity

  /** The notional of a level is its exact product less than one unit short. */
  lemma NotionalBounds(px: int, qty: int)
    requires px >= 0 && qty >= 0
    ensures NotionalWide(px, qty) >= 0
    ensures NotionalWide(px, qty) * SCALE <= px * qty < NotionalWide(px, qty) * SCALE + SCALE
  {
  }

  /**
    The quantity bought for less than a level's notional is less than or equal to
    the level's, and never saturates; its own notional falls short of the amount
    spent by less than one price step plus one unit.
  */
  lemma PartialBounds(residual: int, px: int, qty: int)
    requires px > 0 && 0 <= qty <= INT64_MAX && residual < NotionalWide(px, qty)
    ensures var partial := QtyForNotional(residual, px);
            && 0 <= partial <= qty
            && (residual > 0 ==> partial == TruncDiv(residual * SCALE, px))
            && (residual >= 0 ==>
                  && NotionalWide(px, partial) <= residual
                  && (residual - NotionalWide(px, partial)) * SCALE < px + SCALE)
  {
    NotionalBounds(px, qty);
    if residual > 0 {
      var raw := TruncDiv(residual * SCALE, px);
      DivBounds(residual * SCALE, px);
      if raw > qty {
        MulMono(qty, raw, px);
      }
      NotionalBounds(px, raw);
      var spent := NotionalWide(px, raw);
      assert raw * px == px * raw;
      assert residual * SCALE < px * raw + px;
      assert px * raw < spent * SCALE + SCALE;
      assert spent * SCALE <= px * raw <= residual * SCALE;
    }
  }

  /** b is delta over the reference in basis points, toward zero, held within 64 bits. */
  predicate IsBps(b: int, delta: int, reference: int) {
    var exact := delta * BPS_SCALE;
    && (delta >= 0 ==> b >= 0) && (delta <= 0 ==> b <= 0)
    && (0 <= exact < (INT64_MAX + 1) * reference ==> b * reference <= exact < b * reference + reference)
    && ((INT64_MIN - 1) * reference < exact <= 0 ==> b * reference - reference < exact <= b * reference)
    && (exact >= (INT64_MAX + 1) * reference ==> b == INT64_MAX)
    && (exact <= (INT64_MIN - 1) * reference ==> b == INT64_MIN)
  }

  /**
    A distance in basis points keeps its sign and is exact to one unit of its own
    scale, unless that does not fit 64 bits; then it is the largest or smallest value.
  */
  lemma BpsBounds(delta: int, reference: int)
    requires reference > 0
    ensures IsBps(BpsE8(delta, reference), delta, reference)
  {
    if delta >= 0 {
      BpsUpward(delta, reference);
    } else {
      BpsDownward(delta, reference);
    }
  }

  lemma BpsUpward(delta: int, reference: int)
    requires reference > 0 && delta >= 0
    ensures IsBps(BpsE8(delta, reference), delta, reference)
  {
    var exact := delta * BPS_SCALE;
    MulMono(INT64_MIN - 1, 0, reference);
    BoundsOfTruncDiv(exact, reference, INT64_MAX + 1);
    if exact == 0 {
      BoundsOfTruncDiv(exact, reference, 1);
    }
  }

  lemma BpsDownward(delta: int, reference: int)
    requires reference > 0 && delta < 0
    ensures IsBps(BpsE8(delta, reference), delta, reference)
  {
    var size := -delta * BPS_SCALE;
    var q := TruncDiv(size, reference);
    MulMono(0, INT64_MAX + 1, reference);
    BoundsOfTruncDiv(size, reference, -INT64_MIN + 1);
    assert (INT64_MIN - 1) * reference == -((-INT64_MIN + 1) * reference);
    assert (-q) * reference == -(q * reference);
  }

  /** A quotient lies below a limit exactly when the dividend lies below its multiple. */
  lemma BoundsOfTruncDiv(a: int, b: int, limit: int)
    requires a >= 0 && b > 0
    ensures var q := TruncDiv(a, b);
            q >= 0 && q * b <= a < q * b + b && (q < limit <==> a < limit * b)
  {
    var q := TruncDiv(a, b);
    DivBounds(a, b);
    if q < limit {
      MulMono(q + 1, limit, b);
      assert (q + 1) * b == q * b + b;
    } else {
      MulMono(limit, q, b);
    }
  }

  // ----- price bounds

  /** The offset price is on the far side of the reference, which is always inside it. */
  lemma OffsetIsOutward(reference: int, offset: int, downward: bool)
    requires FitsInt64(reference)
    ensures var b := OffsetByBpsOutward(reference, offset, downward);
            if downward then b <= reference else b >= reference
  {
  }

  /** A wider offset never gives a tighter bound. */
  lemma OffsetMono(reference: int, near: int, far: int, downward: bool)
    requires near <= far && FitsInt64(reference)
    ensures var n, f := OffsetByBpsOutward(reference, near, downward), OffsetByBpsOutward(reference, far, downward);
            if downward then f <= n else n <= f
  {
    if reference > 0 && near > 0 {
      assert reference * near <= reference * far by { MulMono(near, far, reference); }
      MulMono(0, near, reference);
      DivMono(reference * near + BPS_SCALE - 1, reference * far + BPS_SCALE - 1, BPS_SCALE);
    } else {
      OffsetIsOutward(reference, far, downward);
    }
  }

  /**
    Outward rounding, stated without the helper's arithmetic: the bound is the
    greatest price at most (bids), or the least price at least (asks), the exact
    offset price reference * (1 -/+ offset), held within 64 bits. Without a positive
    reference and offset it is the reference itself.
  */
  lemma OffsetIsExactOutward(reference: int, offset: int, downward: bool)
    requires FitsInt64(reference)
    ensures OffsetByBpsOutward(reference, offset, downward) ==
            if reference > 0 && offset > 0 then NarrowSaturating(OffsetExact(reference, offset, downward)) else reference
  {
    if reference > 0 && offset > 0 {
      OffsetIsRounded(reference, offset, downward);
    }
  }

  lemma OffsetIsRounded(reference: int, offset: int, downward: bool)
    requires reference > 0 && offset > 0
    ensures OffsetByBpsOutward(reference, offset, downward) ==
            NarrowSaturating(OffsetExact(reference, offset, downward))
  {
    var a, b := reference * offset, BPS_SCALE;
    MulMono(0, reference, offset);
    assert downward ==> reference * (b - offset) == reference * b - a;
    assert !downward ==> -(reference * (b + offset)) == -reference * b - a;
    CeilAway(reference, a, b);
  }

  /** Subtracting a rounded-up quotient is rounding the difference down. */
  lemma CeilAway(reference: int, a: int, b: int)
    requires a >= 0 && b > 0
    ensures (reference * b - a) / b == reference - (a + b - 1) / b
    ensures (-reference * b - a) / b == -reference - (a + b - 1) / b
  {
    var up := (a + b - 1) / b;
    assert a + b - 1 == b * up + (a + b - 1) % b;
    QuotientIs(reference * b - a, b, reference - up) by {
      assert b * (reference - up) == reference * b - b * up;
    }
    QuotientIs(-reference * b - a, b, -reference - up) by {
      assert b * (-reference - up) == -reference * b - b * up;
    }
  }

  lemma QuotientIs(a: int, b: int, q: int)
    requires b > 0 && b * q <= a < b * q + b
    ensures a / b == q
  {
    var r := a / b;
    assert a == b * r + a % b;
    if r < q {
      MulMono(r + 1, q, b);
    } else if r > q {
      MulMono(q + 1, r, b);
    }
  }

  /** Floor for bids and ceiling for asks of the exact offset price. */
  function OffsetExact(reference: int, offset: int, downward: bool): int {
    if downward then (reference * (BPS_SCALE - offset)) / BPS_SCALE
    else -((-(reference * (BPS_SCALE + offset))) / BPS_SCALE)
  }
}
