/**
  The k-way merge of venue ladders into one (src/core/consolidated.cc).
*/
module Merge {
  import opened Levels
  import opened Fixed
  import opened Bands

  /** How deep to publish: 0 disables the notional and the price rule. */
  datatype Limits = Limits(notionalTarget: int, maxBps: int, maxLevels: int)

  // ----- the merge as a map

  /** The summed quantity of all inputs at a price. */
  function SumAt(ins: seq<seq<Level>>, p: int): int {
    if ins == [] then 0 else Net(ins[0], p) + SumAt(ins[1..], p)
  }

  /** Every price some input rests at. */
  ghost function Prices(ins: seq<seq<Level>>): set<int> {
    if ins == [] then {} else AsMap(ins[0]).Keys + Prices(ins[1..])
  }

  /** Price to summed quantity. */
  ghost function Total(ins: seq<seq<Level>>): Depth {
    map p | p in Prices(ins) :: SumAt(ins, p)
  }

  /** The whole consolidated ladder: every price once, best first, quantities summed. */
  ghost function FullMerge(desc: bool, ins: seq<seq<Level>>): seq<Level> {
    SortedOf(desc, Total(ins))
  }

  ghost predicate Ladders(desc: bool, ins: seq<seq<Level>>) {
    forall i :: 0 <= i < |ins| ==> Ladder(desc, ins[i])
  }

  lemma NetOfLadder(desc: bool, s: seq<Level>, p: int)
    requires Ladder(desc, s)
    ensures Net(s, p) >= 0
    ensures Net(s, p) > 0 <==> Quotes(s, p)
  {
    LastAtNone(s, p);
    if k :| 0 <= k < |s| && s[k].px == p {
      LastAtUnique(s, k);
    }
  }

  /** A price is listed exactly when something is resting there. */
  lemma {:induction false} ListedIffPositive(desc: bool, ins: seq<seq<Level>>, p: int)
    requires Ladders(desc, ins)
    ensures SumAt(ins, p) >= 0
    ensures p in Prices(ins) <==> SumAt(ins, p) > 0
  {
    if ins != [] {
      NetOfLadder(desc, ins[0], p);
      NetIsAsMap(ins[0], p);
      ListedIffPositive(desc, ins[1..], p);
    }
  }

  /** Some input rests at every listed price. */
  lemma {:induction false} SomeInputRests(desc: bool, ins: seq<seq<Level>>, p: int) returns (i: nat)
    requires Ladders(desc, ins) && SumAt(ins, p) > 0
    ensures i < |ins| && Quotes(ins[i], p)
  {
    NetOfLadder(desc, ins[0], p);
    if Net(ins[0], p) > 0 {
      i := 0;
    } else {
      var j := SomeInputRests(desc, ins[1..], p);
      i := j + 1;
    }
  }

  // ----- one round: take everything resting at the best price

  function DropAt(s: seq<Level>, p: int): seq<Level> {
    if s != [] && s[0].px == p then s[1..] else s
  }

  function DropAll(ins: seq<seq<Level>>, p: int): (r: seq<seq<Level>>)
    ensures |r| == |ins| && forall i :: 0 <= i < |ins| ==> r[i] == DropAt(ins[i], p)
  {
    seq(|ins|, i requires 0 <= i < |ins| => DropAt(ins[i], p))
  }

  /** What a ladder holds at its head, and what remains without it. */
  lemma NetHead(desc: bool, s: seq<Level>, b: int, p: int)
    requires Ladder(desc, s) && (s != [] ==> !Better(desc, s[0].px, b))
    ensures Net(s, b) == if s != [] && s[0].px == b then s[0].qty else 0
    ensures Net(DropAt(s, b), p) == if p == b then 0 else Net(s, p)
    ensures Ladder(desc, DropAt(s, b))
  {
    if s != [] {
      var x, t := s[0], s[1..];
      assert s == [x] + t;
      BestFirstTail(desc, s);
      LastAtCons(x, t, p);
      LastAtCons(x, t, b);
      BeyondNone(desc, t, x.px, b);
    }
  }

  ghost predicate NoneBetter(desc: bool, ins: seq<seq<Level>>, b: int) {
    forall i :: 0 <= i < |ins| && ins[i] != [] ==> !Better(desc, ins[i][0].px, b)
  }

  ghost predicate BestHead(desc: bool, ins: seq<seq<Level>>, b: int) {
    NoneBetter(desc, ins, b) && exists i :: 0 <= i < |ins| && ins[i] != [] && ins[i][0].px == b
  }

  lemma {:induction false} SumDrop(desc: bool, ins: seq<seq<Level>>, b: int, p: int)
    requires Ladders(desc, ins) && NoneBetter(desc, ins, b)
    ensures SumAt(DropAll(ins, b), p) == if p == b then 0 else SumAt(ins, p)
    ensures Ladders(desc, DropAll(ins, b))
  {
    if ins != [] {
      NetHead(desc, ins[0], b, p);
      SumDrop(desc, ins[1..], b, p);
      assert DropAll(ins, b)[1..] == DropAll(ins[1..], b);
      assert Ladders(desc, DropAll(ins, b)) by {
        forall i | 0 <= i < |ins| ensures Ladder(desc, DropAll(ins, b)[i]) {
          assert i > 0 ==> DropAll(ins, b)[i] == DropAll(ins[1..], b)[i - 1];
        }
      }
    }
  }

  /** The best head is the best price of all. */
  lemma BestHeadIsBest(desc: bool, ins: seq<seq<Level>>, b: int)
    requires Ladders(desc, ins) && BestHead(desc, ins, b)
    ensures IsBest(desc, Prices(ins), b)
  {
    var h :| 0 <= h < |ins| && ins[h] != [] && ins[h][0].px == b;
    HeadRests(desc, ins, h);
    forall p | p in Prices(ins) && p != b ensures Better(desc, b, p) {
      ListedIffPositive(desc, ins, p);
      var i := SomeInputRests(desc, ins, p);
      var k :| 0 <= k < |ins[i]| && ins[i][k].px == p;
      assert k > 0 ==> Better(desc, ins[i][0].px, p);
    }
  }

  lemma {:induction false} HeadRests(desc: bool, ins: seq<seq<Level>>, h: nat)
    requires Ladders(desc, ins) && h < |ins| && ins[h] != []
    ensures ins[h][0].px in Prices(ins)
  {
    var p := ins[h][0].px;
    if h == 0 {
      assert Quotes(ins[0], p);
      NetOfLadder(desc, ins[0], p);
      NetIsAsMap(ins[0], p);
    } else {
      HeadRests(desc, ins[1..], h - 1);
    }
  }

  /** Dropping the best heads removes their price from the map and nothing else. */
  lemma TotalDrop(desc: bool, ins: seq<seq<Level>>, b: int)
    requires Ladders(desc, ins) && BestHead(desc, ins, b)
    ensures Total(DropAll(ins, b)) == Total(ins) - {b}
  {
    var m, rest := Total(ins), Total(DropAll(ins, b));
    forall p ensures (p in rest <==> p in m && p != b) && (p in rest ==> rest[p] == m[p]) {
      SumDrop(desc, ins, b, p);
      ListedIffPositive(desc, ins, p);
      ListedIffPositive(desc, DropAll(ins, b), p);
    }
    assert rest.Keys == (m - {b}).Keys;
  }

  /** The consolidated ladder is its best level followed by the merge of what remains. */
  lemma MergeRound(desc: bool, ins: seq<seq<Level>>, b: int)
    requires Ladders(desc, ins) && BestHead(desc, ins, b)
    ensures FullMerge(desc, ins) == [Level(b, SumAt(ins, b))] + FullMerge(desc, DropAll(ins, b))
    ensures Ladders(desc, DropAll(ins, b))
  {
    SumDrop(desc, ins, b, b);
    BestHeadIsBest(desc, ins, b);
    TotalDrop(desc, ins, b);
    assert Total(ins).Keys == Prices(ins);
    SortedOfStep(desc, Total(ins), b);
  }

  /** With every input exhausted nothing remains. */
  lemma {:induction false} MergeNothing(desc: bool, ins: seq<seq<Level>>)
    requires forall i :: 0 <= i < |ins| ==> ins[i] == []
    ensures FullMerge(desc, ins) == []
  {
    NoPrices(ins);
    assert Total(ins).Keys == {};
  }

  lemma {:induction false} NoPrices(ins: seq<seq<Level>>)
    requires forall i :: 0 <= i < |ins| ==> ins[i] == []
    ensures Prices(ins) == {}
  {
    if ins != [] {
      NoPrices(ins[1..]);
    }
  }

  /** The consolidated ladder is itself a ladder, and lists the summed map. */
  lemma FullMergeIsLadder(desc: bool, ins: seq<seq<Level>>)
    requires Ladders(desc, ins)
    ensures Ladder(desc, FullMerge(desc, ins))
    ensures Lists(FullMerge(desc, ins), Total(ins))
  {
    var f, m := FullMerge(desc, ins), Total(ins);
    SortedOfLists(desc, m);
    forall i | 0 <= i < |f| ensures f[i].px > 0 && f[i].qty > 0 {
      assert f[i].px in m;
      ListedIffPositive(desc, ins, f[i].px);
      var j := SomeInputRests(desc, ins, f[i].px);
      var k :| 0 <= k < |ins[j]| && ins[j][k].px == f[i].px;
    }
  }

  // ----- where the merge stops

  /** The level cap is compared as an unsigned size, so a negative one never binds. */
  predicate CapReached(limits: Limits, k: nat) {
    limits.maxLevels >= 0 && k >= limits.maxLevels
  }

  /** The merge does not go past its first k levels. */
  predicate Stops(desc: bool, f: seq<Level>, limits: Limits, k: nat) {
    || k >= |f|
    || CapReached(limits, k)
    || (limits.maxBps > 0 && !Within(desc, BoundOf(desc, f, limits.maxBps), f[k].px))
    || (k > 0 && limits.notionalTarget > 0 && TotalNotional(f[..k]) >= limits.notionalTarget)
  }

  function StopFrom(desc: bool, f: seq<Level>, limits: Limits, k: nat): (r: nat)
    requires k <= |f|
    ensures k <= r <= |f| && Stops(desc, f, limits, r)
    ensures forall j :: k <= j < r ==> !Stops(desc, f, limits, j)
    decreases |f| - k
  {
    if Stops(desc, f, limits, k) then k else StopFrom(desc, f, limits, k + 1)
  }

  /** The published part of a consolidated ladder. */
  function Published(desc: bool, f: seq<Level>, limits: Limits): seq<Level> {
    f[..StopFrom(desc, f, limits, 0)]
  }

  lemma StopIsFirst(desc: bool, f: seq<Level>, limits: Limits, k: nat)
    requires k <= |f| && Stops(desc, f, limits, k)
    requires forall j :: 0 <= j < k ==> !Stops(desc, f, limits, j)
    ensures StopFrom(desc, f, limits, 0) == k
  {
  }

  // ----- the merge loop

  function Rest(ins: seq<seq<Level>>, cursor: seq<nat>): (r: seq<seq<Level>>)
    requires |cursor| == |ins| && forall i :: 0 <= i < |ins| ==> cursor[i] <= |ins[i]|
    ensures |r| == |ins| && forall i :: 0 <= i < |ins| ==> r[i] == ins[i][cursor[i]..]
  {
    seq(|ins|, i requires 0 <= i < |ins| => ins[i][cursor[i]..])
  }

  ghost predicate CursorsFit(ins: seq<seq<Level>>, cursor: seq<nat>) {
    |cursor| == |ins| && forall i :: 0 <= i < |ins| ==> cursor[i] <= |ins[i]|
  }

  /** Scans the cursor heads for the best price. */
  method PickBest(desc: bool, ins: seq<seq<Level>>, cursor: seq<nat>) returns (found: bool, best: int)
    requires CursorsFit(ins, cursor)
    ensures found ==> BestHead(desc, Rest(ins, cursor), best)
    ensures !found ==> forall i :: 0 <= i < |ins| ==> cursor[i] == |ins[i]|
  {
    found, best := false, 0;
    for i := 0 to |ins|
      invariant !found ==> forall j :: 0 <= j < i ==> cursor[j] == |ins[j]|
      invariant found ==> forall j :: 0 <= j < i && cursor[j] < |ins[j]| ==> !Better(desc, ins[j][cursor[j]].px, best)
      invariant found ==> exists j :: 0 <= j < i && cursor[j] < |ins[j]| && ins[j][cursor[j]].px == best
    {
      if cursor[i] >= |ins[i]| {
        continue;
      }
      var candidate := ins[i][cursor[i]].px;
      if !found || Better(desc, candidate, best) {
        best := candidate;
        found := true;
      }
    }
    if found {
      ghost var rest: seq<seq<Level>> := Rest(ins, cursor);
      ghost var j :| 0 <= j < |ins| && cursor[j] < |ins[j]| && ins[j][cursor[j]].px == best;
      assert rest[j][0].px == best;
    }
  }

  /** Where a cursor goes when everything at the price is consumed. */
  function Advanced(s: seq<Level>, c: nat, p: int): nat {
    if c < |s| && s[c].px == p then c + 1 else c
  }

  /** Advancing every cursor past the price is dropping it from what remains. */
  lemma AdvanceIsDrop(ins: seq<seq<Level>>, cursor0: seq<nat>, cursor: seq<nat>, p: int)
    requires CursorsFit(ins, cursor0) && |cursor| == |ins|
    requires forall j :: 0 <= j < |ins| ==> cursor[j] == Advanced(ins[j], cursor0[j], p)
    ensures CursorsFit(ins, cursor) && Rest(ins, cursor) == DropAll(Rest(ins, cursor0), p)
  {
    var rest: seq<seq<Level>> := Rest(ins, cursor0);
    forall j | 0 <= j < |ins| ensures ins[j][cursor[j]..] == DropAt(rest[j], p) {
      assert cursor0[j] < |ins[j]| ==> rest[j][0] == ins[j][cursor0[j]];
      assert cursor0[j] < |ins[j]| ==> rest[j][1..] == ins[j][cursor0[j] + 1..];
    }
  }

  lemma SumStep(desc: bool, rest: seq<seq<Level>>, i: nat, best: int)
    requires i < |rest| && Ladder(desc, rest[i]) && (rest[i] != [] ==> !Better(desc, rest[i][0].px, best))
    ensures SumAt(rest[i..], best) ==
            (if rest[i] != [] && rest[i][0].px == best then rest[i][0].qty else 0) + SumAt(rest[i + 1..], best)
  {
    NetHead(desc, rest[i], best, best);
    assert rest[i..][1..] == rest[i + 1..];
  }

  /** Consumes every venue sitting at the price and sums what they hold there. */
  method ConsumeAt(desc: bool, ins: seq<seq<Level>>, cursor0: seq<nat>, best: int) returns (cursor: seq<nat>, qty: int)
    requires CursorsFit(ins, cursor0) && Ladders(desc, Rest(ins, cursor0)) && BestHead(desc, Rest(ins, cursor0), best)
    ensures CursorsFit(ins, cursor)
    ensures Rest(ins, cursor) == DropAll(Rest(ins, cursor0), best)
    ensures qty == SumAt(Rest(ins, cursor0), best)
  {
    ghost var rest: seq<seq<Level>> := Rest(ins, cursor0);
    cursor, qty := cursor0, 0;
    assert rest[0..] == rest;
    for i := 0 to |ins|
      invariant |cursor| == |ins|
      invariant forall j :: i <= j < |ins| ==> cursor[j] == cursor0[j]
      invariant forall j :: 0 <= j < i ==> cursor[j] == Advanced(ins[j], cursor0[j], best)
      invariant qty + SumAt(rest[i..], best) == SumAt(rest, best)
    {
      SumStep(desc, rest, i, best);
      if cursor[i] >= |ins[i]| {
        continue;
      }
      if ins[i][cursor[i]].px != best {
        continue;
      }
      qty := qty + ins[i][cursor[i]].qty;
      cursor := cursor[i := cursor[i] + 1];
    }
    AdvanceIsDrop(ins, cursor0, cursor, best);
  }

  /** No rule applies before level k. */
  ghost predicate RunsTo(desc: bool, f: seq<Level>, limits: Limits, k: nat) {
    forall j :: 0 <= j < k ==> !Stops(desc, f, limits, j)
  }

  /** What the loop has published so far, and what it can still publish. */
  ghost predicate Merging(desc: bool, f: seq<Level>, out: seq<Level>, rest: seq<seq<Level>>) {
    Ladders(desc, rest) && out + FullMerge(desc, rest) == f
  }

  lemma Regroup(f: seq<Level>, out: seq<Level>, x: Level, t: seq<Level>)
    requires f == out + ([x] + t)
    ensures f == (out + [x]) + t && f[|out|] == x && f[..|out|] == out && f[..|out| + 1] == out + [x]
  {
  }

  /** The loop may end where a rule applies. */
  lemma EndHere(desc: bool, f: seq<Level>, limits: Limits, out: seq<Level>, t: seq<Level>)
    requires f == out + t && RunsTo(desc, f, limits, |out|) && Stops(desc, f, limits, |out|)
    ensures out == Published(desc, f, limits)
    ensures |out| < |f| <==> t != []
  {
  }

  /** Where none of the three rules applies, the next level is published. */
  lemma RunsOn(desc: bool, f: seq<Level>, limits: Limits, out: seq<Level>)
    requires |out| < |f| && f[..|out|] == out && RunsTo(desc, f, limits, |out|)
    requires !CapReached(limits, |out|)
    requires limits.maxBps > 0 ==> Within(desc, BoundOf(desc, f, limits.maxBps), f[|out|].px)
    requires out != [] && limits.notionalTarget > 0 ==> TotalNotional(out) < limits.notionalTarget
    ensures RunsTo(desc, f, limits, |out| + 1)
  {
  }

  /** The notional rule ends the merge once the published levels cover the target. */
  lemma CoveredStops(desc: bool, f: seq<Level>, limits: Limits, out: seq<Level>)
    requires out != [] && |out| <= |f| && f[..|out|] == out
    requires limits.notionalTarget > 0 && TotalNotional(out) >= limits.notionalTarget
    ensures Stops(desc, f, limits, |out|)
  {
  }

  /** The next level of the merge. */
  lemma NextLevel(desc: bool, f: seq<Level>, out: seq<Level>, rest: seq<seq<Level>>, best: int)
    requires Merging(desc, f, out, rest) && BestHead(desc, rest, best)
    ensures var x := Level(best, SumAt(rest, best));
            && Merging(desc, f, out + [x], DropAll(rest, best))
            && |out| < |f| && f[|out|] == x && f[..|out|] == out && f[..|out| + 1] == out + [x]
            && FullMerge(desc, rest) != []
  {
    MergeRound(desc, rest, best);
    Regroup(f, out, Level(best, SumAt(rest, best)), FullMerge(desc, DropAll(rest, best)));
  }

  lemma NextPrice(desc: bool, f: seq<Level>, out: seq<Level>, rest: seq<seq<Level>>, best: int)
    requires Merging(desc, f, out, rest) && BestHead(desc, rest, best)
    ensures |out| < |f| && f[|out|].px == best && f[..|out|] == out && FullMerge(desc, rest) != []
  {
    NextLevel(desc, f, out, rest, best);
  }

  /**
    The merge. Its output is the published part of the sorted, summed ladder of all
    inputs, and it reports truncation exactly when some level was left out.
  */
  method MergeSide(desc: bool, ins: seq<seq<Level>>, limits: Limits) returns (out: seq<Level>, truncated: bool)
    requires Ladders(desc, ins)
    ensures out == Published(desc, FullMerge(desc, ins), limits)
    ensures truncated <==> |out| < |FullMerge(desc, ins)|
  {
    out := [];
    var cursor: seq<nat> := seq(|ins|, i => 0);
    var cumulative, bound, boundComputed := 0, 0, false;
    ghost var f := FullMerge(desc, ins);
    assert Rest(ins, cursor) == ins;
    while true
      invariant CursorsFit(ins, cursor) && Merging(desc, f, out, Rest(ins, cursor))
      invariant RunsTo(desc, f, limits, |out|)
      invariant cumulative == TotalNotional(out)
      invariant boundComputed ==> bound == BoundOf(desc, f, limits.maxBps)
      invariant limits.maxBps > 0 ==> (boundComputed <==> out != [])
      invariant out != [] && limits.notionalTarget > 0 ==> cumulative < limits.notionalTarget
      decreases |f| - |out|
    {
      ghost var rest: seq<seq<Level>> := Rest(ins, cursor);
      ghost var t := FullMerge(desc, rest);
      var found, best := PickBest(desc, ins, cursor);
      if !found {
        MergeNothing(desc, rest);
        EndHere(desc, f, limits, out, t);
        return out, false;
      }
      NextPrice(desc, f, out, rest, best);
      if limits.maxLevels >= 0 && |out| >= limits.maxLevels {
        EndHere(desc, f, limits, out, t);
        return out, true;
      }
      var inside;
      inside, bound, boundComputed := WithinLimit(desc, limits, best, bound, boundComputed);
      if !inside {
        EndHere(desc, f, limits, out, t);
        return out, true;
      }
      RunsOn(desc, f, limits, out);
      cursor, out, cumulative := TakeLevel(desc, ins, cursor, best, out, cumulative, f);
      if limits.notionalTarget > 0 && cumulative >= limits.notionalTarget {
        CoveredStops(desc, f, limits, out);
        EndHere(desc, f, limits, out, FullMerge(desc, Rest(ins, cursor)));
        truncated := AnyLeft(desc, ins, cursor);
        return out, truncated;
      }
    }
  }

  /** Consumes the best price of all inputs and appends its level. */
  method TakeLevel(desc: bool, ins: seq<seq<Level>>, cursor0: seq<nat>, best: int, out0: seq<Level>, cumulative0: int,
                   ghost f: seq<Level>)
    returns (cursor: seq<nat>, out: seq<Level>, cumulative: int)
    requires CursorsFit(ins, cursor0) && Merging(desc, f, out0, Rest(ins, cursor0)) && BestHead(desc, Rest(ins, cursor0), best)
    requires cumulative0 == TotalNotional(out0)
    ensures CursorsFit(ins, cursor) && Merging(desc, f, out, Rest(ins, cursor))
    ensures |out| == |out0| + 1 <= |f| && f[..|out|] == out && cumulative == TotalNotional(out)
  {
    NextLevel(desc, f, out0, Rest(ins, cursor0), best);
    var qty;
    cursor, qty := ConsumeAt(desc, ins, cursor0, best);
    NotionalPush(out0, Level(best, qty));
    out := out0 + [Level(best, qty)];
    cumulative := cumulative0 + NotionalWide(best, qty);
  }

  /** The price rule; the bound is measured from the first level found. */
  method WithinLimit(desc: bool, limits: Limits, best: int, bound0: int, computed0: bool)
    returns (inside: bool, bound: int, computed: bool)
    ensures computed == (computed0 || limits.maxBps > 0)
    ensures bound == if !computed0 && limits.maxBps > 0 then OffsetByBpsOutward(best, limits.maxBps, desc) else bound0
    ensures inside <==> (limits.maxBps > 0 ==> Within(desc, bound, best))
  {
    bound, computed := bound0, computed0;
    inside := true;
    if limits.maxBps > 0 {
      if !computed {
        bound := OffsetByBpsOutward(best, limits.maxBps, desc);
        computed := true;
      }
      inside := if desc then best >= bound else best <= bound;
    }
  }

  lemma NotionalPush(out: seq<Level>, x: Level)
    ensures TotalNotional(out + [x]) == TotalNotional(out) + NotionalWide(x.px, x.qty)
  {
  }

  /** Whether any input still has levels. */
  method AnyLeft(desc: bool, ins: seq<seq<Level>>, cursor: seq<nat>) returns (left: bool)
    requires CursorsFit(ins, cursor) && Ladders(desc, Rest(ins, cursor))
    ensures left <==> FullMerge(desc, Rest(ins, cursor)) != []
  {
    ghost var rest: seq<seq<Level>> := Rest(ins, cursor);
    for i := 0 to |ins|
      invariant forall j :: 0 <= j < i ==> cursor[j] == |ins[j]|
    {
      if cursor[i] < |ins[i]| {
        FullMergeIsLadder(desc, rest);
        HeadRests(desc, rest, i);
        assert rest[i][0].px in Total(rest);
        assert Quotes(FullMerge(desc, rest), rest[i][0].px);
        return true;
      }
    }
    MergeNothing(desc, rest);
    left := false;
  }
}
