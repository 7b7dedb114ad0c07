/**
  Laws of the consolidated ladder: the order of venues does not matter, nothing is
  created or lost, and levels outside the published range have no influence.
*/
module MergeLaws {
  import opened Levels
  import opened Fixed
  import opened Bands
  import opened Merge

  // ----- venue order

  lemma {:induction false} SumWithout(ins: seq<seq<Level>>, i: nat, p: int)
    requires i < |ins|
    ensures SumAt(ins, p) == Net(ins[i], p) + SumAt(ins[..i] + ins[i + 1..], p)
  {
    if i == 0 {
      assert ins[..0] + ins[1..] == ins[1..];
    } else {
      SumWithout(ins[1..], i - 1, p);
      var rest := ins[..i] + ins[i + 1..];
      assert rest[1..] == ins[1..][..i - 1] + ins[1..][i..];
    }
  }

  lemma WithoutOne(ins: seq<seq<Level>>, i: nat)
    requires i < |ins|
    ensures multiset(ins[..i] + ins[i + 1..]) == multiset(ins) - multiset{ins[i]}
  {
    assert ins == ins[..i] + [ins[i]] + ins[i + 1..];
  }

  lemma SameWithout(ins: seq<seq<Level>>, jns: seq<seq<Level>>, i: nat)
    requires multiset(ins) == multiset(jns) && ins != [] && i < |jns| && jns[i] == ins[0]
    ensures multiset(ins[1..]) == multiset(jns[..i] + jns[i + 1..])
  {
    WithoutOne(jns, i);
    assert ins == [ins[0]] + ins[1..];
  }

  /** Where the first input stands in another order of the inputs. */
  lemma OccursIn(ins: seq<seq<Level>>, jns: seq<seq<Level>>) returns (i: nat)
    requires ins != [] && multiset(ins) == multiset(jns)
    ensures i < |jns| && jns[i] == ins[0]
  {
    assert ins[0] in multiset(jns);
    i :| 0 <= i < |jns| && jns[i] == ins[0];
  }

  lemma {:induction false} SumIgnoresOrder(ins: seq<seq<Level>>, jns: seq<seq<Level>>, p: int)
    requires multiset(ins) == multiset(jns)
    ensures SumAt(ins, p) == SumAt(jns, p)
  {
    if ins == [] {
      assert |multiset(jns)| == 0;
    } else {
      var i := OccursIn(ins, jns);
      SameWithout(ins, jns, i);
      SumWithout(jns, i, p);
      SumIgnoresOrder(ins[1..], jns[..i] + jns[i + 1..], p);
    }
  }

  lemma LaddersIgnoreOrder(desc: bool, ins: seq<seq<Level>>, jns: seq<seq<Level>>)
    requires multiset(ins) == multiset(jns) && Ladders(desc, ins)
    ensures Ladders(desc, jns)
  {
    forall i | 0 <= i < |jns| ensures Ladder(desc, jns[i]) {
      assert jns[i] in multiset(jns);
      assert jns[i] in ins;
    }
  }

  /** The consolidated ladder is the same for every order of the venues. */
  lemma MergeIgnoresOrder(desc: bool, ins: seq<seq<Level>>, jns: seq<seq<Level>>)
    requires multiset(ins) == multiset(jns) && Ladders(desc, ins)
    ensures Ladders(desc, jns) && FullMerge(desc, ins) == FullMerge(desc, jns)
  {
    LaddersIgnoreOrder(desc, ins, jns);
    var m, k := Total(ins), Total(jns);
    forall p ensures (p in m <==> p in k) && (p in m ==> m[p] == k[p]) {
      SumIgnoresOrder(ins, jns, p);
      ListedIffPositive(desc, ins, p);
      ListedIffPositive(desc, jns, p);
    }
    assert m.Keys == k.Keys;
    assert m == k;
  }

  // ----- conservation

  lemma {:induction false} TotalQtyCons(x: Level, t: seq<Level>)
    ensures TotalQty([x] + t) == x.qty + TotalQty(t)
  {
    if t == [] {
      assert [x] + t == [x] && [x][..0] == [];
    } else {
      TotalQtyCons(x, t[..|t| - 1]);
      assert ([x] + t)[..|t|] == [x] + t[..|t| - 1];
    }
  }

  /** Everything resting in all inputs together. */
  function GrandTotal(ins: seq<seq<Level>>): int {
    if ins == [] then 0 else TotalQty(ins[0]) + GrandTotal(ins[1..])
  }

  function LevelCount(ins: seq<seq<Level>>): nat {
    if ins == [] then 0 else |ins[0]| + LevelCount(ins[1..])
  }

  /** A round moves exactly the quantity at the best price out of the inputs. */
  lemma {:induction false} GrandTotalDrop(desc: bool, ins: seq<seq<Level>>, b: int)
    requires Ladders(desc, ins) && NoneBetter(desc, ins, b)
    ensures GrandTotal(ins) == SumAt(ins, b) + GrandTotal(DropAll(ins, b))
    ensures LevelCount(DropAll(ins, b)) <= LevelCount(ins)
    ensures (exists i :: 0 <= i < |ins| && ins[i] != [] && ins[i][0].px == b) ==>
            LevelCount(DropAll(ins, b)) < LevelCount(ins)
  {
    if ins != [] {
      var s := ins[0];
      NetHead(desc, s, b, b);
      GrandTotalDrop(desc, ins[1..], b);
      assert DropAll(ins, b)[1..] == DropAll(ins[1..], b);
      if s != [] && s[0].px == b {
        TotalQtyCons(s[0], s[1..]);
        assert s == [s[0]] + s[1..];
      }
      if i :| 0 <= i < |ins| && ins[i] != [] && ins[i][0].px == b {
        assert i > 0 ==> ins[1..][i - 1] == ins[i];
      }
    }
  }

  /** A nonempty collection of ladders has a best head. */
  lemma {:induction false} HasBestHead(desc: bool, ins: seq<seq<Level>>) returns (b: int)
    requires exists i :: 0 <= i < |ins| && ins[i] != []
    ensures BestHead(desc, ins, b)
  {
    var s: seq<Level>, t: seq<seq<Level>> := ins[0], ins[1..];
    if exists i :: 0 <= i < |t| && t[i] != [] {
      b := HasBestHead(desc, t);
      var h :| 0 <= h < |t| && t[h] != [] && t[h][0].px == b;
      if s != [] && Better(desc, s[0].px, b) {
        b := s[0].px;
        assert ins[0] != [] && ins[0][0].px == b;
      } else {
        assert ins[h + 1] != [] && ins[h + 1][0].px == b;
      }
      forall i | 0 <= i < |ins| && ins[i] != [] ensures !Better(desc, ins[i][0].px, b) {
        assert i > 0 ==> ins[i] == t[i - 1];
      }
    } else {
      assert forall i :: 1 <= i < |ins| ==> ins[i] == t[i - 1];
      b := s[0].px;
      assert ins[0] != [] && ins[0][0].px == b;
    }
  }

  /** An untruncated merge holds exactly the quantity of all inputs together. */
  lemma {:induction false} MergeConservesQuantity(desc: bool, ins: seq<seq<Level>>)
    requires Ladders(desc, ins)
    ensures TotalQty(FullMerge(desc, ins)) == GrandTotal(ins)
    decreases LevelCount(ins)
  {
    if exists i :: 0 <= i < |ins| && ins[i] != [] {
      var b := HasBestHead(desc, ins);
      MergeRound(desc, ins, b);
      GrandTotalDrop(desc, ins, b);
      MergeConservesQuantity(desc, DropAll(ins, b));
      TotalQtyCons(Level(b, SumAt(ins, b)), FullMerge(desc, DropAll(ins, b)));
    } else {
      MergeNothing(desc, ins);
      NothingRests(ins);
    }
  }

  lemma {:induction false} NothingRests(ins: seq<seq<Level>>)
    requires forall i :: 0 <= i < |ins| ==> ins[i] == []
    ensures GrandTotal(ins) == 0
  {
    if ins != [] {
      NothingRests(ins[1..]);
    }
  }

  // ----- levels outside the published range

  function InsideAll(desc: bool, bound: int, ins: seq<seq<Level>>): (r: seq<seq<Level>>)
    ensures |r| == |ins| && forall i :: 0 <= i < |ins| ==> r[i] == Inside(desc, bound, ins[i])
  {
    seq(|ins|, i requires 0 <= i < |ins| => Inside(desc, bound, ins[i]))
  }

  /** Restricting a ladder keeps what is inside and nothing else. */
  lemma {:induction false} InsideNet(desc: bool, bound: int, s: seq<Level>, p: int)
    ensures LastAt(Inside(desc, bound, s), p) == if Within(desc, bound, p) then LastAt(s, p) else None
  {
    if s != [] {
      var n := |s| - 1;
      InsideNet(desc, bound, s[..n], p);
      LastAtConcat(Inside(desc, bound, s[..n]), [s[n]], p);
      LastAtCons(s[n], [], p);
      assert [s[n]] + [] == [s[n]];
    }
  }

  lemma InsideLadder(desc: bool, bound: int, s: seq<Level>)
    requires Ladder(desc, s)
    ensures Ladder(desc, Inside(desc, bound, s))
    ensures exists k :: 0 <= k <= |s| && Inside(desc, bound, s) == s[..k]
  {
    var k := 0;
    while k < |s| && Within(desc, bound, s[k].px)
      invariant 0 <= k <= |s| && forall i :: 0 <= i < k ==> Within(desc, bound, s[i].px)
    {
      k := k + 1;
    }
    InsideIsPrefix(desc, bound, s, k);
  }

  lemma {:induction false} InsideSum(desc: bool, bound: int, ins: seq<seq<Level>>, p: int)
    ensures SumAt(InsideAll(desc, bound, ins), p) == if Within(desc, bound, p) then SumAt(ins, p) else 0
  {
    if ins != [] {
      InsideNet(desc, bound, ins[0], p);
      InsideSum(desc, bound, ins[1..], p);
      assert InsideAll(desc, bound, ins)[1..] == InsideAll(desc, bound, ins[1..]);
    }
  }

  /** Restricting the merged ladder is merging the restricted inputs. */
  lemma InsideOfMerge(desc: bool, bound: int, ins: seq<seq<Level>>)
    requires Ladders(desc, ins)
    ensures Inside(desc, bound, FullMerge(desc, ins)) == FullMerge(desc, InsideAll(desc, bound, ins))
  {
    var f, jns := FullMerge(desc, ins), InsideAll(desc, bound, ins);
    var g := FullMerge(desc, jns);
    assert Ladders(desc, jns) by {
      forall i | 0 <= i < |jns| ensures Ladder(desc, jns[i]) {
        InsideLadder(desc, bound, ins[i]);
      }
    }
    FullMergeIsLadder(desc, ins);
    FullMergeIsLadder(desc, jns);
    InsideLadder(desc, bound, f);
    var h := Inside(desc, bound, f);
    forall p ensures Net(h, p) == Net(g, p) {
      InsideNet(desc, bound, f, p);
      InsideSum(desc, bound, ins, p);
      MergedNet(desc, ins, p);
      MergedNet(desc, jns, p);
    }
    SameNetSameMap(h, g);
    LadderCanonical(desc, h, g);
  }

  /** The merged ladder holds at each price the sum of the inputs. */
  lemma MergedNet(desc: bool, ins: seq<seq<Level>>, p: int)
    requires Ladders(desc, ins)
    ensures Net(FullMerge(desc, ins), p) == SumAt(ins, p)
  {
    var f := FullMerge(desc, ins);
    FullMergeIsLadder(desc, ins);
    ListedIffPositive(desc, ins, p);
    NetOfLadder(desc, f, p);
    if p in Total(ins) {
      assert Quotes(f, p);
      var k :| 0 <= k < |f| && f[k].px == p;
      LastAtUnique(f, k);
    }
  }

  /** The merge never goes past the inside prefix. */
  lemma StopsAtEdge(desc: bool, f: seq<Level>, limits: Limits, n: nat)
    requires Ladder(desc, f) && limits.maxBps > 0 && n <= |f|
    requires Inside(desc, BoundOf(desc, f, limits.maxBps), f) == f[..n]
    ensures Stops(desc, f, limits, n) && StopFrom(desc, f, limits, 0) <= n
  {
    if n < |f| {
      InsideKeeps(desc, BoundOf(desc, f, limits.maxBps), f, n, n);
    }
    assert Stops(desc, f, limits, n);
  }

  /** Up to its edge, the inside prefix is subject to the same rules as the whole ladder. */
  lemma SameRules(desc: bool, f: seq<Level>, limits: Limits, n: nat, j: nat)
    requires Ladder(desc, f) && limits.maxBps > 0 && 0 < n <= |f| && j <= n
    requires Inside(desc, BoundOf(desc, f, limits.maxBps), f) == f[..n]
    ensures Stops(desc, f[..n], limits, j) <==> Stops(desc, f, limits, j)
  {
    assert f[..n][..j] == f[..j] && f[..n][0] == f[0];
    StopsAtEdge(desc, f, limits, n);
  }

  /** With a price limit, the published levels are those of the ladder cut at the limit. */
  lemma PublishedIsInside(desc: bool, f: seq<Level>, limits: Limits)
    requires Ladder(desc, f) && Narrow(f) && limits.maxBps > 0
    ensures var g := Inside(desc, BoundOf(desc, f, limits.maxBps), f);
            && Published(desc, f, limits) == Published(desc, g, limits)
            && (f != [] ==> g != [] && g[0] == f[0])
  {
    var bound := BoundOf(desc, f, limits.maxBps);
    InsideLadder(desc, bound, f);
    var g := Inside(desc, bound, f);
    var n :| 0 <= n <= |f| && g == f[..n];
    if f != [] {
      OffsetIsOutward(f[0].px, limits.maxBps, desc);
      InsideKeeps(desc, bound, f, n, 0);
      var k := StopFrom(desc, f, limits, 0);
      StopsAtEdge(desc, f, limits, n);
      forall j | 0 <= j <= k ensures Stops(desc, g, limits, j) <==> Stops(desc, f, limits, j) {
        SameRules(desc, f, limits, n, j);
      }
      StopIsFirst(desc, g, limits, k);
      assert g[..k] == f[..k];
    }
  }

  /** A level is in the inside prefix exactly when it is inside. */
  lemma InsideKeeps(desc: bool, bound: int, f: seq<Level>, n: nat, i: nat)
    requires Ladder(desc, f) && n <= |f| && Inside(desc, bound, f) == f[..n] && i < |f|
    ensures Within(desc, bound, f[i].px) <==> i < n
  {
    InsideNet(desc, bound, f, f[i].px);
    LastAtUnique(f, i);
    LastAtNone(f[..n], f[i].px);
    if i < n {
      assert f[..n][i] == f[i];
    } else {
      assert forall j :: 0 <= j < n ==> Better(desc, f[j].px, f[i].px);
    }
  }

  /**
    Published ladders do not depend on far-away levels. With a price limit, inputs
    that agree inside the bound measured from the touch of the first publish the
    same ladder, whatever else they hold.
  */
  lemma FarLevelsHaveNoInfluence(desc: bool, ins: seq<seq<Level>>, jns: seq<seq<Level>>, limits: Limits)
    requires Ladders(desc, ins) && Ladders(desc, jns) && limits.maxBps > 0
    requires Narrow(FullMerge(desc, ins)) && Narrow(FullMerge(desc, jns))
    requires FullMerge(desc, ins) != []
    requires var bound := BoundOf(desc, FullMerge(desc, ins), limits.maxBps);
             InsideAll(desc, bound, ins) == InsideAll(desc, bound, jns)
    ensures Published(desc, FullMerge(desc, ins), limits) == Published(desc, FullMerge(desc, jns), limits)
  {
    var f, h := FullMerge(desc, ins), FullMerge(desc, jns);
    var bound := BoundOf(desc, f, limits.maxBps);
    FullMergeIsLadder(desc, ins);
    FullMergeIsLadder(desc, jns);
    InsideOfMerge(desc, bound, ins);
    InsideOfMerge(desc, bound, jns);
    PublishedIsInside(desc, f, limits);
    InsideLadder(desc, bound, h);
    var n :| 0 <= n <= |h| && Inside(desc, bound, h) == h[..n];
    assert h[0] == f[0];
    PublishedIsInside(desc, h, limits);
  }

  // ----- bands on the published ladder

  /** Whether the limits let the first m levels be published. */
  predicate Reaches(desc: bool, f: seq<Level>, limits: Limits, m: nat)
    requires m <= |f|
  {
    && (limits.maxLevels < 0 || m <= limits.maxLevels)
    && (limits.maxBps <= 0 || m <= |Inside(desc, BoundOf(desc, f, limits.maxBps), f)|)
    && (limits.notionalTarget <= 0 || m <= 1 || TotalNotional(f[..m - 1]) < limits.notionalTarget)
  }

  lemma InsideEdge(desc: bool, bound: int, f: seq<Level>) returns (n: nat)
    requires Ladder(desc, f)
    ensures n == |Inside(desc, bound, f)| <= |f| && Inside(desc, bound, f) == f[..n]
    ensures forall i :: 0 <= i < |f| ==> (Within(desc, bound, f[i].px) <==> i < n)
  {
    InsideLadder(desc, bound, f);
    n :| 0 <= n <= |f| && Inside(desc, bound, f) == f[..n];
    forall i | 0 <= i < |f| ensures Within(desc, bound, f[i].px) <==> i < n {
      InsideKeeps(desc, bound, f, n, i);
    }
  }

  /** How many levels are published. */
  lemma PublishedReaches(desc: bool, f: seq<Level>, limits: Limits, m: nat)
    requires Ladder(desc, f) && m <= |f|
    ensures m <= |Published(desc, f, limits)| <==> Reaches(desc, f, limits, m)
  {
    var n := InsideEdge(desc, BoundOf(desc, f, limits.maxBps), f);
    var k := StopFrom(desc, f, limits, 0);
    if m > k && limits.notionalTarget > 0 {
      NotionalMono(f, k, m - 1);
    }
    if 0 < m <= k {
      assert !Stops(desc, f, limits, m - 1);
    }
  }

  /** Where only the price limit binds, what is published is what is inside it. */
  lemma OnlyPriceLimit(desc: bool, f: seq<Level>, limits: Limits)
    requires Ladder(desc, f) && limits.maxBps > 0 && limits.notionalTarget <= 0
    requires limits.maxLevels < 0 || |Inside(desc, BoundOf(desc, f, limits.maxBps), f)| <= limits.maxLevels
    ensures Published(desc, f, limits) == Inside(desc, BoundOf(desc, f, limits.maxBps), f)
  {
    var n := InsideEdge(desc, BoundOf(desc, f, limits.maxBps), f);
    PublishedReaches(desc, f, limits, n);
    StopsAtEdge(desc, f, limits, n);
  }

  /** The levels of a published prefix inside a bound. */
  lemma InsidePrefix(desc: bool, bound: int, f: seq<Level>, k: nat)
    requires Ladder(desc, f) && k <= |f|
    ensures var m := |Inside(desc, bound, f)|;
            m <= |f| && Inside(desc, bound, f[..k]) == f[..if m < k then m else k]
  {
    var m := InsideEdge(desc, bound, f);
    var n := if m < k then m else k;
    InsideIsPrefix(desc, bound, f[..k], n);
    assert f[..k][..n] == f[..n];
  }

  /**
    When a price band on the published ladder has the bound, quantity, notional,
    average and level count it has on the full merge: exactly when every level inside
    the band is within the limits. `depth limited` can only become true.
  */
  lemma BandsSurviveTheCut(desc: bool, f: seq<Level>, limits: Limits, offset: int)
    requires Ladder(desc, f) && Narrow(f)
    ensures var cut, full := PriceBandOf(desc, Published(desc, f, limits), offset), PriceBandOf(desc, f, offset);
            var m := |Inside(desc, BoundOf(desc, f, offset), f)|;
            && m <= |f| && (cut.(depthLimited := full.depthLimited) == full <==> Reaches(desc, f, limits, m))
            && (full.depthLimited ==> cut.depthLimited)
  {
    var g, bound := Published(desc, f, limits), BoundOf(desc, f, offset);
    var m := InsideEdge(desc, bound, f);
    PublishedReaches(desc, f, limits, m);
    InsidePrefix(desc, bound, f, |g|);
    if f != [] {
      OffsetIsOutward(f[0].px, offset, desc);
      assert m > 0;
      assert g != [] ==> BoundOf(desc, g, offset) == bound;
    }
  }
}
