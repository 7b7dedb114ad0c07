/**
  One side of one venue's book (src/core/book.cc): a sorted vector with two ways
  of applying changes, both of which are the map update of module Levels.
*/
module SideBooks {
  import opened Levels

  /** Below this many changes a batch is applied one by one; from here on it is merged. */
  const BATCH_MERGE_THRESHOLD: nat := 8

  // ----- stable sort

  /** Weakly ordered from the touch outward: equal prices may be adjacent. */
  ghost predicate WeaklyBestFirst(desc: bool, s: seq<Level>) {
    forall i, j :: 0 <= i < j < |s| ==> !Better(desc, s[j].px, s[i].px)
  }

  /** Inserts behind every level that is not strictly worse. */
  function InsertStable(desc: bool, s: seq<Level>, x: Level): seq<Level> {
    if s == [] || !Better(desc, x.px, s[|s| - 1].px) then s + [x]
    else InsertStable(desc, s[..|s| - 1], x) + [s[|s| - 1]]
  }

  /** The stable sort by price, best first. */
  function StableSort(desc: bool, v: seq<Level>): seq<Level> {
    if v == [] then [] else InsertStable(desc, StableSort(desc, v[..|v| - 1]), v[|v| - 1])
  }

  lemma {:induction false} InsertStableElements(desc: bool, s: seq<Level>, x: Level)
    ensures multiset(InsertStable(desc, s, x)) == multiset(s) + multiset{x}
  {
    if s != [] && Better(desc, x.px, s[|s| - 1].px) {
      InsertStableElements(desc, s[..|s| - 1], x);
      assert s == s[..|s| - 1] + [s[|s| - 1]];
    }
  }

  lemma {:induction false} InsertStableSorted(desc: bool, s: seq<Level>, x: Level)
    requires WeaklyBestFirst(desc, s)
    ensures WeaklyBestFirst(desc, InsertStable(desc, s, x))
  {
    var n := |s| - 1;
    if s != [] && Better(desc, x.px, s[n].px) {
      var t := InsertStable(desc, s[..n], x);
      InsertStableSorted(desc, s[..n], x);
      InsertStableElements(desc, s[..n], x);
      forall i | 0 <= i < |t| ensures !Better(desc, s[n].px, t[i].px) {
        assert t[i] in multiset(t);
        assert t[i] == x || t[i] in s[..n];
      }
    }
  }

  /** The inserted level is the last one at its price, and no other price notices. */
  lemma {:induction false} InsertStableLast(desc: bool, s: seq<Level>, x: Level, p: int)
    ensures LastAt(InsertStable(desc, s, x), p) == if p == x.px then Some(x.qty) else LastAt(s, p)
  {
    var n := |s| - 1;
    if s == [] || !Better(desc, x.px, s[n].px) {
      LastAtConcat(s, [x], p);
    } else {
      InsertStableLast(desc, s[..n], x, p);
      LastAtConcat(InsertStable(desc, s[..n], x), [s[n]], p);
    }
  }

  lemma {:induction false} StableSortSorts(desc: bool, v: seq<Level>)
    ensures WeaklyBestFirst(desc, StableSort(desc, v))
    ensures multiset(StableSort(desc, v)) == multiset(v)
  {
    if v != [] {
      var n := |v| - 1;
      StableSortSorts(desc, v[..n]);
      InsertStableSorted(desc, StableSort(desc, v[..n]), v[n]);
      InsertStableElements(desc, StableSort(desc, v[..n]), v[n]);
      assert v == v[..n] + [v[n]];
    }
  }

  lemma {:induction false} StableSortLast(desc: bool, v: seq<Level>, p: int)
    ensures LastAt(StableSort(desc, v), p) == LastAt(v, p)
  {
    if v != [] {
      var n := |v| - 1;
      StableSortLast(desc, v[..n], p);
      InsertStableLast(desc, StableSort(desc, v[..n]), v[n], p);
    }
  }

  /** Sorting orders the prices and keeps, for each price, its last entry. */
  lemma StableSortKeepsLast(desc: bool, v: seq<Level>)
    ensures WeaklyBestFirst(desc, StableSort(desc, v))
    ensures multiset(StableSort(desc, v)) == multiset(v)
    ensures forall p :: LastAt(StableSort(desc, v), p) == LastAt(v, p)
  {
    StableSortSorts(desc, v);
    forall p ensures LastAt(StableSort(desc, v), p) == LastAt(v, p) {
      StableSortLast(desc, v, p);
    }
  }

  // ----- last entry of each price

  /** Collapses every run of equal prices to its last entry. */
  function Dedupe(s: seq<Level>): seq<Level> {
    if |s| < 2 then s
    else if s[0].px == s[1].px then Dedupe(s[1..])
    else [s[0]] + Dedupe(s[1..])
  }

  /** On a sorted list, collapsing runs leaves distinct prices and changes no last entry. */
  lemma {:induction false} DedupeKeepsLast(desc: bool, s: seq<Level>)
    requires WeaklyBestFirst(desc, s) && Gated(s)
    ensures BestFirst(desc, Dedupe(s)) && Gated(Dedupe(s))
    ensures forall p :: LastAt(Dedupe(s), p) == LastAt(s, p)
    ensures forall b :: Beyond(desc, s, b) ==> Beyond(desc, Dedupe(s), b)
  {
    if |s| >= 2 {
      var t := s[1..];
      DedupeKeepsLast(desc, t);
      assert s == [s[0]] + t;
      forall b | Beyond(desc, s, b) ensures Beyond(desc, t, b) {
        assert forall k :: 0 <= k < |t| ==> t[k] == s[k + 1];
      }
      forall p ensures LastAt(Dedupe(s), p) == LastAt(s, p) {
        LastAtCons(s[0], t, p);
        LastAtCons(s[0], Dedupe(t), p);
        LastAtNone(t, p);
        assert t[0] == s[1];
      }
      if s[0].px != s[1].px {
        assert Beyond(desc, t, s[0].px) by {
          assert forall k :: 0 <= k < |t| ==> t[k] == s[k + 1];
        }
        BestFirstCons(desc, s[0], Dedupe(t));
      }
    }
  }

  /**
    Sorts a list of changes and keeps the last occurrence of each price, with a
    write index trailing a read index over the same vector.
  */
  method SortBestFirstLastWins(desc: bool, changes: seq<Level>) returns (v: seq<Level>)
    requires Gated(changes)
    ensures BestFirst(desc, v) && Gated(v)
    ensures forall p :: LastAt(v, p) == LastAt(changes, p)
  {
    v := StableSort(desc, changes);
    ghost var sorted := v;
    var write, read := 0, 0;
    while read < |v|
      invariant 0 <= write <= read <= |v| == |sorted|
      invariant v[read..] == sorted[read..]
      invariant v[..write] + Dedupe(sorted[read..]) == Dedupe(sorted)
    {
      var next := read;
      while next < |v| && v[next].px == v[read].px
        invariant read <= next <= |v|
        invariant next > read ==> v[next - 1].px == v[read].px
        invariant next > read ==> Dedupe(sorted[read..]) == Dedupe(sorted[next - 1..])
      {
        if next > read {
          DedupeRun(v, sorted, read, next);
        }
        next := next + 1;
      }
      DedupeRunEnd(v, sorted, read, next);
      assert (v[..write] + [v[next - 1]]) + Dedupe(sorted[next..]) == Dedupe(sorted);
      assert v[write := v[next - 1]][..write + 1] == v[..write] + [v[next - 1]];
      assert v[next..] == sorted[next..];
      v := v[write := v[next - 1]];
      assert v[next..] == sorted[next..];
      write, read := write + 1, next;
    }
    v := v[..write];
    assert v == Dedupe(sorted);
    StableSortKeepsLast(desc, changes);
    StableSortGated(desc, changes);
    DedupeKeepsLast(desc, sorted);
  }

  lemma StableSortGated(desc: bool, v: seq<Level>)
    requires Gated(v)
    ensures Gated(StableSort(desc, v))
  {
    StableSortKeepsLast(desc, v);
    var s := StableSort(desc, v);
    forall i | 0 <= i < |s| ensures s[i].px > 0 && s[i].qty >= 0 {
      assert s[i] in multiset(s);
      assert s[i] in v;
    }
  }

  /** Reading one more entry of a run does not change what the run collapses to. */
  lemma DedupeRun(v: seq<Level>, sorted: seq<Level>, read: nat, next: nat)
    requires read < next < |v| == |sorted|
    requires v[read..] == sorted[read..]
    requires v[next - 1].px == v[next].px
    ensures Dedupe(sorted[next - 1..]) == Dedupe(sorted[next..])
  {
  }

  /** At the end of a run its last entry is kept. */
  lemma DedupeRunEnd(v: seq<Level>, sorted: seq<Level>, read: nat, next: nat)
    requires read < next <= |v| == |sorted|
    requires v[read..] == sorted[read..]
    requires next < |v| ==> v[next].px != v[next - 1].px
    ensures Dedupe(sorted[next - 1..]) == [v[next - 1]] + Dedupe(sorted[next..])
  {
  }

  // ----- single changes on a ladder

  /** The ladder with one level put at position k, replacing `drop` levels. */
  function Spliced(s: seq<Level>, k: nat, drop: nat, put: seq<Level>): seq<Level>
    requires k + drop <= |s|
  {
    s[..k] + put + s[k + drop..]
  }

  /** Insertion, replacement and removal at the lower bound are the map update. */
  lemma SpliceIsApplyLevel(desc: bool, s: seq<Level>, k: nat, x: Level)
    requires Ladder(desc, s) && k <= |s| && x.px > 0 && x.qty >= 0
    requires forall i :: 0 <= i < k ==> Better(desc, s[i].px, x.px)
    requires forall i :: k <= i < |s| ==> !Better(desc, s[i].px, x.px)
    ensures var hit := k < |s| && s[k].px == x.px;
            var t := Spliced(s, k, if hit then 1 else 0, if x.qty == 0 then [] else [x]);
            Ladder(desc, t) && AsMap(t) == ApplyLevel(AsMap(s), x)
  {
    var drop := if k < |s| && s[k].px == x.px then 1 else 0;
    var put := if x.qty == 0 then [] else [x];
    var t := Spliced(s, k, drop, put);
    SpliceLadder(desc, s, k, drop, x, put);
    forall p ensures Net(t, p) == Net(s + [x], p) {
      SpliceNet(s, k, drop, x, put, p);
    }
    SameNetSameMap(t, s + [x]);
    assert (s + [x])[..|s|] == s;
  }

  /** How many leading levels are better than the price: the insertion position. */
  function Position(desc: bool, s: seq<Level>, px: int): (k: nat)
    ensures k <= |s|
    ensures forall i :: 0 <= i < k ==> Better(desc, s[i].px, px)
    ensures k < |s| ==> !Better(desc, s[k].px, px)
  {
    if s == [] || !Better(desc, s[0].px, px) then 0
    else
      assert forall i :: 1 <= i < |s| ==> s[i] == s[1..][i - 1];
      1 + Position(desc, s[1..], px)
  }

  lemma PositionUnique(desc: bool, s: seq<Level>, px: int, k: nat)
    requires k <= |s|
    requires forall i :: 0 <= i < k ==> Better(desc, s[i].px, px)
    requires k < |s| ==> !Better(desc, s[k].px, px)
    ensures k == Position(desc, s, px)
  {
  }

  /** The ladder after one absolute change. */
  function Updated(desc: bool, s: seq<Level>, x: Level): seq<Level> {
    var k := Position(desc, s, x.px);
    Spliced(s, k, if k < |s| && s[k].px == x.px then 1 else 0, if x.qty == 0 then [] else [x])
  }

  /** The vector operation each case of a change comes down to. */
  lemma UpdatedAt(desc: bool, s: seq<Level>, x: Level, k: nat)
    requires k == Position(desc, s, x.px)
    ensures Updated(desc, s, x) ==
            if k < |s| && s[k].px == x.px then (if x.qty == 0 then s[..k] + s[k + 1..] else s[k := x])
            else if x.qty != 0 then s[..k] + [x] + s[k..] else s
  {
    if k < |s| && s[k].px == x.px && x.qty != 0 {
      assert s[k := x] == s[..k] + [x] + s[k + 1..];
    }
  }

  /** The ladder after a list of changes applied one after the other. */
  function OneByOne(desc: bool, s: seq<Level>, changes: seq<Level>): seq<Level> {
    if changes == [] then s
    else Updated(desc, OneByOne(desc, s, changes[..|changes| - 1]), changes[|changes| - 1])
  }

  /** One change keeps the ladder invariant and is the map update. */
  lemma UpdatedIsApplyLevel(desc: bool, s: seq<Level>, x: Level)
    requires Ladder(desc, s) && x.px > 0 && x.qty >= 0
    ensures Ladder(desc, Updated(desc, s, x))
    ensures AsMap(Updated(desc, s, x)) == ApplyLevel(AsMap(s), x)
  {
    SpliceIsApplyLevel(desc, s, Position(desc, s, x.px), x);
  }

  lemma {:induction false} OneByOneIsApplyLevels(desc: bool, s: seq<Level>, changes: seq<Level>)
    requires Ladder(desc, s) && Gated(changes)
    ensures Ladder(desc, OneByOne(desc, s, changes))
    ensures AsMap(OneByOne(desc, s, changes)) == ApplyLevels(AsMap(s), changes)
  {
    if changes != [] {
      var n := |changes| - 1;
      OneByOneIsApplyLevels(desc, s, changes[..n]);
      UpdatedIsApplyLevel(desc, OneByOne(desc, s, changes[..n]), changes[n]);
    }
  }

  lemma SpliceLadder(desc: bool, s: seq<Level>, k: nat, drop: nat, x: Level, put: seq<Level>)
    requires Ladder(desc, s) && k + drop <= |s| && x.px > 0 && x.qty >= 0
    requires put == if x.qty == 0 then [] else [x]
    requires forall i :: 0 <= i < k ==> Better(desc, s[i].px, x.px)
    requires forall i :: k + drop <= i < |s| ==> Better(desc, x.px, s[i].px)
    ensures Ladder(desc, Spliced(s, k, drop, put))
  {
  }

  lemma SpliceNet(s: seq<Level>, k: nat, drop: nat, x: Level, put: seq<Level>, p: int)
    requires k + drop <= |s| && drop <= 1 && (drop == 1 ==> s[k].px == x.px)
    requires put == if x.qty == 0 then [] else [x]
    requires forall i :: 0 <= i < k || k + drop <= i < |s| ==> s[i].px != x.px
    ensures Net(Spliced(s, k, drop, put), p) == Net(s + [x], p)
  {
    var a, mid, c := s[..k], s[k..k + drop], s[k + drop..];
    assert s == (a + mid) + c;
    LastAtConcat(a + mid, c, p);
    LastAtConcat(a, mid, p);
    LastAtConcat(a + put, c, p);
    LastAtConcat(a, put, p);
    LastAtConcat(s, [x], p);
    LastAtNone(a, p);
    LastAtNone(c, p);
    LastAtNone(mid, p);
    LastAtNone([x], p);
  }

  // ----- the linear merge

  /** The list without its zero quantities. */
  function DropZeros(v: seq<Level>): seq<Level> {
    if v == [] then []
    else if v[0].qty == 0 then DropZeros(v[1..])
    else [v[0]] + DropZeros(v[1..])
  }

  /** The two-index merge of a ladder with sorted, distinct changes. */
  function Merged(desc: bool, a: seq<Level>, b: seq<Level>): seq<Level>
    decreases |a| + |b|
  {
    if b == [] then a
    else if a == [] then DropZeros(b)
    else if a[0].px == b[0].px then
      (if b[0].qty != 0 then [b[0]] else []) + Merged(desc, a[1..], b[1..])
    else if Better(desc, a[0].px, b[0].px) then [a[0]] + Merged(desc, a[1..], b)
    else (if b[0].qty != 0 then [b[0]] else []) + Merged(desc, a, b[1..])
  }

  /** On distinct prices, dropping the zeros leaves a ladder with the same net effect. */
  lemma {:induction false} DropZerosLadder(desc: bool, v: seq<Level>)
    requires BestFirst(desc, v) && Gated(v)
    ensures Ladder(desc, DropZeros(v))
    ensures forall p :: Net(DropZeros(v), p) == Net(v, p)
    ensures forall q :: Beyond(desc, v, q) ==> Beyond(desc, DropZeros(v), q)
  {
    if v != [] {
      var x, t := v[0], v[1..];
      assert v == [x] + t;
      BestFirstTail(desc, v);
      DropZerosLadder(desc, t);
      BestFirstCons(desc, x, DropZeros(t));
      forall p ensures Net(DropZeros(v), p) == Net(v, p) {
        ConsNet(desc, x, t, DropZeros(t), p);
      }
    }
  }

  /** A head in front of two lists beyond it keeps their net effects equal. */
  lemma ConsNet(desc: bool, x: Level, s: seq<Level>, t: seq<Level>, p: int)
    requires Beyond(desc, s, x.px) && Beyond(desc, t, x.px)
    requires Net(s, p) == Net(t, p)
    ensures Net([x] + s, p) == Net([x] + t, p) == if p == x.px then x.qty else Net(s, p)
    ensures x.qty == 0 ==> Net([x] + s, p) == Net(t, p)
  {
    LastAtCons(x, s, p);
    LastAtCons(x, t, p);
    if p == x.px {
      BeyondNone(desc, s, x.px, p);
      BeyondNone(desc, t, x.px, p);
    }
  }

  /** A round of the merge: the level it decides, and what it leaves. */
  function RoundOf(desc: bool, a: seq<Level>, b: seq<Level>): (Level, seq<Level>, seq<Level>)
    requires a != [] && b != []
  {
    if a[0].px == b[0].px then (b[0], a[1..], b[1..])
    else if Better(desc, a[0].px, b[0].px) then (a[0], a[1..], b)
    else (b[0], a, b[1..])
  }

  /** A round decides the best price of both lists and leaves lists beyond it. */
  lemma RoundIsBest(desc: bool, a: seq<Level>, b: seq<Level>)
    requires Ladder(desc, a) && BestFirst(desc, b) && Gated(b) && a != [] && b != []
    ensures var (x, a', b') := RoundOf(desc, a, b);
            && Ladder(desc, a') && BestFirst(desc, b') && Gated(b') && |a'| + |b'| < |a| + |b|
            && Beyond(desc, a', x.px) && Beyond(desc, b', x.px)
            && Merged(desc, a, b) == if x.qty != 0 then [x] + Merged(desc, a', b') else Merged(desc, a', b')
  {
    BestFirstTail(desc, a);
    BestFirstTail(desc, b);
  }

  lemma RoundWithin(desc: bool, a: seq<Level>, b: seq<Level>, q: int)
    requires a != [] && b != [] && Beyond(desc, a, q) && Beyond(desc, b, q)
    ensures var (x, a', b') := RoundOf(desc, a, b);
            Better(desc, q, x.px) && Beyond(desc, a', q) && Beyond(desc, b', q)
  {
  }

  /** The merge is a ladder no better than either input. */
  lemma {:induction false} MergedLadder(desc: bool, a: seq<Level>, b: seq<Level>)
    requires Ladder(desc, a) && BestFirst(desc, b) && Gated(b)
    ensures Ladder(desc, Merged(desc, a, b))
    ensures forall q :: Beyond(desc, a, q) && Beyond(desc, b, q) ==> Beyond(desc, Merged(desc, a, b), q)
    decreases |a| + |b|
  {
    if b == [] {
    } else if a == [] {
      DropZerosLadder(desc, b);
    } else {
      var (x, a', b') := RoundOf(desc, a, b);
      RoundIsBest(desc, a, b);
      MergedLadder(desc, a', b');
      BestFirstCons(desc, x, Merged(desc, a', b'));
      forall q | Beyond(desc, a, q) && Beyond(desc, b, q) ensures Beyond(desc, Merged(desc, a, b), q) {
        RoundWithin(desc, a, b, q);
      }
    }
  }

  /** The merge has the net effect of the ladder followed by the changes. */
  lemma {:induction false} MergedNet(desc: bool, a: seq<Level>, b: seq<Level>, p: int)
    requires Ladder(desc, a) && BestFirst(desc, b) && Gated(b)
    ensures Net(Merged(desc, a, b), p) == if LastAt(b, p).Some? then Net(b, p) else Net(a, p)
    decreases |a| + |b|
  {
    if b == [] {
    } else if a == [] {
      DropZerosLadder(desc, b);
    } else {
      var (x, a', b') := RoundOf(desc, a, b);
      RoundIsBest(desc, a, b);
      assert a == [a[0]] + a[1..] && b == [b[0]] + b[1..];
      LastAtCons(a[0], a[1..], p);
      LastAtCons(b[0], b[1..], p);
      MergedNet(desc, a', b', p);
      MergedLadder(desc, a', b');
      var rest := Merged(desc, a', b');
      if p == x.px {
        BeyondNone(desc, a', x.px, p);
        BeyondNone(desc, b', x.px, p);
        BeyondNone(desc, rest, x.px, p);
      }
      ConsNet(desc, x, rest, rest, p);
    }
  }

  /**
    The merge path is indistinguishable from the one-by-one path: from the same
    ladder, changes that agree on the last entry of every price give the same
    sequence of levels.
  */
  lemma MergedIsOneByOne(desc: bool, s: seq<Level>, changes: seq<Level>, deltas: seq<Level>)
    requires Ladder(desc, s) && BestFirst(desc, changes) && Gated(changes) && Gated(deltas)
    requires forall p :: LastAt(changes, p) == LastAt(deltas, p)
    ensures Merged(desc, s, changes) == OneByOne(desc, s, deltas)
  {
    MergedLadder(desc, s, changes);
    MergedIsApplyLevels(desc, s, changes);
    SameLastSameEffect(AsMap(s), changes, deltas);
    OneByOneIsApplyLevels(desc, s, deltas);
    LadderCanonical(desc, Merged(desc, s, changes), OneByOne(desc, s, deltas));
  }

  /** Dropping zeros from sorted changes is folding the changes into an empty ladder. */
  lemma DropZerosIsOneByOne(desc: bool, changes: seq<Level>, snapshot: seq<Level>)
    requires BestFirst(desc, changes) && Gated(changes) && Gated(snapshot)
    requires forall p :: LastAt(changes, p) == LastAt(snapshot, p)
    ensures DropZeros(changes) == OneByOne(desc, [], snapshot)
  {
    MergedIsOneByOne(desc, [], changes, snapshot);
  }

  /** The next round of the two-index merge, in front of what has been produced so far. */
  lemma MergedStep(desc: bool, levels: seq<Level>, changes: seq<Level>, i: nat, j: nat, out: seq<Level>)
    requires i < |levels| && j < |changes|
    ensures var x, y := levels[i], changes[j];
            var took := if y.qty != 0 then out + [y] else out;
            out + Merged(desc, levels[i..], changes[j..]) ==
            if x.px == y.px then took + Merged(desc, levels[i + 1..], changes[j + 1..])
            else if Better(desc, x.px, y.px) then (out + [x]) + Merged(desc, levels[i + 1..], changes[j..])
            else took + Merged(desc, levels[i..], changes[j + 1..])
  {
  }

  /** The merge is the map update. */
  lemma MergedIsApplyLevels(desc: bool, a: seq<Level>, b: seq<Level>)
    requires Ladder(desc, a) && BestFirst(desc, b) && Gated(b)
    ensures AsMap(Merged(desc, a, b)) == ApplyLevels(AsMap(a), b)
  {
    forall p ensures Net(Merged(desc, a, b), p) == Net(a + b, p) {
      MergedNet(desc, a, b, p);
      LastAtConcat(a, b, p);
    }
    SameNetSameMap(Merged(desc, a, b), a + b);
    ApplyLevelsConcat(map[], a, b);
  }

  /** The merge loop: two cursors over the levels and the changes, then the two tails. */
  method MergeLoop(desc: bool, levels: seq<Level>, changes: seq<Level>) returns (scratch: seq<Level>)
    ensures scratch == Merged(desc, levels, changes)
  {
    scratch := [];
    var i, j := 0, 0;
    ghost var goal := Merged(desc, levels, changes);
    assert levels[0..] == levels && changes[0..] == changes;
    while i < |levels| && j < |changes|
      invariant i <= |levels| && j <= |changes|
      invariant scratch + Merged(desc, levels[i..], changes[j..]) == goal
      decreases |levels| - i + |changes| - j
    {
      MergedStep(desc, levels, changes, i, j, scratch);
      if levels[i].px == changes[j].px {
        if changes[j].qty != 0 {
          scratch := scratch + [changes[j]];
        }
        i, j := i + 1, j + 1;
      } else if Better(desc, levels[i].px, changes[j].px) {
        scratch := scratch + [levels[i]];
        i := i + 1;
      } else {
        if changes[j].qty != 0 {
          scratch := scratch + [changes[j]];
        }
        j := j + 1;
      }
    }
    scratch := AppendTails(desc, levels, changes, i, j, scratch);
  }

  /** Once one cursor is done: the remaining levels, then the remaining insertions. */
  method AppendTails(desc: bool, levels: seq<Level>, changes: seq<Level>, i: nat, j0: nat, out: seq<Level>)
    returns (scratch: seq<Level>)
    requires i <= |levels| && j0 <= |changes| && (i == |levels| || j0 == |changes|)
    ensures scratch == out + Merged(desc, levels[i..], changes[j0..])
  {
    scratch := out + levels[i..];
    var j := j0;
    ghost var goal := scratch + DropZeros(changes[j..]);
    assert goal == out + (levels[i..] + DropZeros(changes[j..]));
    assert levels[i..] + DropZeros(changes[j..]) == Merged(desc, levels[i..], changes[j..]);
    while j < |changes|
      invariant j <= |changes|
      invariant scratch + DropZeros(changes[j..]) == goal
    {
      assert changes[j..][1..] == changes[j + 1..];
      if changes[j].qty != 0 {
        scratch := scratch + [changes[j]];
      }
      j := j + 1;
    }
  }

  class SideBook {
    const desc: bool
    var levels: seq<Level>
    var scratch: seq<Level>

    /** What every method keeps: the levels form a ladder. */
    ghost predicate Valid()
      reads this
    {
      Ladder(desc, levels)
    }

    /** The map this side stands for. */
    ghost function Depth(): Depth
      reads this
    {
      AsMap(levels)
    }

    constructor (desc: bool)
      ensures this.desc == desc && Valid() && levels == [] && Depth() == map[]
    {
      this.desc := desc;
      levels := [];
      scratch := [];
    }

    /** The first position not better than the price, by bisection. */
    method LowerBound(px: int) returns (k: nat)
      requires Valid()
      ensures k == Position(desc, levels, px)
    {
      var lo, hi := 0, |levels|;
      while lo < hi
        invariant 0 <= lo <= hi <= |levels|
        invariant forall i :: 0 <= i < lo ==> Better(desc, levels[i].px, px)
        invariant forall i :: hi <= i < |levels| ==> !Better(desc, levels[i].px, px)
      {
        var mid := (lo + hi) / 2;
        if Better(desc, levels[mid].px, px) {
          lo := mid + 1;
        } else {
          hi := mid;
        }
      }
      k := lo;
      PositionUnique(desc, levels, px, k);
    }

    /** One absolute change; quantity zero removes the level. */
    method Apply(px: int, qty: int)
      requires Valid() && px > 0 && qty >= 0
      modifies this`levels
      ensures Valid()
      ensures levels == Updated(desc, old(levels), Level(px, qty))
      ensures Depth() == ApplyLevel(old(Depth()), Level(px, qty))
    {
      UpdatedIsApplyLevel(desc, levels, Level(px, qty));
      var k := LowerBound(px);
      UpdatedAt(desc, levels, Level(px, qty), k);
      if k < |levels| && levels[k].px == px {
        if qty == 0 {
          levels := levels[..k] + levels[k + 1..];
        } else {
          levels := levels[k := Level(px, qty)];
        }
      } else if qty != 0 {
        levels := levels[..k] + [Level(px, qty)] + levels[k..];
      }
    }

    /** The short path of a batch: one binary-search update per change. */
    method ApplyEach(deltas: seq<Level>)
      requires Valid() && Gated(deltas)
      modifies this`levels
      ensures levels == OneByOne(desc, old(levels), deltas)
    {
      for n := 0 to |deltas|
        invariant Valid()
        invariant levels == OneByOne(desc, old(levels), deltas[..n])
      {
        assert deltas[..n + 1][..n] == deltas[..n];
        Apply(deltas[n].px, deltas[n].qty);
      }
      assert deltas[..|deltas|] == deltas;
    }

    /** A batch of changes: one by one below the threshold, by linear merge from it on. */
    method ApplyBatch(deltas: seq<Level>)
      requires Valid() && Gated(deltas)
      modifies this
      ensures Valid()
      ensures levels == OneByOne(desc, old(levels), deltas)
      ensures Depth() == ApplyLevels(old(Depth()), deltas)
    {
      OneByOneIsApplyLevels(desc, levels, deltas);
      if |deltas| == 0 {
        return;
      }
      if |deltas| < BATCH_MERGE_THRESHOLD {
        ApplyEach(deltas);
        return;
      }
      var changes := SortBestFirstLastWins(desc, deltas);
      MergedIsOneByOne(desc, levels, changes, deltas);
      scratch := MergeLoop(desc, levels, changes);
      levels, scratch := scratch, levels;
    }

    /** A snapshot replaces everything: the last entry of each price, zeros removed. */
    method Replace(snapshot: seq<Level>)
      requires Gated(snapshot)
      modifies this`levels
      ensures Valid()
      ensures levels == OneByOne(desc, [], snapshot)
      ensures Depth() == ApplyLevels(map[], snapshot)
    {
      var v := SortBestFirstLastWins(desc, snapshot);
      DropZerosIsOneByOne(desc, v, snapshot);
      OneByOneIsApplyLevels(desc, [], snapshot);
      levels := DropZeros(v);
    }

    /** The self-check that runs in debug builds, exact in both directions. */
    method Invariant() returns (ok: bool)
      ensures ok <==> Valid()
    {
      var i := 0;
      while i < |levels|
        invariant 0 <= i <= |levels|
        invariant Ladder(desc, levels[..i])
      {
        if levels[i].qty <= 0 || levels[i].px <= 0 {
          return false;
        }
        if i > 0 && !Better(desc, levels[i - 1].px, levels[i].px) {
          return false;
        }
        assert forall k :: 0 <= k < i ==> levels[..i + 1][k] == levels[..i][k];
        assert i > 0 ==> levels[..i + 1][i - 1] == levels[i - 1];
        i := i + 1;
      }
      assert levels[..i] == levels;
      return true;
    }
  }
}
