/**
  Price levels and the plain map they stand for.

  A side of a book is, abstractly, a finite map from price to resting quantity.
  Every fast form in the program (the sorted vector of a venue book, the merged
  ladder) is compared with this map.
*/
module Levels {

  datatype Option<+T> = None | Some(value: T)

  /** A price and an absolute quantity, both scaled by 1e8. */
  datatype Level = Level(px: int, qty: int)

  /** What rests on one side: price to quantity. */
  type Depth = map<int, int>

  /** Whether a ladder lists price a before price b. */
  predicate Better(desc: bool, a: int, b: int) {
    if desc then a > b else a < b
  }

  /** Strictly ordered from the touch outward, so no price occurs twice. */
  ghost predicate BestFirst(desc: bool, s: seq<Level>) {
    forall i, j :: 0 <= i < j < |s| ==> Better(desc, s[i].px, s[j].px)
  }

  /** What the level gate of the parser lets through: a price, and a quantity or a removal. */
  predicate Gated(s: seq<Level>) {
    forall i :: 0 <= i < |s| ==> s[i].px > 0 && s[i].qty >= 0
  }

  /** A list of levels as a venue's parser lets it through. */
  type GatedLevels = s: seq<Level> | Gated(s)

  /** Resting liquidity: positive prices and positive quantities. */
  predicate Resting(s: seq<Level>) {
    forall i :: 0 <= i < |s| ==> s[i].px > 0 && s[i].qty > 0
  }

  /** The ladder invariant of one side. */
  ghost predicate Ladder(desc: bool, s: seq<Level>) {
    BestFirst(desc, s) && Resting(s)
  }

  // ----- level changes on maps

  /** One absolute level change; quantity zero removes the level. */
  function ApplyLevel(m: Depth, l: Level): Depth {
    if l.qty == 0 then m - {l.px} else m[l.px := l.qty]
  }

  /** Level changes applied one after the other. */
  function ApplyLevels(m: Depth, ls: seq<Level>): Depth {
    if ls == [] then m else ApplyLevel(ApplyLevels(m, ls[..|ls| - 1]), ls[|ls| - 1])
  }

  /** The map a sequence of levels stands for. */
  function AsMap(ls: seq<Level>): Depth {
    ApplyLevels(map[], ls)
  }

  /** The last quantity a list of changes carries for a price, if any. */
  function LastAt(ls: seq<Level>, p: int): Option<int> {
    if ls == [] then None
    else if ls[|ls| - 1].px == p then Some(ls[|ls| - 1].qty)
    else LastAt(ls[..|ls| - 1], p)
  }

  /** The quantity at a price, zero when nothing rests there. */
  function QtyAt(m: Depth, p: int): int {
    if p in m then m[p] else 0
  }

  // ----- pointwise laws

  /** A list of changes acts on each price by its last entry for that price alone. */
  lemma {:induction false} ApplyLevelsAt(m: Depth, ls: seq<Level>, p: int)
    ensures LastAt(ls, p).None? ==> (p in ApplyLevels(m, ls) <==> p in m)
    ensures LastAt(ls, p).None? && p in m ==> ApplyLevels(m, ls)[p] == m[p]
    ensures LastAt(ls, p).Some? ==> (p in ApplyLevels(m, ls) <==> LastAt(ls, p).value != 0)
    ensures LastAt(ls, p).Some? && LastAt(ls, p).value != 0 ==> ApplyLevels(m, ls)[p] == LastAt(ls, p).value
  {
    if ls != [] {
      ApplyLevelsAt(m, ls[..|ls| - 1], p);
    }
  }

  /** Two lists with the same last entry at every price have the same effect on every map. */
  lemma SameLastSameEffect(m: Depth, a: seq<Level>, b: seq<Level>)
    requires forall p :: LastAt(a, p) == LastAt(b, p)
    ensures ApplyLevels(m, a) == ApplyLevels(m, b)
  {
    var x, y := ApplyLevels(m, a), ApplyLevels(m, b);
    forall p ensures (p in x <==> p in y) && (p in x ==> x[p] == y[p]) {
      ApplyLevelsAt(m, a, p);
      ApplyLevelsAt(m, b, p);
    }
    assert x.Keys == y.Keys;
  }

  lemma {:induction false} ApplyLevelsConcat(m: Depth, a: seq<Level>, b: seq<Level>)
    ensures ApplyLevels(m, a + b) == ApplyLevels(ApplyLevels(m, a), b)
    decreases |b|
  {
    if b == [] {
      assert a + b == a;
    } else {
      var c := a + b;
      assert c[..|c| - 1] == a + b[..|b| - 1];
      ApplyLevelsConcat(m, a, b[..|b| - 1]);
    }
  }

  lemma {:induction false} LastAtConcat(a: seq<Level>, b: seq<Level>, p: int)
    ensures LastAt(a + b, p) == if LastAt(b, p).Some? then LastAt(b, p) else LastAt(a, p)
    decreases |b|
  {
    if b == [] {
      assert a + b == a;
    } else {
      var c := a + b;
      assert c[..|c| - 1] == a + b[..|b| - 1];
      LastAtConcat(a, b[..|b| - 1], p);
    }
  }

  /** No entry for a price means no last entry, and conversely. */
  lemma {:induction false} LastAtNone(ls: seq<Level>, p: int)
    ensures LastAt(ls, p).None? <==> forall i :: 0 <= i < |ls| ==> ls[i].px != p
  {
    if ls != [] {
      var n := |ls| - 1;
      LastAtNone(ls[..n], p);
      assert forall i :: 0 <= i < n ==> ls[..n][i] == ls[i];
    }
  }

  /** In a list without repeated prices every entry is the last one for its price. */
  lemma {:induction false} LastAtUnique(ls: seq<Level>, i: nat)
    requires i < |ls|
    requires forall j :: 0 <= j < |ls| && j != i ==> ls[j].px != ls[i].px
    ensures LastAt(ls, ls[i].px) == Some(ls[i].qty)
  {
    var n := |ls| - 1;
    if i < n {
      assert ls[..n][i] == ls[i];
      LastAtUnique(ls[..n], i);
    }
  }

  /** Some level of the list rests at the price. */
  ghost predicate Quotes(s: seq<Level>, p: int) {
    exists i :: 0 <= i < |s| && s[i].px == p
  }

  /** The list shows exactly the map's prices, each with the map's quantity. */
  ghost predicate Lists(s: seq<Level>, m: Depth) {
    && (forall i :: 0 <= i < |s| ==> s[i].px in m && m[s[i].px] == s[i].qty)
    && (forall p :: p in m ==> Quotes(s, p))
  }

  /** The map of a ladder holds exactly the ladder's levels. */
  lemma LadderMap(desc: bool, s: seq<Level>)
    requires BestFirst(desc, s) && forall i :: 0 <= i < |s| ==> s[i].qty != 0
    ensures Lists(s, AsMap(s))
  {
    forall i | 0 <= i < |s| ensures s[i].px in AsMap(s) && AsMap(s)[s[i].px] == s[i].qty {
      LastAtUnique(s, i);
      ApplyLevelsAt(map[], s, s[i].px);
    }
    forall p | p in AsMap(s) ensures Quotes(s, p) {
      ApplyLevelsAt(map[], s, p);
      LastAtNone(s, p);
    }
  }

  // ----- lists by their net effect

  /** The quantity a list of changes leaves at a price when it starts from nothing. */
  function Net(ls: seq<Level>, p: int): int {
    match LastAt(ls, p)
    case None => 0
    case Some(q) => q
  }

  /** The map of a list is its net effect, price by price. */
  lemma NetIsAsMap(ls: seq<Level>, p: int)
    ensures p in AsMap(ls) <==> Net(ls, p) != 0
    ensures QtyAt(AsMap(ls), p) == Net(ls, p)
  {
    ApplyLevelsAt(map[], ls, p);
  }

  /** Lists with the same net effect stand for the same map. */
  lemma SameNetSameMap(a: seq<Level>, b: seq<Level>)
    requires forall p :: Net(a, p) == Net(b, p)
    ensures AsMap(a) == AsMap(b)
  {
    var x, y := AsMap(a), AsMap(b);
    forall p ensures (p in x <==> p in y) && (p in x ==> x[p] == y[p]) {
      NetIsAsMap(a, p);
      NetIsAsMap(b, p);
      assert QtyAt(x, p) == QtyAt(y, p);
    }
    assert x.Keys == y.Keys;
  }

  // ----- ladders built from the front

  /** Every level of the list is strictly worse than the price. */
  ghost predicate Beyond(desc: bool, s: seq<Level>, b: int) {
    forall k :: 0 <= k < |s| ==> Better(desc, b, s[k].px)
  }

  /** Putting a level in front of a list keeps the order exactly when the list is beyond it. */
  lemma BestFirstCons(desc: bool, x: Level, t: seq<Level>)
    ensures BestFirst(desc, [x] + t) <==> BestFirst(desc, t) && Beyond(desc, t, x.px)
  {
    var s := [x] + t;
    assert forall k :: 0 <= k < |t| ==> s[k + 1] == t[k];
    if BestFirst(desc, s) {
      forall i, j | 0 <= i < j < |t| ensures Better(desc, t[i].px, t[j].px) {
        assert Better(desc, s[i + 1].px, s[j + 1].px);
      }
      forall k | 0 <= k < |t| ensures Better(desc, x.px, t[k].px) {
        assert Better(desc, s[0].px, s[k + 1].px);
      }
    }
  }

  /** The tail of an ordered list is ordered and beyond its head. */
  lemma BestFirstTail(desc: bool, s: seq<Level>)
    requires BestFirst(desc, s) && s != []
    ensures BestFirst(desc, s[1..]) && Beyond(desc, s[1..], s[0].px)
  {
  }

  lemma LastAtCons(x: Level, t: seq<Level>, p: int)
    ensures LastAt([x] + t, p) ==
            if LastAt(t, p).Some? then LastAt(t, p) else if x.px == p then Some(x.qty) else None
  {
    LastAtConcat([x], t, p);
    assert [x][..0] == [];
  }

  /** Nothing rests at or before the price. */
  lemma BeyondNone(desc: bool, s: seq<Level>, b: int, p: int)
    requires Beyond(desc, s, b) && !Better(desc, b, p)
    ensures LastAt(s, p).None?
  {
  }

  // ----- the canonical ladder of a map

  /** A price no other price of the set is better than. */
  ghost predicate IsBest(desc: bool, ps: set<int>, b: int) {
    b in ps && forall p :: p in ps && p != b ==> Better(desc, b, p)
  }

  lemma {:induction false} BestExists(desc: bool, ps: set<int>, x: int)
    requires x in ps
    ensures exists b :: IsBest(desc, ps, b)
    decreases |ps|
  {
    var rest := ps - {x};
    if y :| y in rest {
      BestExists(desc, rest, y);
      var b :| IsBest(desc, rest, b);
      var c := if Better(desc, x, b) then x else b;
      forall p | p in ps && p != c ensures Better(desc, c, p) {
        assert p == x || p in rest;
      }
      assert IsBest(desc, ps, c);
    } else {
      assert forall p :: p in ps && p != x ==> p in rest;
      assert IsBest(desc, ps, x);
    }
  }

  /** The best price of a nonempty set. */
  ghost function BestOf(desc: bool, ps: set<int>): (b: int)
    requires exists x :: x in ps
    ensures IsBest(desc, ps, b)
  {
    var x :| x in ps;
    BestExists(desc, ps, x);
    var b :| IsBest(desc, ps, b);
    b
  }

  /** The levels of a map, sorted from the touch outward. */
  ghost function SortedOf(desc: bool, m: Depth): seq<Level>
    decreases |m|
  {
    if exists x :: x in m.Keys then
      var b := BestOf(desc, m.Keys);
      assert (m - {b}).Keys == m.Keys - {b};
      [Level(b, m[b])] + SortedOf(desc, m - {b})
    else []
  }

  /** The sorted listing starts with the best price. */
  lemma SortedOfStep(desc: bool, m: Depth, b: int)
    requires IsBest(desc, m.Keys, b)
    ensures SortedOf(desc, m) == [Level(b, m[b])] + SortedOf(desc, m - {b})
  {
  }

  /** The sorted listing is a best-first listing of the map. */
  lemma {:induction false} SortedOfLists(desc: bool, m: Depth)
    ensures BestFirst(desc, SortedOf(desc, m)) && Lists(SortedOf(desc, m), m)
    decreases |m|
  {
    if exists x :: x in m.Keys {
      var b := BestOf(desc, m.Keys);
      var rest := m - {b};
      assert rest.Keys == m.Keys - {b};
      SortedOfLists(desc, rest);
      ListsPush(desc, m, b, SortedOf(desc, rest));
    }
  }

  lemma ListsPush(desc: bool, m: Depth, b: int, t: seq<Level>)
    requires IsBest(desc, m.Keys, b)
    requires BestFirst(desc, t) && Lists(t, m - {b})
    ensures BestFirst(desc, [Level(b, m[b])] + t) && Lists([Level(b, m[b])] + t, m)
  {
    var s := [Level(b, m[b])] + t;
    forall i | 1 <= i < |s| ensures s[i] == t[i - 1] && s[i].px in m.Keys && s[i].px != b {
      assert t[i - 1].px in m - {b};
    }
    forall p | p in m ensures Quotes(s, p) {
      if p == b {
        assert s[0].px == p;
      } else {
        assert p in m - {b};
        var i :| 0 <= i < |t| && t[i].px == p;
        assert s[i + 1].px == p;
      }
    }
  }

  /** A best-first listing of a map is the map's sorted listing: there is only one. */
  lemma {:induction false} ListingIsSortedOf(desc: bool, s: seq<Level>, m: Depth)
    requires BestFirst(desc, s) && Lists(s, m)
    ensures s == SortedOf(desc, m)
    decreases |s|
  {
    if s != [] {
      assert s[0].px in m.Keys;
      var b := BestOf(desc, m.Keys);
      assert Quotes(s, b);
      assert s[0].px == b;
      RestLists(desc, s, m);
      ListingIsSortedOf(desc, s[1..], m - {b});
    }
  }

  /** Without its first level a listing lists the map without that price. */
  lemma RestLists(desc: bool, s: seq<Level>, m: Depth)
    requires BestFirst(desc, s) && Lists(s, m) && s != []
    ensures BestFirst(desc, s[1..]) && Lists(s[1..], m - {s[0].px})
  {
    var rest := m - {s[0].px};
    forall p | p in rest ensures Quotes(s[1..], p) {
      assert Quotes(s, p);
      var i :| 0 <= i < |s| && s[i].px == p;
      assert s[1..][i - 1].px == p;
    }
    assert forall i :: 1 <= i < |s| ==> Better(desc, s[0].px, s[i].px);
  }

  /** Equal maps have equal ladders, level for level. */
  lemma LadderCanonical(desc: bool, s: seq<Level>, t: seq<Level>)
    requires Ladder(desc, s) && Ladder(desc, t)
    requires AsMap(s) == AsMap(t)
    ensures s == t
  {
    LadderMap(desc, s);
    LadderMap(desc, t);
    ListingIsSortedOf(desc, s, AsMap(s));
    ListingIsSortedOf(desc, t, AsMap(t));
  }

}
