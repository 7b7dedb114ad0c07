/**
  Client-supplied band thresholds (src/aggregator/service.cc).
*/
module Service {
  import opened Levels
  import opened Bands

  const MAX_BANDS: nat := 32

  /** Inserts behind every smaller or equal value. */
  function Inserted(s: seq<int>, x: int): seq<int> {
    if s == [] || s[|s| - 1] <= x then s + [x] else Inserted(s[..|s| - 1], x) + [s[|s| - 1]]
  }

  function Sorted(s: seq<int>): seq<int> {
    if s == [] then [] else Inserted(Sorted(s[..|s| - 1]), s[|s| - 1])
  }

  lemma {:induction false} InsertedElements(s: seq<int>, x: int)
    ensures multiset(Inserted(s, x)) == multiset(s) + multiset{x}
  {
    if s != [] && s[|s| - 1] > x {
      InsertedElements(s[..|s| - 1], x);
      assert s == s[..|s| - 1] + [s[|s| - 1]];
    }
  }

  /** No value inserted or inserted into exceeds a common bound. */
  lemma InsertedBelow(s: seq<int>, x: int, y: int)
    requires x <= y && forall i :: 0 <= i < |s| ==> s[i] <= y
    ensures forall i :: 0 <= i < |Inserted(s, x)| ==> Inserted(s, x)[i] <= y
  {
  }

  lemma {:induction false} InsertedIsOrdered(s: seq<int>, x: int)
    requires Ascending(s)
    ensures Ascending(Inserted(s, x))
  {
    if s != [] && s[|s| - 1] > x {
      InsertedIsOrdered(s[..|s| - 1], x);
      InsertedBelow(s[..|s| - 1], x, s[|s| - 1]);
    }
  }

  lemma {:induction false} SortedIsOrdered(s: seq<int>)
    ensures Ascending(Sorted(s)) && multiset(Sorted(s)) == multiset(s)
  {
    if s != [] {
      var n := |s| - 1;
      SortedIsOrdered(s[..n]);
      InsertedIsOrdered(Sorted(s[..n]), s[n]);
      InsertedElements(Sorted(s[..n]), s[n]);
      assert s == s[..n] + [s[n]];
    }
  }

  predicate AllPositive(s: seq<int>) {
    forall i :: 0 <= i < |s| ==> s[i] > 0
  }

  ghost predicate Distinct(s: seq<int>) {
    forall x :: multiset(s)[x] <= 1
  }

  ghost predicate StrictlyAscending(s: seq<int>) {
    forall i, j :: 0 <= i < j < |s| ==> s[i] < s[j]
  }

  /** On an ordered list, repeats are adjacent. */
  lemma {:induction false} StrictIsDistinct(s: seq<int>)
    requires StrictlyAscending(s)
    ensures Distinct(s)
  {
    if s != [] {
      var n := |s| - 1;
      StrictIsDistinct(s[..n]);
      assert s == s[..n] + [s[n]];
      forall x ensures multiset(s)[x] <= 1 {
        assert multiset(s[..n])[x] <= 1;
        assert s[n] !in s[..n];
      }
    }
  }

  lemma RepeatIsNotDistinct(s: seq<int>, i: nat)
    requires i + 1 < |s| && s[i] == s[i + 1]
    ensures !Distinct(s)
  {
    var a, c := s[..i], s[i + 2..];
    assert s == a + ([s[i], s[i + 1]] + c);
    assert multiset(s) == multiset(a) + (multiset([s[i], s[i + 1]]) + multiset(c));
    assert multiset([s[i], s[i + 1]])[s[i]] == 2;
    assert multiset(s)[s[i]] >= 2;
  }

  /**
    An empty request gets the defaults. Any other is accepted exactly when it has at
    most 32 values, all positive and none repeated, and comes back in strictly
    ascending order with the same values - what the band walk relies on.
  */
  method NormaliseBands(requested: seq<int>, defaults: seq<int>) returns (r: Option<seq<int>>)
    ensures requested == [] ==> r == Some(defaults)
    ensures requested != [] ==>
            (r.Some? <==> |requested| <= MAX_BANDS && AllPositive(requested) && Distinct(requested))
    ensures requested != [] && r.Some? ==>
            StrictlyAscending(r.value) && Ascending(r.value) && multiset(r.value) == multiset(requested)
  {
    if |requested| == 0 {
      return Some(defaults);
    }
    if |requested| > MAX_BANDS {
      return None;
    }
    for i := 0 to |requested|
      invariant forall j :: 0 <= j < i ==> requested[j] > 0
    {
      if requested[i] <= 0 {
        return None;
      }
    }
    var sorted := Sorted(requested);
    SortedIsOrdered(requested);
    var repeats := HasRepeat(sorted);
    if repeats {
      return None;
    }
    r := Some(sorted);
  }

  /** Looks for two equal neighbours. */
  method HasRepeat(sorted: seq<int>) returns (repeats: bool)
    requires Ascending(sorted)
    ensures repeats <==> !Distinct(sorted)
    ensures !repeats ==> StrictlyAscending(sorted)
  {
    var i := 1;
    while i < |sorted|
      invariant 1 <= i && forall j, k :: 0 <= j < k < i && k < |sorted| ==> sorted[j] < sorted[k]
    {
      if sorted[i - 1] == sorted[i] {
        RepeatIsNotDistinct(sorted, i - 1);
        return true;
      }
      i := i + 1;
    }
    StrictIsDistinct(sorted);
    repeats := false;
  }
}
