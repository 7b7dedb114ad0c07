/**
  The single-producer single-consumer ring (src/core/spsc_ring.h). Counters are
  64-bit and wrap; slots are addressed by masking a counter.
*/
module Ring {
  import opened Levels

  /** Counters live modulo 2^64. */
  const WRAP: nat := 0x1_0000_0000_0000_0000

  function Pow2(k: nat): (r: nat)
    ensures r > 0
  {
    if k == 0 then 1 else 2 * Pow2(k - 1)
  }

  // ----- masking

  /** Bitwise conjunction, bit by bit from the low end. */
  function BitAnd(a: nat, b: nat): nat
    decreases a
  {
    if a == 0 || b == 0 then 0 else 2 * BitAnd(a / 2, b / 2) + (if a % 2 == 1 && b % 2 == 1 then 1 else 0)
  }

  lemma MulStep(b: nat, x: int, y: int)
    requires x < y
    ensures b * x + b <= b * y
  {
    var d := y - x - 1;
    assert b * d >= 0;
    assert b * (x + 1 + d) == b * x + b + b * d;
  }

  lemma ModUnique(a: int, b: int, q: int, r: int)
    requires b > 0 && a == b * q + r && 0 <= r < b
    ensures a % b == r
  {
    var q', r' := a / b, a % b;
    assert a == b * q' + r' && 0 <= r' < b;
    if q > q' {
      MulStep(b, q', q);
    } else if q < q' {
      MulStep(b, q, q');
    }
  }

  lemma ModHalves(a: nat, c: nat)
    requires c > 0
    ensures a % (2 * c) == 2 * ((a / 2) % c) + a % 2
  {
    var h := a / 2;
    var q, r := h / c, h % c;
    assert h == c * q + r;
    assert 2 * (c * q) == (2 * c) * q;
    ModUnique(a, 2 * c, q, 2 * r + a % 2);
  }

  /** Masking with a power of two less one is the remainder: why the capacity is rounded up. */
  lemma {:induction false} MaskIsMod(a: nat, k: nat)
    ensures BitAnd(a, Pow2(k) - 1) == a % Pow2(k)
    decreases k
  {
    if k > 0 {
      var c := Pow2(k - 1);
      MaskIsMod(a / 2, k - 1);
      ModHalves(a, c);
      MaskStep(a, c);
    }
  }

  lemma MaskStep(a: nat, c: nat)
    requires c > 0
    ensures BitAnd(a, 2 * c - 1) == 2 * BitAnd(a / 2, c - 1) + a % 2
  {
    assert (2 * c - 1) / 2 == c - 1 && (2 * c - 1) % 2 == 1;
  }

  lemma {:induction false} Pow2Divides(k: nat, n: nat)
    requires k <= n
    ensures exists m: nat :: Pow2(n) == Pow2(k) * m
    decreases n
  {
    if k == n {
      assert Pow2(n) == Pow2(k) * 1;
    } else {
      Pow2Divides(k, n - 1);
      var m: nat :| Pow2(n - 1) == Pow2(k) * m;
      assert Pow2(n) == Pow2(k) * (2 * m);
    }
  }

  lemma Pow2Sixty()
    ensures Pow2(63) * 2 == WRAP == Pow2(64)
  {
    assert Pow2(8) == 256;
    assert Pow2(16) == 0x1_0000;
    assert Pow2(24) == 0x100_0000;
    assert Pow2(32) == 0x1_0000_0000;
    assert Pow2(40) == 0x100_0000_0000;
    assert Pow2(48) == 0x1_0000_0000_0000;
    assert Pow2(56) == 0x100_0000_0000_0000;
    assert Pow2(64) == WRAP;
  }

  lemma {:induction false} Pow2Mono(k: nat, n: nat)
    requires k <= n
    ensures Pow2(k) <= Pow2(n)
    decreases n
  {
    if k < n {
      Pow2Mono(k, n - 1);
    }
  }

  /** The capacities a ring can have. */
  ghost predicate IsCapacity(cap: nat) {
    exists k: nat :: k <= 63 && cap == Pow2(k)
  }

  lemma ModOfMod(n: nat, w: nat, cap: nat, m: nat)
    requires cap > 0 && m > 0 && w == cap * m
    ensures w > 0 && (n % w) % cap == n % cap
  {
    MulStep(cap, 0, m);
    var q, r := n / w, n % w;
    assert n == w * q + r;
    var q', r' := r / cap, r % cap;
    assert r == cap * q' + r';
    assert w * q == cap * (m * q) by { assert (cap * m) * q == cap * (m * q); }
    assert cap * (m * q) + cap * q' == cap * (m * q + q');
    ModUnique(n, cap, m * q + q', r');
  }

  /** A wrapped counter addresses the same slot as the count it stands for. */
  lemma SlotOfWrapped(n: nat, cap: nat)
    requires IsCapacity(cap)
    ensures cap > 0 && cap < WRAP && BitAnd(n % WRAP, cap - 1) == n % cap
  {
    var k: nat :| k <= 63 && cap == Pow2(k);
    MaskIsMod(n % WRAP, k);
    Pow2Sixty();
    Pow2Mono(k, 63);
    Pow2Divides(k, 64);
    var m: nat :| Pow2(64) == Pow2(k) * m;
    ModOfMod(n, WRAP, cap, m);
  }

  /** Two counts less than a capacity apart use different slots. */
  lemma SlotsDiffer(i: nat, j: nat, cap: nat)
    requires i < j < i + cap
    ensures i % cap != j % cap
  {
    var q, q' := i / cap, j / cap;
    assert i == cap * q + i % cap && j == cap * q' + j % cap;
    if q < q' {
      MulStep(cap, q, q');
    } else if q' < q {
      MulStep(cap, q', q);
    }
  }

  /** The distance of two wrapped counters is the distance of the counts. */
  lemma WrappedDistance(head: nat, tail: nat, cap: nat)
    requires tail <= head <= tail + cap && cap < WRAP
    ensures (head % WRAP - tail % WRAP) % WRAP == head - tail
    ensures head % WRAP == tail % WRAP <==> head == tail
  {
  }

  /** One after i shifts to the left in 64 bits. */
  function Shifted(i: nat): (r: nat)
    ensures r < WRAP
  {
    if i == 0 then 1 else (2 * Shifted(i - 1)) % WRAP
  }

  /** A shift doubles up to 2^63, then the bit is lost. */
  lemma {:induction false} DoublingFits(k: nat)
    requires k <= 63
    ensures Pow2(k) <= WRAP / 2 && (k == 63 ==> Pow2(k) == WRAP / 2)
  {
    Pow2Sixty();
    Pow2Mono(k, 63);
  }

  lemma {:induction false} ShiftedDoubles(i: nat)
    requires i <= 63
    ensures Shifted(i) == Pow2(i)
  {
    if i > 0 {
      ShiftedDoubles(i - 1);
      DoublingFits(i);
      assert Pow2(i) == 2 * Pow2(i - 1);
      ShiftOnce(Pow2(i - 1));
    }
  }

  lemma {:induction false} ShiftedVanishes(i: nat)
    requires i > 63
    ensures Shifted(i) == 0
  {
    if i == 64 {
      ShiftedDoubles(i - 1);
      DoublingFits(i - 1);
      ShiftOnce(Shifted(i - 1));
    } else {
      ShiftedVanishes(i - 1);
    }
  }

  lemma ShiftOnce(x: nat)
    requires x <= WRAP / 2
    ensures (2 * x) % WRAP == if x == WRAP / 2 then 0 else 2 * x
  {
  }

  /** Some number of shifts reaches the request. */
  ghost predicate RoundingEnds(v: nat) {
    exists i: nat :: Shifted(i) >= v
  }

  /** The rounding loop ends exactly for requests up to 2^63; beyond, the shifted value becomes zero and stays so. */
  lemma RoundingEndsIff(v: nat)
    ensures RoundingEnds(v) <==> v <= WRAP / 2
  {
    var last := 63;
    ShiftedDoubles(last);
    DoublingFits(last);
    if RoundingEnds(v) {
      var i: nat :| Shifted(i) >= v;
      if i <= 63 {
        ShiftedDoubles(i);
        DoublingFits(i);
      } else {
        ShiftedVanishes(i);
      }
    } else {
      assert Shifted(last) < v;
    }
  }

  /** The constructor's rounding, for every request on which its loop ends. */
  method RoundUpPow2(v: nat) returns (p: nat)
    requires RoundingEnds(v)
    ensures IsCapacity(p) && v <= p && (v > 0 ==> p < 2 * v) && (v == 0 ==> p == 1)
  {
    RoundingEndsIff(v);
    p := 1;
    ghost var k: nat := 0;
    while p < v
      invariant p == Pow2(k) && k <= 63 && (v > 0 ==> p < 2 * v) && (v == 0 ==> p == 1)
      decreases v - p
    {
      DoublingFits(k);
      p := (2 * p) % WRAP;
      k := k + 1;
    }
  }

  // ----- interleaved steps

  /** Where the producer is in a push; `h` is its loaded head counter. */
  datatype Producer<T> = PIdle | PBegun(v: T) | PLoaded(v: T, h: nat) | PGranted(v: T, h: nat) | PStored(v: T, h: nat)

  /** Where the consumer is in a pop; `t` is its loaded tail counter. */
  datatype Consumer<T> = CIdle | CLoaded(t: nat) | CGranted(t: nat) | CTaken(v: T, t: nat)

  /**
    The shared ring with both threads. `pushed` and `popped` are the histories of
    completed pushes and pops; a slot that was moved out of holds None.
  */
  datatype State<T> = State(
    cap: nat, head: nat, tail: nat, slots: seq<Option<T>>,
    p: Producer<T>, c: Consumer<T>, pushed: seq<T>, popped: seq<T>)

  /** One atomic access (or the start of a call) of one of the threads. */
  datatype Step<T> = BeginPush(v: T) | LoadHead | CheckTail | WriteSlot | StoreHead | LoadTail | CheckHead | ReadSlot | StoreTail

  /** The slot of a counter: the counter masked with the capacity less one. */
  function Index(counter: nat, cap: nat): nat {
    if cap == 0 then 0 else BitAnd(counter, cap - 1)
  }

  /** A step of a thread that is elsewhere does nothing. */
  function Next<T>(s: State<T>, step: Step<T>): State<T> {
    match step
    case BeginPush(v) => if s.p.PIdle? then s.(p := PBegun(v)) else s
    case LoadHead => if s.p.PBegun? then s.(p := PLoaded(s.p.v, s.head)) else s
    case CheckTail =>
      if !s.p.PLoaded? then s
      else if (s.p.h - s.tail) % WRAP >= s.cap then s.(p := PIdle)
      else s.(p := PGranted(s.p.v, s.p.h))
    case WriteSlot => if s.p.PGranted? then Written(s) else s
    case StoreHead =>
      if !s.p.PStored? then s
      else s.(head := (s.p.h + 1) % WRAP, p := PIdle, pushed := s.pushed + [s.p.v])
    case LoadTail => if s.c.CIdle? then s.(c := CLoaded(s.tail)) else s
    case CheckHead =>
      if !s.c.CLoaded? then s
      else if s.c.t == s.head then s.(c := CIdle)
      else s.(c := CGranted(s.c.t))
    case ReadSlot => if s.c.CGranted? then Taken(s) else s
    case StoreTail =>
      if !s.c.CTaken? then s
      else s.(tail := (s.c.t + 1) % WRAP, c := CIdle, popped := s.popped + [s.c.v])
  }

  function Written<T>(s: State<T>): State<T>
    requires s.p.PGranted?
  {
    var i := Index(s.p.h, s.cap);
    if i < |s.slots| then s.(slots := s.slots[i := Some(s.p.v)], p := PStored(s.p.v, s.p.h)) else s
  }

  function Taken<T>(s: State<T>): State<T>
    requires s.c.CGranted?
  {
    var i := Index(s.c.t, s.cap);
    if i < |s.slots| && s.slots[i].Some? then s.(slots := s.slots[i := None], c := CTaken(s.slots[i].value, s.c.t)) else s
  }

  // ----- what every interleaving keeps

  /** The counters and what each thread knows about them. */
  ghost predicate Counted<T>(s: State<T>) {
    var h, t := |s.pushed|, |s.popped|;
    && IsCapacity(s.cap) && s.cap > 0 && |s.slots| == s.cap
    && s.head == h % WRAP && s.tail == t % WRAP
    && t <= h <= t + s.cap
    && s.popped == s.pushed[..t]
    && (s.p.PLoaded? ==> s.p.h == s.head)
    && (s.p.PGranted? || s.p.PStored? ==> s.p.h == s.head && h < t + s.cap)
    && (s.c.CLoaded? ==> s.c.t == s.tail)
    && (s.c.CGranted? || s.c.CTaken? ==> s.c.t == s.tail && t < h)
    && (s.c.CTaken? ==> s.c.v == s.pushed[t])
  }

  /** What the slot of count k holds: unread between tail and head, free beyond. */
  ghost function Held<T>(s: State<T>, k: nat): Option<T>
    requires |s.popped| <= k && |s.popped| <= |s.pushed|
  {
    if k < |s.pushed| then
      if k == |s.popped| && s.c.CTaken? then None else Some(s.pushed[k])
    else
      if k == |s.pushed| && s.p.PStored? then Some(s.p.v) else None
  }

  ghost predicate Slotted<T>(s: State<T>)
    requires Counted(s)
  {
    forall k :: |s.popped| <= k < |s.popped| + s.cap ==> s.slots[k % s.cap] == Held(s, k)
  }

  ghost predicate Inv<T>(s: State<T>) {
    Counted(s) && Slotted(s)
  }

  function Empty<T>(cap: nat): State<T> {
    State(cap, 0, 0, seq(cap, i => None), PIdle, CIdle, [], [])
  }

  lemma EmptyInv<T>(cap: nat)
    requires IsCapacity(cap)
    ensures Inv(Empty<T>(cap))
  {
  }

  /** Changing the slot of one count in the window leaves the others alone. */
  lemma OneSlot<T>(s: State<T>, n: nat)
    requires Counted(s) && |s.popped| <= n < |s.popped| + s.cap
    ensures forall k :: |s.popped| <= k < |s.popped| + s.cap && k != n ==> k % s.cap != n % s.cap
  {
    forall k | |s.popped| <= k < |s.popped| + s.cap && k != n ensures k % s.cap != n % s.cap {
      if k < n {
        SlotsDiffer(k, n, s.cap);
      } else {
        SlotsDiffer(n, k, s.cap);
      }
    }
  }

  lemma WriteKeeps<T>(s: State<T>)
    requires Inv(s) && s.p.PGranted?
    ensures Written(s).p.PStored? && Inv(Written(s))
  {
    var h := |s.pushed|;
    SlotOfWrapped(h, s.cap);
    OneSlot(s, h);
    var s' := Written(s);
    assert s'.slots == s.slots[h % s.cap := Some(s.p.v)];
    forall k | |s.popped| <= k < |s.popped| + s.cap ensures s'.slots[k % s.cap] == Held(s', k) {
      assert s.slots[k % s.cap] == Held(s, k);
    }
  }

  lemma TakeKeeps<T>(s: State<T>)
    requires Inv(s) && s.c.CGranted?
    ensures Taken(s).c.CTaken? && Inv(Taken(s))
  {
    var t := |s.popped|;
    SlotOfWrapped(t, s.cap);
    OneSlot(s, t);
    assert s.slots[t % s.cap] == Held(s, t) == Some(s.pushed[t]);
  }

  lemma NextWrapped(n: nat)
    ensures (n % WRAP + 1) % WRAP == (n + 1) % WRAP
  {
  }

  lemma StoreHeadKeeps<T>(s: State<T>)
    requires Inv(s) && s.p.PStored?
    ensures Inv(s.(head := (s.p.h + 1) % WRAP, p := PIdle, pushed := s.pushed + [s.p.v]))
  {
    NextWrapped(|s.pushed|);
    var s' := s.(head := (s.p.h + 1) % WRAP, p := PIdle, pushed := s.pushed + [s.p.v]);
    assert s'.pushed[..|s.popped|] == s.pushed[..|s.popped|];
    forall k | |s.popped| <= k < |s.popped| + s.cap ensures Held(s', k) == Held(s, k) {}
  }

  /** A count one lap ahead uses the same slot. */
  lemma NextLap(n: nat, cap: nat)
    requires cap > 0
    ensures (n + cap) % cap == n % cap
  {
    assert n == cap * (n / cap) + n % cap;
    assert cap * (n / cap + 1) == cap * (n / cap) + cap;
    ModUnique(n + cap, cap, n / cap + 1, n % cap);
  }

  /** The state after the consumer's store. */
  ghost function Released<T>(s: State<T>): State<T>
    requires s.c.CTaken?
  {
    s.(tail := (s.c.t + 1) % WRAP, c := CIdle, popped := s.popped + [s.c.v])
  }

  lemma ReleasedCounted<T>(s: State<T>)
    requires Counted(s) && s.c.CTaken?
    ensures Counted(Released(s))
  {
    var t := |s.popped|;
    NextWrapped(t);
    assert Released(s).popped == s.pushed[..t + 1];
  }

  lemma StoreTailKeeps<T>(s: State<T>)
    requires Inv(s) && s.c.CTaken?
    ensures Inv(Released(s))
  {
    var t, s' := |s.popped|, Released(s);
    ReleasedCounted(s);
    NextLap(t, s.cap);
    forall k | t + 1 <= k < t + 1 + s.cap ensures s'.slots[k % s.cap] == Held(s', k) {
      var n := if k == t + s.cap then t else k;
      assert s.slots[n % s.cap] == Held(s, n);
    }
  }

  /** The full test is exact: wrapping never confuses a full ring with any other. */
  lemma CheckTailExact<T>(s: State<T>)
    requires Counted(s) && s.p.PLoaded?
    ensures (s.p.h - s.tail) % WRAP == |s.pushed| - |s.popped|
  {
    SlotOfWrapped(0, s.cap);
    WrappedDistance(|s.pushed|, |s.popped|, s.cap);
  }

  lemma CheckHeadExact<T>(s: State<T>)
    requires Counted(s) && s.c.CLoaded?
    ensures s.c.t == s.head <==> |s.pushed| == |s.popped|
  {
    SlotOfWrapped(0, s.cap);
    WrappedDistance(|s.pushed|, |s.popped|, s.cap);
  }

  /** Steps that touch neither slots nor counters. */
  lemma LocalStepKeeps<T>(s: State<T>, step: Step<T>)
    requires Inv(s) && !step.WriteSlot? && !step.StoreHead? && !step.ReadSlot? && !step.StoreTail?
    ensures Inv(Next(s, step))
  {
    if s.p.PLoaded? {
      CheckTailExact(s);
    }
    if s.c.CLoaded? {
      CheckHeadExact(s);
    }
    var s' := Next(s, step);
    assert Counted(s');
    forall k | |s.popped| <= k < |s.popped| + s.cap ensures Held(s', k) == Held(s, k) {}
  }

  lemma NextKeeps<T>(s: State<T>, step: Step<T>)
    requires Inv(s)
    ensures Inv(Next(s, step))
  {
    match step
    case WriteSlot => if s.p.PGranted? { WriteKeeps(s); }
    case StoreHead => if s.p.PStored? { StoreHeadKeeps(s); }
    case ReadSlot => if s.c.CGranted? { TakeKeeps(s); }
    case StoreTail => if s.c.CTaken? { StoreTailKeeps(s); }
    case _ => LocalStepKeeps(s, step);
  }

  function After<T>(cap: nat, steps: seq<Step<T>>): State<T> {
    if steps == [] then Empty(cap) else Next(After(cap, steps[..|steps| - 1]), steps[|steps| - 1])
  }

  lemma {:induction false} AlwaysInv<T>(cap: nat, steps: seq<Step<T>>)
    requires IsCapacity(cap)
    ensures Inv(After(cap, steps))
  {
    if steps == [] {
      EmptyInv<T>(cap);
    } else {
      AlwaysInv(cap, steps[..|steps| - 1]);
      NextKeeps(After(cap, steps[..|steps| - 1]), steps[|steps| - 1]);
    }
  }

  // ----- the statements

  /** The values waiting in the ring, read from the slots, oldest first. */
  ghost function Contents<T>(s: State<T>): seq<Option<T>>
    requires Inv(s)
  {
    seq(|s.pushed| - |s.popped|, i requires 0 <= i < |s.pushed| - |s.popped| => s.slots[(|s.popped| + i) % s.cap])
  }

  /** The slots between the counters hold what was pushed there and not yet taken. */
  lemma ContentsAre<T>(s: State<T>)
    requires Inv(s)
    ensures forall i :: 0 <= i < |Contents(s)| ==>
              Contents(s)[i] == if i == 0 && s.c.CTaken? then None else Some(s.pushed[|s.popped| + i])
  {
    forall i | 0 <= i < |Contents(s)|
      ensures Contents(s)[i] == if i == 0 && s.c.CTaken? then None else Some(s.pushed[|s.popped| + i])
    {
      assert s.slots[(|s.popped| + i) % s.cap] == Held(s, |s.popped| + i);
    }
  }

  /**
    The ring is first in, first out. Over every interleaving of the two threads' loads,
    slot accesses and stores, for any number of pushes and pops and so across wraparound
    of both counters: the popped values are the oldest pushed values in order, and
    the slots between the counters hold exactly the rest, except that the oldest
    may already be in the consumer's hands.
  */
  lemma RingIsFifo<T>(cap: nat, steps: seq<Step<T>>)
    requires IsCapacity(cap)
    ensures var s := After(cap, steps);
            && Inv(s)
            && |s.popped| <= |s.pushed| <= |s.popped| + cap
            && s.popped == s.pushed[..|s.popped|]
            && (forall i :: 0 <= i < |Contents(s)| ==>
                  Contents(s)[i] == if i == 0 && s.c.CTaken? then None else Some(s.pushed[|s.popped| + i]))
            && (s.c.CTaken? ==> s.c.v == s.pushed[|s.popped|])
  {
    AlwaysInv(cap, steps);
    CapKept(cap, steps);
    ContentsAre(After(cap, steps));
  }

  lemma {:induction false} CapKept<T>(cap: nat, steps: seq<Step<T>>)
    ensures After(cap, steps).cap == cap
  {
    if steps != [] {
      CapKept(cap, steps[..|steps| - 1]);
    }
  }

  lemma SlotsDisjoint<T>(s: State<T>)
    requires Inv(s)
    ensures s.p.PGranted? ==> Index(s.p.h, s.cap) < |s.slots| && s.slots[Index(s.p.h, s.cap)].None?
    ensures s.c.CGranted? ==> Index(s.c.t, s.cap) < |s.slots| && s.slots[Index(s.c.t, s.cap)].Some?
  {
    if s.p.PGranted? {
      SlotOfWrapped(|s.pushed|, s.cap);
      assert s.slots[|s.pushed| % s.cap] == Held(s, |s.pushed|);
    }
    if s.c.CGranted? {
      SlotOfWrapped(|s.popped|, s.cap);
      assert s.slots[|s.popped| % s.cap] == Held(s, |s.popped|);
    }
  }

  /**
    No slot is written while it is unread or being read, and the slot being read
    holds an unread value: the two threads never access one slot at the same time.
  */
  lemma SlotsAreNeverShared<T>(cap: nat, steps: seq<Step<T>>)
    requires IsCapacity(cap)
    ensures var s := After(cap, steps);
            && (s.p.PGranted? ==> Index(s.p.h, s.cap) < |s.slots| && s.slots[Index(s.p.h, s.cap)].None?)
            && (s.c.CGranted? ==> Index(s.c.t, s.cap) < |s.slots| && s.slots[Index(s.c.t, s.cap)].Some?)
            && (s.p.PGranted? && s.c.CGranted? ==> Index(s.p.h, s.cap) != Index(s.c.t, s.cap))
  {
    AlwaysInv(cap, steps);
    SlotsDisjoint(After(cap, steps));
  }

  /** A push is refused exactly when the ring is full at its tail load; a pop, when it is empty. */
  lemma RefusalsAreExact<T>(cap: nat, steps: seq<Step<T>>)
    requires IsCapacity(cap)
    ensures var s := After(cap, steps);
            && (s.p.PLoaded? ==> (Next(s, CheckTail).p.PIdle? <==> |s.pushed| - |s.popped| == cap))
            && (s.c.CLoaded? ==> (Next(s, CheckHead).c.CIdle? <==> s.pushed == s.popped))
  {
    AlwaysInv(cap, steps);
    CapKept(cap, steps);
    var s := After(cap, steps);
    if s.p.PLoaded? {
      CheckTailExact(s);
    }
    if s.c.CLoaded? {
      CheckHeadExact(s);
      assert |s.pushed| == |s.popped| ==> s.pushed[..|s.popped|] == s.pushed;
    }
  }

  // ----- the ring as an atomic queue

  /** What a call did to the queue, as seen at the one step where it takes effect. */
  datatype QueueOp<T> = Put(v: T) | Full(v: T) | Get(v: T) | Nothing

  /** A bounded queue with atomic operations; None where the operation cannot have that outcome. */
  function Does<T(==)>(cap: nat, q: seq<T>, op: QueueOp<T>): Option<seq<T>> {
    match op
    case Put(v) => if |q| < cap then Some(q + [v]) else None
    case Full(_) => if |q| >= cap then Some(q) else None
    case Get(v) => if q != [] && q[0] == v then Some(q[1..]) else None
    case Nothing => if q == [] then Some(q) else None
  }

  /** The outcomes in order, from an empty queue. */
  function Replay<T(==)>(cap: nat, ops: seq<QueueOp<T>>): Option<seq<T>> {
    if ops == [] then Some([])
    else
      var q := Replay(cap, ops[..|ops| - 1]);
      if q.None? then None else Does(cap, q.value, ops[|ops| - 1])
  }

  /** The calls that take effect at a step: at the stores, and at the loads that refuse. */
  function Effect<T>(s: State<T>, step: Step<T>): seq<QueueOp<T>> {
    match step
    case CheckTail => if s.p.PLoaded? && (s.p.h - s.tail) % WRAP >= s.cap then [Full(s.p.v)] else []
    case StoreHead => if s.p.PStored? then [Put(s.p.v)] else []
    case CheckHead => if s.c.CLoaded? && s.c.t == s.head then [Nothing] else []
    case StoreTail => if s.c.CTaken? then [Get(s.c.v)] else []
    case _ => []
  }

  function Effects<T>(cap: nat, steps: seq<Step<T>>): seq<QueueOp<T>> {
    if steps == [] then []
    else Effects(cap, steps[..|steps| - 1]) + Effect(After(cap, steps[..|steps| - 1]), steps[|steps| - 1])
  }

  /** The values between the counters. */
  ghost function Waiting<T>(s: State<T>): seq<T>
    requires |s.popped| <= |s.pushed|
  {
    s.pushed[|s.popped|..]
  }

  /** Each step does to the queue what its effect says, and nothing else changes the queue. */
  lemma StepIsEffect<T>(s: State<T>, step: Step<T>)
    requires Inv(s)
    ensures var q, s', e := Waiting(s), Next(s, step), Effect(s, step);
            && |s'.popped| <= |s'.pushed|
            && if e == [] then Waiting(s') == q else e == [e[0]] && Does(s.cap, q, e[0]) == Some(Waiting(s'))
  {
    if s.p.PLoaded? {
      CheckTailExact(s);
    }
    if s.c.CLoaded? {
      CheckHeadExact(s);
    }
    if step.StoreHead? && s.p.PStored? {
      assert (s.pushed + [s.p.v])[|s.popped|..] == Waiting(s) + [s.p.v];
    }
  }

  lemma ReplayPush<T>(cap: nat, ops: seq<QueueOp<T>>, op: QueueOp<T>)
    requires Replay(cap, ops).Some?
    ensures Replay(cap, ops + [op]) == Does(cap, Replay(cap, ops).value, op)
  {
    assert (ops + [op])[..|ops|] == ops;
  }

  /**
    The ring is an atomic bounded queue. However loads, slot accesses and stores of
    the two threads interleave, the outcomes of their calls, in the order in which
    they take effect, are those of a queue whose operations are atomic, and that
    queue holds the values between the counters.
  */
  lemma {:induction false} RingLinearises<T>(cap: nat, steps: seq<Step<T>>)
    requires IsCapacity(cap)
    ensures var s := After(cap, steps);
            |s.popped| <= |s.pushed| && Replay(cap, Effects(cap, steps)) == Some(Waiting(s))
  {
    if steps != [] {
      var front, step := steps[..|steps| - 1], steps[|steps| - 1];
      var s := After(cap, front);
      RingLinearises(cap, front);
      AlwaysInv(cap, front);
      CapKept(cap, front);
      StepIsEffect(s, step);
      var done, e := Effects(cap, front), Effect(s, step);
      if e == [] {
        assert done + e == done;
      } else {
        ReplayPush(cap, done, e[0]);
      }
    }
  }

  ghost predicate BothIdle<T>(s: State<T>) {
    s.p.PIdle? && s.c.CIdle?
  }

  /** Lengthens a run by one step. */
  lemma Extend<T>(cap: nat, steps: seq<Step<T>>, s: State<T>, step: Step<T>) returns (longer: seq<Step<T>>)
    requires After(cap, steps) == s
    ensures After(cap, longer) == Next(s, step)
    ensures Effects(cap, longer) == Effects(cap, steps) + Effect(s, step)
  {
    longer := steps + [step];
    assert longer[..|steps|] == steps;
  }

  /** A step that is not yet the one where its call takes effect. */
  ghost predicate Prepares<T>(s: State<T>, step: Step<T>, s': State<T>) {
    Effect(s, step) == [] && Next(s, step) == s'
  }

  /** The step that ends a call. */
  ghost predicate Ends<T>(s: State<T>, step: Step<T>, op: QueueOp<T>) {
    Effect(s, step) == [op] && BothIdle(Next(s, step))
  }

  lemma Prepare<T>(cap: nat, steps: seq<Step<T>>, s: State<T>, step: Step<T>, s': State<T>) returns (longer: seq<Step<T>>)
    requires After(cap, steps) == s && Prepares(s, step, s')
    ensures After(cap, longer) == s' && Effects(cap, longer) == Effects(cap, steps)
  {
    longer := Extend(cap, steps, s, step);
  }

  lemma End<T>(cap: nat, steps: seq<Step<T>>, s: State<T>, step: Step<T>, op: QueueOp<T>) returns (longer: seq<Step<T>>)
    requires After(cap, steps) == s && Ends(s, step, op)
    ensures BothIdle(After(cap, longer)) && Effects(cap, longer) == Effects(cap, steps) + [op]
  {
    longer := Extend(cap, steps, s, step);
  }

  // The decisions of a push and a pop, and the accesses behind a granted one.

  lemma OfferPrepares<T>(s: State<T>, v: T)
    requires BothIdle(s)
    ensures var begun := s.(p := PBegun(v));
            Prepares(s, BeginPush(v), begun) && Prepares(begun, LoadHead, s.(p := PLoaded(v, s.head)))
  {
  }

  lemma OfferDecides<T>(s: State<T>, v: T)
    requires Inv(s) && BothIdle(s)
    ensures var loaded := s.(p := PLoaded(v, s.head));
            if |Waiting(s)| < s.cap then Prepares(loaded, CheckTail, s.(p := PGranted(v, s.head)))
            else Ends(loaded, CheckTail, Full(v))
  {
    CheckTailExact(s.(p := PLoaded(v, s.head)));
  }

  lemma StoreEnds<T>(s: State<T>, v: T)
    requires Inv(s) && BothIdle(s) && |Waiting(s)| < s.cap
    ensures var granted := s.(p := PGranted(v, s.head));
            Prepares(granted, WriteSlot, Written(granted)) && Ends(Written(granted), StoreHead, Put(v))
  {
    GrantKeeps(s, v);
    WriteKeeps(s.(p := PGranted(v, s.head)));
  }

  lemma FetchDecides<T>(s: State<T>)
    requires Inv(s) && BothIdle(s)
    ensures var loaded := s.(c := CLoaded(s.tail));
            && Prepares(s, LoadTail, loaded)
            && if Waiting(s) == [] then Ends(loaded, CheckHead, Nothing)
               else Prepares(loaded, CheckHead, s.(c := CGranted(s.tail)))
  {
    CheckHeadExact(s.(c := CLoaded(s.tail)));
  }

  lemma FetchEnds<T>(s: State<T>)
    requires Inv(s) && BothIdle(s) && Waiting(s) != []
    ensures var granted := s.(c := CGranted(s.tail));
            Prepares(granted, ReadSlot, Taken(granted)) && Ends(Taken(granted), StoreTail, Get(Waiting(s)[0]))
  {
    TakeGrantKeeps(s);
    TakeKeeps(s.(c := CGranted(s.tail)));
  }

  /** A whole push, with the outcome the queue allows. */
  lemma RealisePush<T>(cap: nat, steps: seq<Step<T>>, s: State<T>, v: T) returns (longer: seq<Step<T>>)
    requires After(cap, steps) == s && Inv(s) && BothIdle(s)
    ensures BothIdle(After(cap, longer))
    ensures Effects(cap, longer) == Effects(cap, steps) + [if |Waiting(s)| < s.cap then Put(v) else Full(v)]
  {
    var loaded, granted := s.(p := PLoaded(v, s.head)), s.(p := PGranted(v, s.head));
    OfferPrepares(s, v);
    OfferDecides(s, v);
    longer := Prepare(cap, steps, s, BeginPush(v), s.(p := PBegun(v)));
    longer := Prepare(cap, longer, s.(p := PBegun(v)), LoadHead, loaded);
    if |Waiting(s)| < s.cap {
      StoreEnds(s, v);
      longer := Prepare(cap, longer, loaded, CheckTail, granted);
      longer := Prepare(cap, longer, granted, WriteSlot, Written(granted));
      longer := End(cap, longer, Written(granted), StoreHead, Put(v));
    } else {
      longer := End(cap, longer, loaded, CheckTail, Full(v));
    }
  }

  lemma RealisePop<T>(cap: nat, steps: seq<Step<T>>, s: State<T>) returns (longer: seq<Step<T>>)
    requires After(cap, steps) == s && Inv(s) && BothIdle(s)
    ensures BothIdle(After(cap, longer))
    ensures Effects(cap, longer) == Effects(cap, steps) + [if Waiting(s) == [] then Nothing else Get(Waiting(s)[0])]
  {
    var loaded, granted := s.(c := CLoaded(s.tail)), s.(c := CGranted(s.tail));
    FetchDecides(s);
    longer := Prepare(cap, steps, s, LoadTail, loaded);
    if Waiting(s) == [] {
      longer := End(cap, longer, loaded, CheckHead, Nothing);
    } else {
      FetchEnds(s);
      longer := Prepare(cap, longer, loaded, CheckHead, granted);
      longer := Prepare(cap, longer, granted, ReadSlot, Taken(granted));
      longer := End(cap, longer, Taken(granted), StoreTail, Get(Waiting(s)[0]));
    }
  }

  /** One more call with an outcome the queue allows. */
  lemma RealiseOne<T>(cap: nat, steps: seq<Step<T>>, s: State<T>, op: QueueOp<T>) returns (longer: seq<Step<T>>)
    requires After(cap, steps) == s && Inv(s) && BothIdle(s) && Does(s.cap, Waiting(s), op).Some?
    ensures BothIdle(After(cap, longer)) && Effects(cap, longer) == Effects(cap, steps) + [op]
  {
    if op.Put? || op.Full? {
      longer := RealisePush(cap, steps, s, op.v);
    } else {
      longer := RealisePop(cap, steps, s);
    }
  }

  /** Conversely the ring can do whatever the queue can: every run of the queue is the effect of some steps. */
  lemma {:induction false} RingRealises<T>(cap: nat, ops: seq<QueueOp<T>>) returns (steps: seq<Step<T>>)
    requires IsCapacity(cap) && Replay(cap, ops).Some?
    ensures Effects(cap, steps) == ops && BothIdle(After(cap, steps))
  {
    if ops == [] {
      steps := [];
    } else {
      var front, op := ops[..|ops| - 1], ops[|ops| - 1];
      var done := RingRealises(cap, front);
      AlwaysInv(cap, done);
      RingLinearises(cap, done);
      CapKept(cap, done);
      steps := RealiseOne(cap, done, After(cap, done), op);
      assert front + [op] == ops;
    }
  }

  // ----- the ring itself, one call at a time

  class SpscRing<T> {
    const capacity: nat
    const slots: array<Option<T>>
    var head: nat
    var tail: nat
    ghost var pushed: seq<T>
    ghost var popped: seq<T>

    /** The state the interleaved model is in when neither thread is inside a call. */
    ghost function Idle(): State<T>
      reads this, slots
    {
      State(capacity, head, tail, slots[..], PIdle, CIdle, pushed, popped)
    }

    ghost predicate Valid()
      reads this, slots
    {
      Inv(Idle())
    }

    /** The queue the ring stands for. */
    ghost function Queue(): seq<T>
      reads this, slots
      requires Valid()
    {
      pushed[|popped|..]
    }

    constructor (atLeast: nat)
      requires RoundingEnds(atLeast)
      ensures Valid() && Queue() == [] && atLeast <= capacity && fresh(slots)
    {
      var cap := RoundUpPow2(atLeast);
      capacity := cap;
      slots := new Option<T>[cap](i => None);
      head, tail, pushed, popped := 0, 0, [], [];
      new;
      EmptyInv<T>(capacity);
      assert slots[..] == Empty<T>(capacity).slots;
    }

    /** Appends, or refuses when full and changes nothing. */
    method Push(value: T) returns (ok: bool)
      requires Valid()
      modifies this`head, this`pushed, slots
      ensures Valid()
      ensures ok <==> |old(Queue())| < capacity
      ensures Queue() == if ok then old(Queue()) + [value] else old(Queue())
    {
      var h := head;
      CheckTailExact(Idle().(p := PLoaded(value, h)));
      if (h - tail) % WRAP >= capacity {
        return false;
      }
      PushKeeps(Idle(), value);
      ghost var goal := Pushed(Idle(), value);
      slots[BitAnd(h, capacity - 1)] := Some(value);
      head := (h + 1) % WRAP;
      pushed := pushed + [value];
      ok := true;
      assert slots[..] == goal.slots;
      assert Idle() == goal;
    }

    /** Removes the oldest value, or reports an empty ring. */
    method Pop() returns (r: Option<T>)
      requires Valid()
      modifies this`tail, this`popped, slots
      ensures Valid()
      ensures r == if |old(Queue())| == 0 then None else Some(old(Queue())[0])
      ensures Queue() == if r.None? then old(Queue()) else old(Queue())[1..]
    {
      var t := tail;
      CheckHeadExact(Idle().(c := CLoaded(t)));
      if t == head {
        return None;
      }
      PopKeeps(Idle());
      ghost var goal := Popped(Idle());
      r := slots[BitAnd(t, capacity - 1)];
      slots[BitAnd(t, capacity - 1)] := None;
      tail := (t + 1) % WRAP;
      popped := popped + [r.value];
      assert slots[..] == goal.slots;
      assert Idle() == goal;
    }
  }

  /** A whole push, uninterrupted. */
  ghost function Pushed<T>(s: State<T>, v: T): State<T> {
    var i := Index(s.head, s.cap);
    if i < |s.slots| then s.(slots := s.slots[i := Some(v)], head := (s.head + 1) % WRAP, pushed := s.pushed + [v]) else s
  }

  lemma PushKeeps<T>(s: State<T>, v: T)
    requires Inv(s) && s.p.PIdle? && |s.pushed| < |s.popped| + s.cap
    ensures Index(s.head, s.cap) < |s.slots| && Inv(Pushed(s, v))
  {
    SlotOfWrapped(|s.pushed|, s.cap);
    GrantKeeps(s, v);
    WriteKeeps(s.(p := PGranted(v, s.head)));
    StoreHeadKeeps(Written(s.(p := PGranted(v, s.head))));
  }

  /** A whole pop, uninterrupted. */
  ghost function Popped<T>(s: State<T>): State<T> {
    var i := Index(s.tail, s.cap);
    if i < |s.slots| && s.slots[i].Some?
    then s.(slots := s.slots[i := None], tail := (s.tail + 1) % WRAP, popped := s.popped + [s.slots[i].value]) else s
  }

  lemma PopKeeps<T>(s: State<T>)
    requires Inv(s) && s.c.CIdle? && |s.popped| < |s.pushed|
    ensures Index(s.tail, s.cap) < |s.slots| && s.slots[Index(s.tail, s.cap)] == Some(s.pushed[|s.popped|])
    ensures Inv(Popped(s))
  {
    SlotOfWrapped(|s.popped|, s.cap);
    assert s.slots[|s.popped| % s.cap] == Held(s, |s.popped|);
    TakeGrantKeeps(s);
    TakeKeeps(s.(c := CGranted(s.tail)));
    StoreTailKeeps(Taken(s.(c := CGranted(s.tail))));
  }

  /** Granting a push when there is room, and a pop when there is something to take. */
  lemma GrantKeeps<T>(s: State<T>, v: T)
    requires Inv(s) && s.p.PIdle? && |s.pushed| < |s.popped| + s.cap
    ensures Inv(s.(p := PGranted(v, s.head)))
  {
  }

  lemma TakeGrantKeeps<T>(s: State<T>)
    requires Inv(s) && s.c.CIdle? && |s.popped| < |s.pushed|
    ensures Inv(s.(c := CGranted(s.tail)))
  {
  }
}
