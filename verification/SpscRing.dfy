/** The single-producer single-consumer ring as an interleaving of its individual
    atomic loads, atomic stores and slot accesses, with counters that wrap at 2^64.
    Every atomic access is one sequentially consistent step. */
module SpscRing {
  import opened Prelude

  const HALF: nat := 0x8000_0000_0000_0000

  /** All the proofs need of a capacity: it divides 2^64 and is at most 2^63. */
  ghost predicate GoodCap(cap: nat) {
    1 <= cap <= HALF && TWO64 % cap == 0
  }

  /** push(): between the load of head_ and the final store. */
  datatype Producer<T> =
    | PIdle
    | PReload(item: T, head: nat)
    | PWrite(item: T, head: nat)
    | PPublish(item: T, head: nat)

  /** pop(): between the load of tail_ and the final store. */
  datatype Consumer<T> =
    | CIdle
    | CReload(tail: nat)
    | CRead(tail: nat)
    | CRelease(tail: nat, item: T)

  /** The ring, both threads' program points, and the history: every item pushed,
      every item popped, and the unwrapped values of the two cached counters. */
  datatype Ring<T> = Ring(
    cap: nat,
    slots: seq<T>,
    head: nat,
    tail: nat,
    tailCache: nat,
    headCache: nat,
    p: Producer<T>,
    c: Consumer<T>,
    pushed: seq<T>,
    popped: seq<T>,
    tailSeen: nat,
    headSeen: nat)

  datatype Action<T> = BeginPush(item: T) | Produce | BeginPop | Consume

  predicate Enabled<T>(r: Ring<T>, a: Action<T>) {
    match a
    case BeginPush(_) => r.p.PIdle?
    case Produce => !r.p.PIdle? && r.cap > 0 && (r.p.PWrite? ==> r.p.head % r.cap < |r.slots|)
    case BeginPop => r.c.CIdle?
    case Consume => !r.c.CIdle? && r.cap > 0 && (r.c.CRead? ==> r.c.tail % r.cap < |r.slots|)
  }

  /** "next - tail_cache_ > cap_" in unsigned 64-bit arithmetic. */
  predicate LooksFull(head: nat, tailCache: nat, cap: nat) {
    ((head + 1) % TWO64 - tailCache) % TWO64 > cap
  }

  function Do<T>(r: Ring<T>, a: Action<T>): Ring<T>
    requires Enabled(r, a)
  {
    match a
    case BeginPush(x) =>
      if LooksFull(r.head, r.tailCache, r.cap) then r.(p := PReload(x, r.head)) else r.(p := PWrite(x, r.head))
    case Produce =>
      (match r.p
       case PReload(x, h) =>
         var r' := r.(tailCache := r.tail, tailSeen := |r.popped|);
         if LooksFull(h, r'.tailCache, r.cap) then r'.(p := PIdle) else r'.(p := PWrite(x, h))
       case PWrite(x, h) =>
         r.(slots := r.slots[h % r.cap := x], p := PPublish(x, h))
       case PPublish(x, h) =>
         r.(head := (h + 1) % TWO64, pushed := r.pushed + [x], p := PIdle))
    case BeginPop =>
      if r.tail == r.headCache then r.(c := CReload(r.tail)) else r.(c := CRead(r.tail))
    case Consume =>
      (match r.c
       case CReload(t) =>
         var r' := r.(headCache := r.head, headSeen := |r.pushed|);
         if t == r'.headCache then r'.(c := CIdle) else r'.(c := CRead(t))
       case CRead(t) =>
         r.(c := CRelease(t, r.slots[t % r.cap]))
       case CRelease(t, x) =>
         r.(tail := (t + 1) % TWO64, popped := r.popped + [x], c := CIdle))
  }

  ghost predicate Next<T(!new)>(r: Ring<T>, r': Ring<T>) {
    exists a :: Enabled(r, a) && r' == Do(r, a)
  }

  ghost predicate Init<T>(r: Ring<T>) {
    && GoodCap(r.cap) && |r.slots| == r.cap
    && r.head == r.tail == r.tailCache == r.headCache == r.tailSeen == r.headSeen == 0
    && r.p.PIdle? && r.c.CIdle? && r.pushed == [] && r.popped == []
  }

  /** An interleaving of any length. */
  ghost predicate Run<T(!new)>(rs: seq<Ring<T>>) {
    && |rs| > 0 && Init(rs[0])
    && forall i :: 0 <= i < |rs| - 1 ==> Next(rs[i], rs[i + 1])
  }

  /** The unpublished slot contents are exactly the items not popped yet. */
  ghost predicate Holds<T>(slots: seq<T>, cap: nat, pushed: seq<T>, from: nat) {
    cap > 0 && forall k :: from <= k < |pushed| && k % cap < |slots| ==> slots[k % cap] == pushed[k]
  }

  ghost predicate CountersOk<T>(r: Ring<T>) {
    && |r.popped| <= |r.pushed| <= |r.popped| + r.cap
    && r.popped == r.pushed[..|r.popped|]
    && r.head == |r.pushed| % TWO64
    && r.tail == |r.popped| % TWO64
    && r.tailCache == r.tailSeen % TWO64 && r.tailSeen <= |r.popped| && |r.pushed| <= r.tailSeen + r.cap
    && r.headCache == r.headSeen % TWO64 && |r.popped| <= r.headSeen <= |r.pushed|
  }

  ghost predicate ProducerOk<T>(r: Ring<T>) {
    && (!r.p.PIdle? ==> r.p.head == r.head)
    && (r.p.PWrite? || r.p.PPublish? ==> |r.pushed| < r.tailSeen + r.cap)
    && (r.p.PPublish? ==> r.cap > 0 && |r.pushed| % r.cap < |r.slots| && r.slots[|r.pushed| % r.cap] == r.p.item)
  }

  ghost predicate ConsumerOk<T>(r: Ring<T>) {
    && (!r.c.CIdle? ==> r.c.tail == r.tail)
    && (r.c.CReload? ==> r.headSeen == |r.popped|)
    && (r.c.CRead? || r.c.CRelease? ==> |r.popped| < r.headSeen)
    && (r.c.CRelease? ==> |r.popped| < |r.pushed| && r.c.item == r.pushed[|r.popped|])
  }

  ghost predicate Inv<T>(r: Ring<T>) {
    && GoodCap(r.cap) && |r.slots| == r.cap
    && CountersOk(r)
    && Holds(r.slots, r.cap, r.pushed, |r.popped|)
    && ProducerOk(r)
    && ConsumerOk(r)
  }

  // ---- modular arithmetic ---------------------------------------------------

  lemma MulMod(k: int, cap: nat, x: int)
    requires cap > 0
    ensures (x + k * cap) % cap == x % cap
    decreases if k < 0 then -k else k
  {
    if k > 0 {
      MulMod(k - 1, cap, x);
      assert x + k * cap == (x + (k - 1) * cap) + cap;
      AddMod(x + (k - 1) * cap, cap);
    } else if k < 0 {
      MulMod(k + 1, cap, x);
      assert x + (k + 1) * cap == (x + k * cap) + cap;
      AddMod(x + k * cap, cap);
    }
  }

  lemma AddMod(x: int, cap: nat)
    requires cap > 0
    ensures (x + cap) % cap == x % cap
  {
    var q, r := x / cap, x % cap;
    assert x + cap == (q + 1) * cap + r;
    DivUnique(x + cap, cap, q + 1, r);
  }

  lemma AtLeast(a: int, d: nat)
    requires a >= 1
    ensures a * d >= d
  {
    assert a * d == d + (a - 1) * d;
  }

  lemma Distinct(d: nat, q: int, r: int, q': int, r': int)
    requires 0 <= r < d && 0 <= r' < d && q < q'
    ensures q * d + r != q' * d + r'
  {
    AtLeast(q' - q, d);
    assert q' * d == q * d + (q' - q) * d;
  }

  lemma DivUnique(x: int, d: nat, q: int, r: int)
    requires d > 0 && x == q * d + r && 0 <= r < d
    ensures x % d == r
  {
    var q', r' := x / d, x % d;
    if q < q' { Distinct(d, q, r, q', r'); }
    if q' < q { Distinct(d, q', r', q, r); }
  }

  /** Masking a wrapped counter picks the slot of the unwrapped one. */
  lemma MaskWrapped(x: nat, cap: nat)
    requires GoodCap(cap)
    ensures (x % TWO64) % cap == x % cap
  {
    var k := TWO64 / cap;
    assert TWO64 == k * cap;
    assert x == (x % TWO64) + (x / TWO64) * TWO64;
    assert (x / TWO64) * TWO64 == ((x / TWO64) * k) * cap by { MulAssoc(x / TWO64, k, cap); }
    MulMod((x / TWO64) * k, cap, x % TWO64);
  }

  lemma MulAssoc(a: int, b: int, c: int)
    ensures a * (b * c) == (a * b) * c
  {
  }

  /** Indices less than a capacity apart use different slots. */
  lemma SlotsDiffer(i: nat, j: nat, cap: nat)
    requires cap > 0 && i < j < i + cap
    ensures i % cap != j % cap
  {
    var q, r := i / cap, i % cap;
    var d := j - i;
    if r + d < cap {
      DivUnique(j, cap, q, r + d);
    } else {
      assert j == (q + 1) * cap + (r + d - cap);
      DivUnique(j, cap, q + 1, r + d - cap);
    }
  }

  /** Wrapped counters less than 2^64 apart subtract to their true distance. */
  lemma WrappedDiff(i: nat, j: nat)
    requires i <= j < i + TWO64
    ensures (j % TWO64 - i % TWO64) % TWO64 == j - i
    ensures j % TWO64 == i % TWO64 <==> i == j
  {
  }

  lemma WrappedNext(i: nat)
    ensures (i % TWO64 + 1) % TWO64 == (i + 1) % TWO64
  {
  }

  // ---- the invariant --------------------------------------------------------

  /** The 64-bit full test is the unbounded one, for any producer view of tail_. */
  lemma FullTestAgrees(pushed: nat, seen: nat, cap: nat)
    requires GoodCap(cap) && seen <= pushed <= seen + cap
    ensures LooksFull(pushed % TWO64, seen % TWO64, cap) <==> pushed - seen == cap
  {
    WrappedNext(pushed);
    WrappedDiff(seen, pushed + 1);
  }

  lemma EmptyTestAgrees(popped: nat, seen: nat, cap: nat)
    requires GoodCap(cap) && popped <= seen <= popped + cap
    ensures popped % TWO64 == seen % TWO64 <==> popped == seen
  {
    WrappedDiff(popped, seen);
  }

  /** Wrapping at 2^64 is invisible: in every state the invariant allows, the
      full and empty tests and the masked slot indices are those of a ring whose
      counters never wrap. */
  lemma WrapInvisible<T>(r: Ring<T>)
    requires Inv(r)
    ensures LooksFull(r.head, r.tailCache, r.cap) <==> |r.pushed| - r.tailSeen == r.cap
    ensures LooksFull(r.head, r.tail, r.cap) <==> |r.pushed| - |r.popped| == r.cap
    ensures r.tail == r.headCache <==> |r.popped| == r.headSeen
    ensures r.tail == r.head <==> |r.popped| == |r.pushed|
    ensures r.head % r.cap == |r.pushed| % r.cap && r.tail % r.cap == |r.popped| % r.cap
  {
    FullTestAgrees(|r.pushed|, r.tailSeen, r.cap);
    FullTestAgrees(|r.pushed|, |r.popped|, r.cap);
    EmptyTestAgrees(|r.popped|, r.headSeen, r.cap);
    EmptyTestAgrees(|r.popped|, |r.pushed|, r.cap);
    MaskWrapped(|r.pushed|, r.cap);
    MaskWrapped(|r.popped|, r.cap);
  }

  lemma InitInv<T>(r: Ring<T>)
    requires Init(r)
    ensures Inv(r)
  {
  }

  lemma PushStepInv<T>(r: Ring<T>, x: T)
    requires Inv(r) && Enabled(r, BeginPush(x))
    ensures Inv(Do(r, BeginPush(x)))
  {
    WrapInvisible(r);
  }

  /** Writing the free slot disturbs no item still to be popped. */
  lemma WriteKeeps<T>(slots: seq<T>, cap: nat, pushed: seq<T>, from: nat, x: T)
    requires Holds(slots, cap, pushed, from) && |slots| == cap
    requires from <= |pushed| < from + cap
    ensures Holds(slots[|pushed| % cap := x], cap, pushed, from)
  {
    forall k | from <= k < |pushed| ensures k % cap != |pushed| % cap {
      SlotsDiffer(k, |pushed|, cap);
    }
  }

  lemma ProduceInv<T>(r: Ring<T>)
    requires Inv(r) && Enabled(r, Produce)
    ensures Inv(Do(r, Produce))
  {
    WrapInvisible(r);
    match r.p
    case PReload(x, h) =>
    case PWrite(x, h) =>
      WriteKeeps(r.slots, r.cap, r.pushed, |r.popped|, x);
    case PPublish(x, h) =>
      WrappedNext(|r.pushed|);
      var r' := Do(r, Produce);
      assert forall k :: |r.popped| <= k < |r.pushed| ==> r'.pushed[k] == r.pushed[k];
      assert r'.pushed[..|r.popped|] == r.pushed[..|r.popped|];
  }

  lemma PopStepInv<T>(r: Ring<T>)
    requires Inv(r) && Enabled(r, BeginPop)
    ensures Inv(Do(r, BeginPop))
  {
    WrapInvisible(r);
  }

  lemma ConsumeInv<T>(r: Ring<T>)
    requires Inv(r) && Enabled(r, Consume)
    ensures Inv(Do(r, Consume))
  {
    WrapInvisible(r);
    match r.c
    case CReload(t) =>
    case CRead(t) =>
      assert |r.popped| % r.cap < |r.slots|;
    case CRelease(t, x) =>
      WrappedNext(|r.popped|);
      assert r.pushed[..|r.popped| + 1] == r.pushed[..|r.popped|] + [r.pushed[|r.popped|]];
  }

  lemma StepInv<T>(r: Ring<T>, a: Action<T>)
    requires Inv(r) && Enabled(r, a)
    ensures Inv(Do(r, a))
  {
    match a
    case BeginPush(x) => PushStepInv(r, x);
    case Produce => ProduceInv(r);
    case BeginPop => PopStepInv(r);
    case Consume => ConsumeInv(r);
  }

  lemma {:induction false} RunInv<T(!new)>(rs: seq<Ring<T>>, i: nat)
    requires Run(rs) && i < |rs|
    ensures Inv(rs[i])
  {
    if i == 0 {
      InitInv(rs[0]);
    } else {
      RunInv(rs, i - 1);
      assert Next(rs[i - 1], rs[i - 1 + 1]);
      var a :| Enabled(rs[i - 1], a) && rs[i] == Do(rs[i - 1], a);
      StepInv(rs[i - 1], a);
    }
  }

  // ---- what every interleaving keeps ------------------------------------------

  /** What sits in the ring, oldest first, read off the slots. */
  ghost function Held<T>(r: Ring<T>): seq<T>
    requires Inv(r)
  {
    seq(|r.pushed| - |r.popped|, i requires 0 <= i < |r.pushed| - |r.popped| => r.slots[(r.tail + i) % r.cap])
  }

  lemma HeldIs<T>(r: Ring<T>)
    requires Inv(r)
    ensures r.pushed == r.popped + Held(r)
  {
    forall i | 0 <= i < |r.pushed| - |r.popped| ensures Held(r)[i] == r.pushed[|r.popped| + i] {
      MaskWrapped(|r.popped|, r.cap);
      SameOffset(|r.popped|, r.tail, i, r.cap);
    }
  }

  lemma SameOffset(x: nat, y: nat, i: nat, cap: nat)
    requires cap > 0 && x % cap == y % cap
    ensures (x + i) % cap == (y + i) % cap
  {
    OffsetMod(x, i, cap);
    OffsetMod(y, i, cap);
  }

  lemma OffsetMod(x: nat, i: nat, cap: nat)
    requires cap > 0
    ensures (x + i) % cap == (x % cap + i) % cap
  {
    var q, r := x / cap, x % cap;
    assert x + i == (r + i) + q * cap;
    MulMod(q, cap, r + i);
  }

  /** First in, first out, over every interleaving: in every state what was popped
      followed by what the ring holds is what was pushed, in order; the ring never
      holds more than its capacity; each side's cached counter lags the true one and
      errs on the safe side; and no slot is written while it is being read. */
  lemma Fifo<T(!new)>(rs: seq<Ring<T>>, i: nat)
    requires Run(rs) && i < |rs|
    ensures var r := rs[i];
            && Inv(r)
            && r.pushed == r.popped + Held(r)
            && |Held(r)| <= r.cap
            && r.tailSeen <= |r.popped| && |r.popped| <= r.headSeen <= |r.pushed|
            && (r.p.PWrite? && r.c.CRead? ==> r.p.head % r.cap != r.c.tail % r.cap)
  {
    var r := rs[i];
    RunInv(rs, i);
    HeldIs(r);
    WrapInvisible(r);
    if r.p.PWrite? && r.c.CRead? {
      SlotsDiffer(|r.popped|, |r.pushed|, r.cap);
    }
  }

  /** push() gives up only when the ring is full, and pop() only when it is empty,
      at the very step that decides it. */
  lemma GenuineRefusals<T>(r: Ring<T>)
    requires Inv(r)
    ensures r.p.PReload? && Enabled(r, Produce) ==> (Do(r, Produce).p.PIdle? <==> |r.pushed| - |r.popped| == r.cap)
    ensures r.c.CReload? && Enabled(r, Consume) ==> (Do(r, Consume).c.CIdle? <==> |r.pushed| == |r.popped|)
  {
    WrapInvisible(r);
  }

  /** Neither counter ever goes back. */
  lemma {:induction false} Monotone<T(!new)>(rs: seq<Ring<T>>, i: nat, j: nat)
    requires Run(rs) && i <= j < |rs|
    ensures rs[i].pushed <= rs[j].pushed && rs[i].popped <= rs[j].popped && rs[i].cap == rs[j].cap
    decreases j - i
  {
    if i < j {
      Monotone(rs, i, j - 1);
      assert Next(rs[j - 1], rs[j - 1 + 1]);
    }
  }

  /** size_approx(): tail_ is loaded in state i, head_ in the same or a later state j. */
  function SizeApprox(tail: nat, head: nat): nat {
    (head - tail) % TWO64
  }

  /** For every run and any two loads, the result is the count pushed by the second load
      less the count popped by the first, in 64-bit arithmetic; it is that very number
      exactly when fewer than 2^64 - which only an observer who sleeps through nearly
      2^64 pops could miss. */
  lemma SizeApproxIs<T(!new)>(rs: seq<Ring<T>>, i: nat, j: nat)
    requires Run(rs) && i <= j < |rs|
    ensures var d := |rs[j].pushed| - |rs[i].popped|;
            && 0 <= d <= rs[i].cap + (|rs[j].popped| - |rs[i].popped|)
            && SizeApprox(rs[i].tail, rs[j].head) == d % TWO64
            && (SizeApprox(rs[i].tail, rs[j].head) == d <==> d < TWO64)
  {
    CountersAt(rs, i);
    CountersAt(rs, j);
    Monotone(rs, i, j);
    WrappedSub(|rs[j].pushed|, |rs[i].popped|);
  }

  lemma CountersAt<T(!new)>(rs: seq<Ring<T>>, i: nat)
    requires Run(rs) && i < |rs|
    ensures var r := rs[i];
            && r.head == |r.pushed| % TWO64 && r.tail == |r.popped| % TWO64
            && |r.popped| <= |r.pushed| <= |r.popped| + r.cap && r.cap < TWO64 && r.popped <= r.pushed
  {
    RunInv(rs, i);
  }

  lemma WrappedSub(x: nat, y: nat)
    ensures (x % TWO64 - y % TWO64) % TWO64 == (x - y) % TWO64
    ensures x >= y ==> ((x - y) % TWO64 == x - y <==> x - y < TWO64)
    ensures x < y + TWO64 ==> ((x - y) % TWO64 == x - y <==> x >= y)
  {
  }

  /** The observer's subtraction never underflows: it is the true difference of the
      two counts read, at most the capacity plus the pops in between; a zero means the
      ring was empty at the second load; a non-zero means it was non-empty at some
      instant between the loads. */
  lemma SizeApproxSound<T(!new)>(rs: seq<Ring<T>>, i: nat, j: nat)
    requires Run(rs) && i <= j < |rs|
    requires |rs[j].pushed| - |rs[i].popped| < TWO64
    ensures var n := SizeApprox(rs[i].tail, rs[j].head);
            && n == |rs[j].pushed| - |rs[i].popped|
            && n <= rs[i].cap + (|rs[j].popped| - |rs[i].popped|)
            && (n == 0 ==> rs[j].pushed == rs[j].popped)
            && (n != 0 ==> exists k :: i <= k <= j && |rs[k].popped| < |rs[k].pushed|)
  {
    SizeApproxIs(rs, i, j);
    CountersAt(rs, i);
    CountersAt(rs, j);
    Monotone(rs, i, j);
    var n := SizeApprox(rs[i].tail, rs[j].head);
    if n != 0 && |rs[i].popped| == |rs[i].pushed| {
      var k := FirstPush(rs, i, j);
    }
  }

  /** When the result does tell: the ring is non-empty at the second load exactly when the
      result exceeds the pops made since the first, and was non-empty at the first
      exactly when it exceeds the pushes made since. */
  lemma SizeApproxExact<T(!new)>(rs: seq<Ring<T>>, i: nat, j: nat)
    requires Run(rs) && i <= j < |rs|
    requires |rs[j].pushed| - |rs[i].popped| < TWO64
    ensures var n := SizeApprox(rs[i].tail, rs[j].head);
            && (|rs[j].popped| < |rs[j].pushed| <==> n > |rs[j].popped| - |rs[i].popped|)
            && (|rs[i].popped| < |rs[i].pushed| <==> n > |rs[j].pushed| - |rs[i].pushed|)
  {
    SizeApproxIs(rs, i, j);
    CountersAt(rs, i);
    CountersAt(rs, j);
    Monotone(rs, i, j);
  }

  /** So a consumer asking about its own ring, which pops nothing meanwhile, may take
      non-zero as "not empty now" and zero as "empty now"; a producer, which pushes nothing
      meanwhile, may take them so about the instant of the first load. */
  lemma SizeApproxForOwner<T(!new)>(rs: seq<Ring<T>>, i: nat, j: nat)
    requires Run(rs) && i <= j < |rs|
    ensures var n := SizeApprox(rs[i].tail, rs[j].head);
            && (rs[j].popped == rs[i].popped ==> (n != 0 <==> |rs[j].popped| < |rs[j].pushed|))
            && (rs[j].pushed == rs[i].pushed ==> (n != 0 <==> |rs[i].popped| < |rs[i].pushed|))
  {
    CountersAt(rs, i);
    CountersAt(rs, j);
    Monotone(rs, i, j);
    SizeApproxIs(rs, i, j);
  }

  /** A third thread may not: one push and one pop between its two loads leave it with a
      non-zero result for a ring that is empty. */
  lemma StaleNonZero() returns (rs: seq<Ring<int>>, i: nat, j: nat)
    ensures Run(rs) && i <= j < |rs|
    ensures SizeApprox(rs[i].tail, rs[j].head) != 0 && rs[j].pushed == rs[j].popped
  {
    var idle := Ring(2, [0, 0], 0, 0, 0, 0, PIdle, CIdle, [], [], 0, 0);
    var acts := [BeginPush(5), Produce, Produce, BeginPop, Consume, Consume, Consume];
    var r1 := Do(idle, acts[0]);
    var r2 := Do(r1, acts[1]);
    var r3 := Do(r2, acts[2]);
    var r4 := Do(r3, acts[3]);
    var r5 := Do(r4, acts[4]);
    var r6 := Do(r5, acts[5]);
    var r7 := Do(r6, acts[6]);
    rs, i, j := [idle, r1, r2, r3, r4, r5, r6, r7], 0, 7;
    forall k | 0 <= k < 7 ensures Next(rs[k], rs[k + 1]) {
      assert Enabled(rs[k], acts[k]) && rs[k + 1] == Do(rs[k], acts[k]);
    }
  }

  /** Some state after i where a push has just been published. */
  lemma {:induction false} FirstPush<T(!new)>(rs: seq<Ring<T>>, i: nat, j: nat) returns (k: nat)
    requires Run(rs) && i <= j < |rs| && |rs[i].pushed| < |rs[j].pushed|
    ensures i <= k <= j && |rs[k].popped| < |rs[k].pushed|
    decreases j - i
  {
    RunInv(rs, i);
    assert Next(rs[i], rs[i + 1]);
    if |rs[i + 1].pushed| > |rs[i].pushed| {
      k := i + 1;
    } else {
      k := FirstPush(rs, i + 1, j);
    }
  }

  /** Loading head_ first instead underflows exactly when the consumer has overtaken the
      value read. */
  lemma HeadFirstUnderflows<T(!new)>(rs: seq<Ring<T>>, i: nat, j: nat)
    requires Run(rs) && i <= j < |rs|
    ensures var d := |rs[i].pushed| - |rs[j].popped|;
            && SizeApprox(rs[j].tail, rs[i].head) == d % TWO64
            && (SizeApprox(rs[j].tail, rs[i].head) == d <==> |rs[j].popped| <= |rs[i].pushed|)
  {
    CountersAt(rs, i);
    CountersAt(rs, j);
    Monotone(rs, i, j);
    WrappedSub(|rs[i].pushed|, |rs[j].popped|);
  }

  // ---- wait-freedom -----------------------------------------------------------

  /** Steps a push() under way still has to make, at most. */
  function PushLeft<T>(p: Producer<T>): nat {
    match p
    case PIdle => 0
    case PPublish(_, _) => 1
    case PWrite(_, _) => 2
    case PReload(_, _) => 3
  }

  function PopLeft<T>(c: Consumer<T>): nat {
    match c
    case CIdle => 0
    case CRelease(_, _) => 1
    case CRead(_) => 2
    case CReload(_) => 3
  }

  /** A side's own step brings its call nearer its end; the other side's steps do not
      touch it. */
  lemma NoRetry<T>(r: Ring<T>, a: Action<T>)
    requires Enabled(r, a)
    ensures a.Produce? ==> PushLeft(Do(r, a).p) < PushLeft(r.p)
    ensures a.Consume? ==> PopLeft(Do(r, a).c) < PopLeft(r.c)
    ensures a.Consume? || a.BeginPop? ==> Do(r, a).p == r.p
    ensures a.Produce? || a.BeginPush? ==> Do(r, a).c == r.c
  {
  }

  /** The states that a list of actions leads through. */
  ghost predicate Follows<T>(rs: seq<Ring<T>>, acts: seq<Action<T>>) {
    && |rs| == |acts| + 1
    && forall i :: 0 <= i < |acts| ==> Enabled(rs[i], acts[i]) && rs[i + 1] == Do(rs[i], acts[i])
  }

  function Produces<T>(acts: seq<Action<T>>): nat {
    if acts == [] then 0 else (if acts[0].Produce? then 1 else 0) + Produces(acts[1..])
  }

  function Consumes<T>(acts: seq<Action<T>>): nat {
    if acts == [] then 0 else (if acts[0].Consume? then 1 else 0) + Consumes(acts[1..])
  }

  /** Wait-free: whatever the other thread does in between, a push() under way has
      returned by its third further step, and so has a pop(). */
  lemma {:induction false} WaitFree<T>(rs: seq<Ring<T>>, acts: seq<Action<T>>)
    requires Follows(rs, acts)
    ensures Produces(acts) >= PushLeft(rs[0].p) ==> exists k :: 0 <= k < |rs| && rs[k].p.PIdle?
    ensures Consumes(acts) >= PopLeft(rs[0].c) ==> exists k :: 0 <= k < |rs| && rs[k].c.CIdle?
    ensures PushLeft(rs[0].p) <= 3 && PopLeft(rs[0].c) <= 3
    decreases |acts|
  {
    if acts != [] {
      NoRetry(rs[0], acts[0]);
      var t := rs[1..];
      forall i | 0 <= i < |acts| - 1 ensures Enabled(t[i], acts[1..][i]) && t[i + 1] == Do(t[i], acts[1..][i]) {
        assert t[i] == rs[i + 1] && acts[1..][i] == acts[i + 1];
      }
      WaitFree(t, acts[1..]);
      assert forall k :: 0 <= k < |t| ==> t[k] == rs[k + 1];
    }
  }

  // ---- capacity -------------------------------------------------------------

  function Pow2(k: nat): nat {
    if k == 0 then 1 else 2 * Pow2(k - 1)
  }

  lemma {:induction false} Pow2Monotone(i: nat, j: nat)
    requires i < j
    ensures Pow2(i) < Pow2(j)
  {
    if i < j - 1 { Pow2Monotone(i, j - 1); }
    Pow2Positive(j - 1);
  }

  lemma {:induction false} Pow2Positive(k: nat)
    ensures Pow2(k) >= 1
  {
    if k > 0 { Pow2Positive(k - 1); }
  }

  lemma Pow2At63()
    ensures Pow2(63) == HALF
  {
    assert Pow2(8) == 0x100;
    assert Pow2(16) == 0x1_0000;
    assert Pow2(24) == 0x100_0000;
    assert Pow2(32) == 0x1_0000_0000;
    assert Pow2(40) == 0x100_0000_0000;
    assert Pow2(48) == 0x1_0000_0000_0000;
    assert Pow2(56) == 0x100_0000_0000_0000;
  }

  lemma {:induction false} Pow2Divides(k: nat)
    requires k <= 63
    ensures Pow2(k) > 0 && HALF % Pow2(k) == 0
    decreases 63 - k
  {
    Pow2Positive(k);
    if k == 63 {
      Pow2At63();
    } else {
      Pow2Divides(k + 1);
      var q := HALF / Pow2(k + 1);
      assert HALF == q * Pow2(k + 1) == (2 * q) * Pow2(k);
      MulMod(2 * q, Pow2(k), 0);
    }
  }

  lemma Pow2IsGoodCap(k: nat)
    requires k <= 63
    ensures GoodCap(Pow2(k))
  {
    Pow2Divides(k);
    Pow2At63();
    if k < 63 { Pow2Monotone(k, 63); }
    DoubleDivides(Pow2(k));
  }

  lemma DoubleDivides(c: nat)
    requires c > 0 && HALF % c == 0
    ensures TWO64 % c == 0
  {
    var q := HALF / c;
    assert TWO64 == (2 * q) * c;
    MulMod(2 * q, c, 0);
  }

  /** The least power of two that is at least max(n, 2). */
  method RoundUpPow2(n: nat) returns (cap: nat)
    requires n <= HALF
    ensures cap >= n && cap >= 2 && GoodCap(cap)
    ensures exists k :: k <= 63 && cap == Pow2(k)
    ensures forall k: nat :: Pow2(k) >= n && Pow2(k) >= 2 ==> cap <= Pow2(k)
  {
    var p := 1;
    ghost var e := 0;
    Pow2At63();
    while p < n
      invariant e <= 63 && p == Pow2(e)
      invariant e > 0 ==> Pow2(e - 1) < n
      decreases 63 - e
    {
      p := (2 * p) % TWO64;
      e := e + 1;
      Pow2IsGoodCap(e);
      assert Pow2(e) == 2 * Pow2(e - 1);
    }
    if p < 2 {
      cap, e := 2, 1;
    } else {
      cap := p;
    }
    Pow2IsGoodCap(e);
    forall k: nat | Pow2(k) >= n && Pow2(k) >= 2 ensures cap <= Pow2(k) {
      if k < e {
        if k < e - 1 { Pow2Monotone(k, e - 1); }
      } else if e < k {
        Pow2Monotone(e, k);
      }
    }
  }

  /** p after k rounds of "p <<= 1" in 64 bits. */
  function Shifted(k: nat): nat {
    if k == 0 then 1 else (2 * Shifted(k - 1)) % TWO64
  }

  /** Powers of two up to 2^63, as 64-bit values. */
  lemma Pow2Small(k: nat)
    requires k <= 63
    ensures k < 63 ==> 2 * Pow2(k) <= HALF
    ensures k == 63 ==> Pow2(k) == HALF
  {
    Pow2At63();
    if k < 62 { Pow2Monotone(k + 1, 63); }
  }

  lemma {:induction false} ShiftedIs(k: nat)
    ensures Shifted(k) == if k <= 63 then Pow2(k) else 0
  {
    if k > 0 {
      ShiftedIs(k - 1);
      if k <= 64 {
        Pow2Small(k - 1);
        DoubleWrapped(Pow2(k - 1));
      }
    }
  }

  lemma DoubleWrapped(x: nat)
    requires x <= HALF
    ensures (2 * x) % TWO64 == if x < HALF then 2 * x else 0
  {
  }

  /** The doubling loop ends exactly for n <= 2^63; beyond that p shifts out to zero
      and "p < n" stays true for ever. */
  lemma RoundUpEndsIff(n: nat)
    ensures (exists k :: Shifted(k) >= n) <==> n <= HALF
  {
    var top :| top == 63;
    ShiftedIs(top);
    Pow2Small(top);
    forall k ensures Shifted(k) <= HALF {
      ShiftedIs(k);
      if k <= 63 { Pow2Small(k); }
    }
  }

  // ---- the ring object ------------------------------------------------------

  class SpscRing<T> {
    const cap: nat
    var slots: seq<T>
    var head: nat
    var tail: nat
    var tailCache: nat
    var headCache: nat
    ghost var pushed: seq<T>
    ghost var popped: seq<T>
    ghost var tailSeen: nat
    ghost var headSeen: nat

    /** The ring with no call in progress. */
    ghost function View(): Ring<T> reads this {
      Ring(cap, slots, head, tail, tailCache, headCache, PIdle, CIdle, pushed, popped, tailSeen, headSeen)
    }

    ghost predicate Valid() reads this {
      Inv(View())
    }

    constructor (capacity: nat, blank: T)
      requires capacity <= HALF
      ensures Valid() && Init(View())
      ensures cap >= capacity
    {
      var c := RoundUpPow2(capacity);
      cap := c;
      slots := seq(c, _ => blank);
      head, tail, tailCache, headCache := 0, 0, 0, 0;
      pushed, popped, tailSeen, headSeen := [], [], 0, 0;
    }

    /** push() run on its own: the composition of its atomic steps. */
    method Push(item: T) returns (ok: bool)
      requires Valid()
      modifies this
      ensures Valid()
      ensures ok <==> |old(pushed)| - |old(popped)| < cap
      ensures pushed == if ok then old(pushed) + [item] else old(pushed)
      ensures popped == old(popped)
    {
      ghost var r := PushAlone(View(), item);
      PushAloneSpec(View(), item);
      var h := head;
      var next := (h + 1) % TWO64;
      if LooksFull(h, tailCache, cap) {
        tailCache := tail;
        tailSeen := |popped|;
        if LooksFull(h, tailCache, cap) {
          assert View() == r;
          return false;
        }
      }
      slots := slots[h % cap := item];
      head := next;
      pushed := pushed + [item];
      assert View() == r;
      ok := true;
    }

    /** pop() likewise; it leaves the caller's variable alone when it fails. */
    method Pop(was: T) returns (ok: bool, out: T)
      requires Valid()
      modifies this
      ensures Valid()
      ensures ok <==> |old(popped)| < |old(pushed)|
      ensures out == if ok then old(pushed)[|old(popped)|] else was
      ensures popped == if ok then old(popped) + [out] else old(popped)
      ensures pushed == old(pushed)
    {
      out := was;
      ghost var r := View();
      SlotInRange(r);
      var t := tail;
      if t == headCache {
        headCache := head;
        headSeen := |pushed|;
        if t == headCache {
          PopFails(r, View());
          return false, out;
        }
      }
      out := slots[t % cap];
      tail := (t + 1) % TWO64;
      popped := popped + [out];
      PopSucceeds(r, View(), out);
      ok := true;
    }
  }

  /** The steps of one push() with no interference. */
  ghost function PushAlone<T>(r: Ring<T>, x: T): Ring<T>
    requires Inv(r) && r.p.PIdle?
  {
    PushStepInv(r, x);
    var r1 := Do(r, BeginPush(x));
    var r2 := if r1.p.PReload? then (ProduceInv(r1); Do(r1, Produce)) else r1;
    if r2.p.PIdle? then r2
    else
      WrapInvisible(r2);
      ProduceInv(r2);
      var r3 := Do(r2, Produce);
      Do(r3, Produce)
  }

  lemma PushAloneSpec<T>(r: Ring<T>, x: T)
    requires Inv(r) && r.p.PIdle?
    ensures var r' := PushAlone(r, x);
            && Inv(r') && r'.popped == r.popped
            && r'.pushed == if |r.pushed| - |r.popped| < r.cap then r.pushed + [x] else r.pushed
  {
    WrapInvisible(r);
    PushStepInv(r, x);
    var r1 := Do(r, BeginPush(x));
    if r1.p.PReload? { ProduceInv(r1); GenuineRefusals(r1); }
    var r2 := if r1.p.PReload? then Do(r1, Produce) else r1;
    if !r2.p.PIdle? {
      WrapInvisible(r2);
      ProduceInv(r2);
      ProduceInv(Do(r2, Produce));
    }
  }

  ghost function PopAlone<T>(r: Ring<T>): Ring<T>
    requires r.cap > 0 && r.tail % r.cap < |r.slots| && r.c.CIdle?
  {
    var r1 := Do(r, BeginPop);
    var r2 := if r1.c.CReload? then Do(r1, Consume) else r1;
    if r2.c.CIdle? then r2
    else
      var r3 := Do(r2, Consume);
      Do(r3, Consume)
  }

  lemma PopAloneSpec<T>(r: Ring<T>)
    requires Inv(r) && r.c.CIdle?
    ensures r.cap > 0 && r.tail % r.cap < |r.slots|
    ensures var r' := PopAlone(r);
            && Inv(r') && r'.pushed == r.pushed
            && r'.popped == if |r.popped| < |r.pushed| then r.popped + [r.pushed[|r.popped|]] else r.popped
  {
    WrapInvisible(r);
    PopStepInv(r);
    var r1 := Do(r, BeginPop);
    if r1.c.CReload? { ConsumeInv(r1); GenuineRefusals(r1); }
    var r2 := if r1.c.CReload? then Do(r1, Consume) else r1;
    if !r2.c.CIdle? {
      WrapInvisible(r2);
      ConsumeInv(r2);
      ConsumeInv(Do(r2, Consume));
    }
  }

  lemma SlotInRange<T>(r: Ring<T>)
    requires Inv(r)
    ensures r.cap > 0 && 0 <= r.tail % r.cap < |r.slots|
  {
  }

  /** A pop() that finds the ring empty after loading head_. */
  lemma PopFails<T>(r: Ring<T>, r': Ring<T>)
    requires Inv(r) && r.c.CIdle? && r.tail == r.headCache == r.head
    requires r.cap > 0 && r.tail % r.cap < |r.slots|
    requires r' == r.(headCache := r.head, headSeen := |r.pushed|)
    ensures r' == PopAlone(r) && Inv(r') && |r.popped| == |r.pushed|
  {
    PopAloneSpec(r);
    assert r' == PopAlone(r);
  }

  lemma PopShape<T>(r: Ring<T>, r': Ring<T>, out: T)
    requires r.c.CIdle? && r.tail != r'.headCache
    requires r.tail == r.headCache ==> r'.headCache == r.head && r'.headSeen == |r.pushed|
    requires r.tail != r.headCache ==> r'.headCache == r.headCache && r'.headSeen == r.headSeen
    requires r.cap > 0 && 0 <= r.tail % r.cap < |r.slots| && out == r.slots[r.tail % r.cap]
    requires r' == r.(headCache := r'.headCache, headSeen := r'.headSeen, tail := (r.tail + 1) % TWO64, popped := r.popped + [out])
    ensures r' == PopAlone(r)
  {
  }

  /** One that takes an item, with head_ loaded only when the cached copy shows nothing. */
  lemma PopSucceeds<T>(r: Ring<T>, r': Ring<T>, out: T)
    requires Inv(r) && r.c.CIdle? && r.tail != r'.headCache
    requires r.tail == r.headCache ==> r'.headCache == r.head && r'.headSeen == |r.pushed|
    requires r.tail != r.headCache ==> r'.headCache == r.headCache && r'.headSeen == r.headSeen
    requires r.cap > 0 && 0 <= r.tail % r.cap < |r.slots| && out == r.slots[r.tail % r.cap]
    requires r' == r.(headCache := r'.headCache, headSeen := r'.headSeen, tail := (r.tail + 1) % TWO64, popped := r.popped + [out])
    ensures r' == PopAlone(r) && Inv(r') && |r.popped| < |r.pushed| && out == r.pushed[|r.popped|]
  {
    PopShape(r, r', out);
    PopAloneSpec(r);
  }
}
