/** The never-crossed feed generator: a shadow list of live orders and their prices
    steers every add away from the opposite side. The random source is an arbitrary
    infinite stream of numbers. */
module Synthetic {
  import opened Prelude
  import opened Levels
  import opened Messages
  import opened Orders
  import opened Itch
  import opened Framing

  const C: int := 100
  const SEED_BID: int := 1001000
  const SEED_ASK: int := 1001100
  const START_TS: int := 34200 * 1000000000

  /** "SYNTH   " */
  const STOCK: seq<byte> := [83, 89, 78, 84, 72, 32, 32, 32]

  type Live = seq<(U64, byte)>

  // ---- what the shadow list promises ------------------------------------------------

  /** No bid at or above an ask, over the orders of a book. */
  ghost predicate Uncrossed(os: OrderMap) {
    forall r, s :: r in os && s in os && IsBid(os[r]) && !IsBid(os[s]) ==> os[r].price < os[s].price
  }

  /** Shadow entry i is the order `r`. */
  predicate Entry(live: Live, px: seq<Price>, i: int, r: U64, side: byte, price: Price) {
    0 <= i < |live| && i < |px| && live[i] == (r, side) && px[i] == price
  }

  /** Every order of the book has a shadow entry (the converse fails: an order that was
      executed away stays in the shadow list). */
  ghost predicate Shadows(live: Live, px: seq<Price>, os: OrderMap) {
    forall r {:trigger HasEntry(live, px, os, r)} :: r in os ==> HasEntry(live, px, os, r)
  }

  ghost predicate HasEntry(live: Live, px: seq<Price>, os: OrderMap, r: U64) {
    r in os && exists i :: Entry(live, px, i, r, os[r].side, os[r].price)
  }

  /** Bids at a cent or more, asks at two cents or more, all below `top`, and every
      shadow bid below every shadow ask. */
  ghost predicate Apart(live: Live, px: seq<Price>, top: int) {
    && |live| == |px|
    && (forall i :: 0 <= i < |live| ==> live[i].1 in {BUY, SELL} && px[i] <= top)
    && (forall i :: 0 <= i < |live| ==> px[i] >= (if live[i].1 == BUY then C else 2 * C))
    && (forall i, j {:trigger SideAt(live, i, BUY), SideAt(live, j, SELL)} ::
          SideAt(live, i, BUY) && SideAt(live, j, SELL) ==> px[i] < px[j])
  }

  predicate SideAt(live: Live, i: int, side: byte) {
    0 <= i < |live| && live[i].1 == side
  }

  /** A shadowed book cannot be crossed. */
  lemma ShadowedIsUncrossed(live: Live, px: seq<Price>, os: OrderMap, top: int)
    requires Shadows(live, px, os) && Apart(live, px, top)
    ensures Uncrossed(os)
  {
    forall r, s | r in os && s in os && IsBid(os[r]) && !IsBid(os[s]) ensures os[r].price < os[s].price {
      assert HasEntry(live, px, os, r) && HasEntry(live, px, os, s);
      var i :| Entry(live, px, i, r, os[r].side, os[r].price);
      var j :| Entry(live, px, j, s, os[s].side, os[s].price);
      assert live[j].1 in {BUY, SELL};
      assert SideAt(live, i, BUY) && SideAt(live, j, SELL);
    }
  }

  lemma ShadowsAdd(live: Live, px: seq<Price>, os: OrderMap, ref: U64, side: byte, price: Price, shares: Qty)
    requires Shadows(live, px, os) && |live| == |px|
    ensures Shadows(live + [(ref, side)], px + [price], Add(os, ref, side, price, shares))
  {
    var live', px', os' := live + [(ref, side)], px + [price], Add(os, ref, side, price, shares);
    forall r | r in os' ensures HasEntry(live', px', os', r) {
      if r == ref && shares != 0 {
        assert Entry(live', px', |live|, r, side, price);
      } else {
        assert HasEntry(live, px, os, r);
        var i :| Entry(live, px, i, r, os[r].side, os[r].price);
        assert Entry(live', px', i, r, os[r].side, os[r].price);
      }
    }
  }

  /** Executing part of an order moves no price. */
  lemma ShadowsReduce(live: Live, px: seq<Price>, os: OrderMap, ref: U64, qty: Qty)
    requires Shadows(live, px, os)
    ensures Shadows(live, px, Reduce(os, ref, qty))
  {
    var os' := Reduce(os, ref, qty);
    forall r | r in os' ensures HasEntry(live, px, os', r) {
      assert HasEntry(live, px, os, r);
      assert r in os && os[r].side == os'[r].side && os[r].price == os'[r].price;
      var i :| Entry(live, px, i, r, os[r].side, os[r].price);
    }
  }

  /** The swap-pop of entry i. */
  function SwapPop<T>(s: seq<T>, i: nat): seq<T>
    requires i < |s|
  {
    s[i := s[|s| - 1]][..|s| - 1]
  }

  lemma ShadowsDelete(live: Live, px: seq<Price>, os: OrderMap, i: nat)
    requires Shadows(live, px, os) && i < |live| == |px|
    ensures Shadows(SwapPop(live, i), SwapPop(px, i), Remove(os, live[i].0))
  {
    var live', px', os' := SwapPop(live, i), SwapPop(px, i), Remove(os, live[i].0);
    forall r | r in os' ensures HasEntry(live', px', os', r) {
      assert HasEntry(live, px, os, r);
      var j :| Entry(live, px, j, r, os[r].side, os[r].price);
      assert j != i;
      assert Entry(live', px', if j == |live| - 1 then i else j, r, os[r].side, os[r].price);
    }
  }

  lemma ApartAdd(live: Live, px: seq<Price>, top: int, top': int, ref: U64, side: byte, price: Price)
    requires Apart(live, px, top) && top <= top' && side in {BUY, SELL} && price <= top'
    requires price >= (if side == BUY then C else 2 * C)
    requires forall j :: 0 <= j < |live| && live[j].1 != side ==> Better(side == BUY, px[j], price)
    ensures Apart(live + [(ref, side)], px + [price], top')
  {
    var live', px' := live + [(ref, side)], px + [price];
    forall i, j | SideAt(live', i, BUY) && SideAt(live', j, SELL) ensures px'[i] < px'[j] {
      assert i < |live| ==> SideAt(live, i, BUY);
      assert j < |live| ==> SideAt(live, j, SELL);
    }
  }

  lemma ApartDelete(live: Live, px: seq<Price>, top: int, i: nat)
    requires Apart(live, px, top) && i < |live|
    ensures Apart(SwapPop(live, i), SwapPop(px, i), top)
  {
    var live', px', n := SwapPop(live, i), SwapPop(px, i), |live| - 1;
    forall a, b | SideAt(live', a, BUY) && SideAt(live', b, SELL) ensures px'[a] < px'[b] {
      assert SideAt(live, if a == i then n else a, BUY) && SideAt(live, if b == i then n else b, SELL);
    }
  }

  // ---- level totals -------------------------------------------------------------------

  /** No level total above `max`. */
  ghost predicate TotalsWithin(os: OrderMap, max: int) {
    forall bid, p {:trigger TotalAt(os, bid, p)} :: TotalAt(os, bid, p) <= max
  }

  ghost function TotalAt(os: OrderMap, bid: bool, p: Price): nat {
    LevelSum(os, bid, p)
  }

  lemma TotalsAdd(os: OrderMap, max: int, ref: U64, side: byte, price: Price, shares: Qty, max': int)
    requires TotalsWithin(os, max) && ref !in os && max + shares <= max'
    ensures TotalsWithin(Add(os, ref, side, price, shares), max')
  {
    var os' := Add(os, ref, side, price, shares);
    forall bid, p ensures TotalAt(os', bid, p) <= max' {
      assert TotalAt(os, bid, p) <= max;
      if shares != 0 {
        SumAfterSet(os, ref, os'[ref], bid, p);
        assert os - {ref} == os;
      }
    }
  }

  lemma TotalsTake(os: OrderMap, max: int, ref: U64, qty: Qty)
    requires TotalsWithin(os, max)
    ensures TotalsWithin(Reduce(os, ref, qty), max) && TotalsWithin(Remove(os, ref), max)
  {
    forall bid, p ensures TotalAt(Reduce(os, ref, qty), bid, p) <= max && TotalAt(Remove(os, ref), bid, p) <= max {
      assert TotalAt(os, bid, p) <= max;
      if ref in os {
        SplitSum(os, ref, bid, p);
        var d := Min(qty, os[ref].shares);
        if d != os[ref].shares {
          SumAfterSet(os, ref, os[ref].(shares := os[ref].shares - d), bid, p);
        }
      } else {
        assert os - {ref} == os;
      }
    }
  }

  // ---- the run so far -------------------------------------------------------------------

  /** Largest share count of one add. */
  const MAX_SHARES: int := 2549

  /** Prices drift up by at most ten cents a message. */
  function Top(n: nat): int {
    SEED_ASK + 1000 * n
  }

  /** The longest run whose prices surely fit the 32-bit price field. */
  const MAX_MESSAGES: int := 4_293_966

  /** The book after the first k messages. */
  ghost function After(ms: seq<Message>, k: nat): OrderMap
    requires k <= |ms|
  {
    ApplyAll(map[], ms[..k])
  }

  /** Every prefix is uncrossed, and while level totals cannot reach 2^32 every message
      is one the book accepts. */
  ghost predicate Clean(ms: seq<Message>) {
    && (forall k :: 0 <= k <= |ms| ==> Uncrossed(After(ms, k)))
    && (forall k :: 0 <= k < |ms| && MAX_SHARES * (k + 1) < TWO32 ==> Applicable(After(ms, k), ms[k]))
  }

  lemma AfterExtend(ms: seq<Message>, m: Message, k: nat)
    requires k <= |ms|
    ensures After(ms + [m], k) == After(ms, k)
    ensures After(ms + [m], |ms| + 1) == Apply(After(ms, |ms|), m)
    ensures After(ms, |ms|) == ApplyAll(map[], ms)
  {
    var ms' := ms + [m];
    assert ms'[..k] == ms[..k] && ms'[..|ms| + 1] == ms' && ms'[..|ms|] == ms && ms[..|ms|] == ms;
  }

  lemma CleanExtend(ms: seq<Message>, m: Message)
    requires Clean(ms) && Uncrossed(Apply(After(ms, |ms|), m))
    requires MAX_SHARES * (|ms| + 1) < TWO32 ==> Applicable(After(ms, |ms|), m)
    ensures Clean(ms + [m])
  {
    var ms' := ms + [m];
    forall k | 0 <= k <= |ms'| ensures Uncrossed(After(ms', k)) {
      AfterExtend(ms, m, if k <= |ms| then k else |ms|);
    }
    forall k | 0 <= k < |ms'| && MAX_SHARES * (k + 1) < TWO32 ensures Applicable(After(ms', k), ms'[k]) {
      AfterExtend(ms, m, k);
      assert k < |ms| ==> ms'[k] == ms[k];
    }
  }

  /** All that adding an order at a price clear of the other side keeps. */
  lemma AddKeeps(live: Live, px: seq<Price>, os: OrderMap, n: nat, ref: U64, side: byte, price: Price, shares: Qty)
    requires Apart(live, px, Top(n)) && Shadows(live, px, os) && TotalsWithin(os, MAX_SHARES * n)
    requires ref !in os && side in {BUY, SELL} && 0 < shares <= MAX_SHARES && price <= Top(n + 1)
    requires price >= (if side == BUY then C else 2 * C)
    requires forall j :: 0 <= j < |live| && live[j].1 != side ==> Better(side == BUY, px[j], price)
    ensures var os' := Add(os, ref, side, price, shares);
            && Apart(live + [(ref, side)], px + [price], Top(n + 1)) && Shadows(live + [(ref, side)], px + [price], os')
            && Uncrossed(os') && TotalsWithin(os', MAX_SHARES * (n + 1))
    ensures MAX_SHARES * (n + 1) < TWO32 ==> CanAdd(os, ref, side, price, shares)
  {
    ApartAdd(live, px, Top(n), Top(n + 1), ref, side, price);
    ShadowsAdd(live, px, os, ref, side, price, shares);
    ShadowedIsUncrossed(live + [(ref, side)], px + [price], Add(os, ref, side, price, shares), Top(n + 1));
    TotalsAdd(os, MAX_SHARES * n, ref, side, price, shares, MAX_SHARES * (n + 1));
    assert TotalAt(os, side == BUY, price) <= MAX_SHARES * n;
  }

  /** All that deleting shadow entry i keeps. */
  lemma DeleteKeeps(live: Live, px: seq<Price>, os: OrderMap, n: nat, i: nat)
    requires Apart(live, px, Top(n)) && Shadows(live, px, os) && TotalsWithin(os, MAX_SHARES * n) && i < |live|
    ensures var os' := Remove(os, live[i].0);
            && Apart(SwapPop(live, i), SwapPop(px, i), Top(n + 1)) && Shadows(SwapPop(live, i), SwapPop(px, i), os')
            && Uncrossed(os') && TotalsWithin(os', MAX_SHARES * (n + 1))
  {
    ShadowsDelete(live, px, os, i);
    ApartDelete(live, px, Top(n), i);
    TotalsTake(os, MAX_SHARES * n, live[i].0, 0);
    Widen(SwapPop(live, i), SwapPop(px, i), Remove(os, live[i].0), n);
  }

  /** A message the generator may emit next: in wire range, accepted by the book while
      totals cannot wrap, and leaving the book uncrossed. */
  ghost predicate GoodNext(os: OrderMap, n: nat, m: Message) {
    && WireOk(m) && Uncrossed(Apply(os, m))
    && (MAX_SHARES * (n + 1) < TWO32 ==> Applicable(os, m))
  }

  // ---- what the draws decide ----------------------------------------------------------------

  ghost predicate HasSide(live: Live, side: byte) {
    exists i :: SideAt(live, i, side)
  }

  /** The extreme shadow price of a side, or its seed price when the side is empty. */
  ghost predicate ShadowBest(live: Live, px: seq<Price>, side: byte, v: Price)
    requires |live| == |px|
  {
    && (HasSide(live, side) ==> exists i :: SideAt(live, i, side) && px[i] == v)
    && (forall i {:trigger SideAt(live, i, side)} :: SideAt(live, i, side) ==> !Better(side == BUY, px[i], v))
    && (!HasSide(live, side) ==> v == if side == BUY then 1001000 else 1001100)
  }

  /** k cents beyond one cent off the opposite best, and a bid no lower than one cent. */
  ghost predicate Priced(live: Live, px: seq<Price>, side: byte, k: nat, price: Price)
    requires |live| == |px|
  {
    exists v :: ShadowBest(live, px, Opposite(side), v)
                && price == if side == BUY then Highest(100, v - 100 - 100 * k) else v + 100 + 100 * k
  }

  function Opposite(side: byte): byte {
    if side == BUY then SELL else BUY
  }

  function Highest(a: int, b: int): int {
    if a < b then b else a
  }

  /** The symbol every message carries. */
  ghost predicate IsSynth(stock: seq<byte>) {
    |stock| == 8 && forall i :: 0 <= i < 8 ==> stock[i] == "SYNTH   "[i] as int
  }

  /** The add that the draws from `at` on call for. */
  ghost predicate Added(rng: nat -> nat, at: nat, live: Live, px: seq<Price>, ref: nat, ts: nat, side: byte, m: Message)
    requires |live| == |px|
  {
    && m.typ == MsgType.AddOrder && m.locate == 1 && m.timestamp == ts && m.ref == ref && m.side == side
    && Priced(live, px, side, rng(at) % 10, m.price) && m.shares == 50 + rng(at + 1) % 2500 && IsSynth(m.stock)
  }

  ghost predicate Executed(rng: nat -> nat, at: nat, live: Live, ts: nat, n: nat, m: Message)
    requires |live| > 0
  {
    && m.typ == OrderExecuted && m.locate == 1 && m.timestamp == ts && m.ref == live[rng(at) % |live|].0
    && m.shares == 5 + rng(at + 1) % 150 && m.matchNumber == n
  }

  ghost predicate Deleted(rng: nat -> nat, at: nat, live: Live, ts: nat, m: Message)
    requires |live| > 0
  {
    m.typ == OrderDelete && m.locate == 1 && m.timestamp == ts && m.ref == live[rng(at) % |live|].0
  }

  ghost predicate Printed(rng: nat -> nat, at: nat, live: Live, px: seq<Price>, ts: nat, n: nat, m: Message)
    requires |live| == |px|
  {
    && m.typ == Trade && m.locate == 1 && m.timestamp == ts && m.ref == 0 && m.matchNumber == n && IsSynth(m.stock)
    && m.side == (if rng(at) % 2 == 0 then BUY else SELL) && m.shares == 10 + rng(at + 1) % 600
    && exists bid, ask :: ShadowBest(live, px, BUY, bid) && ShadowBest(live, px, SELL, ask) && m.price == (bid + ask) / 2
  }

  /** A round of the main loop: the roll decides what is emitted. */
  ghost predicate Rolled(rng: nat -> nat, at: nat, live: Live, px: seq<Price>, ref: nat, ts: nat, n: nat, m: Message)
    requires |live| == |px|
  {
    var roll := rng(at) % 100;
    if roll < 42 || |live| < 10 then Added(rng, at + 2, live, px, ref, ts, if rng(at + 1) % 2 == 0 then BUY else SELL, m)
    else if roll < 64 then Executed(rng, at + 1, live, ts, n, m)
    else if roll < 82 then Deleted(rng, at + 1, live, ts, m)
    else Printed(rng, at + 1, live, px, ts, n, m)
  }

  /** The generator's variables as a value. */
  datatype State = State(pos: nat, live: Live, px: seq<Price>, ref: nat, ts: nat)

  const INITIAL: State := State(0, [], [], 1, 34200000000000)

  function WithOrder(s: State, m: Message): State {
    s.(live := s.live + [(m.ref, m.side)], px := s.px + [m.price], ref := s.ref + 1)
  }

  /** Seeding: message i is an add, bids and asks in turn; the clock stands still. */
  ghost predicate SeedStep(rng: nat -> nat, s: State, i: nat, m: Message, s': State) {
    && |s.live| == |s.px| && Added(rng, s.pos, s.live, s.px, s.ref, s.ts, if i % 2 == 1 then SELL else BUY, m)
    && s' == WithOrder(s, m).(pos := s.pos + 2)
  }

  /** The main loop: what was rolled, what it does to the shadow arrays, and the clock. */
  ghost predicate MainStep(rng: nat -> nat, s: State, i: nat, m: Message, s': State) {
    && |s.live| == |s.px| && Rolled(rng, s.pos, s.live, s.px, s.ref, s.ts, i, m)
    && var t := AfterEmit(rng, s, m);
       s' == t.(pos := t.pos + 1, ts := s.ts + 1 + rng(t.pos) % 800)
  }

  /** The variables once message m is out, before the clock moves. */
  function AfterEmit(rng: nat -> nat, s: State, m: Message): State
    requires |s.live| == |s.px|
  {
    match m.typ
    case AddOrder => WithOrder(s, m).(pos := s.pos + 4)
    case OrderDelete =>
      if s.live == [] then s
      else
        var k := rng(s.pos + 1) % |s.live|;
        s.(live := SwapPop(s.live, k), px := SwapPop(s.px, k), pos := s.pos + 2)
    case _ => s.(pos := s.pos + 3)
  }

  lemma RolledAdd(rng: nat -> nat, s: State, i: nat, m: Message)
    requires |s.live| == |s.px| && (rng(s.pos) % 100 < 42 || |s.live| < 10)
    requires Added(rng, s.pos + 2, s.live, s.px, s.ref, s.ts, if rng(s.pos + 1) % 2 == 0 then BUY else SELL, m)
    ensures Rolled(rng, s.pos, s.live, s.px, s.ref, s.ts, i, m) && AfterEmit(rng, s, m) == WithOrder(s, m).(pos := s.pos + 4)
  {
  }

  lemma RolledDelete(rng: nat -> nat, s: State, i: nat, m: Message)
    requires |s.live| == |s.px| >= 10 && 64 <= rng(s.pos) % 100 < 82 && Deleted(rng, s.pos + 1, s.live, s.ts, m)
    ensures Rolled(rng, s.pos, s.live, s.px, s.ref, s.ts, i, m)
    ensures var k := rng(s.pos + 1) % |s.live|;
            AfterEmit(rng, s, m) == s.(live := SwapPop(s.live, k), px := SwapPop(s.px, k), pos := s.pos + 2)
  {
  }

  lemma RolledOther(rng: nat -> nat, s: State, i: nat, m: Message)
    requires |s.live| == |s.px| >= 10
    requires || (42 <= rng(s.pos) % 100 < 64 && Executed(rng, s.pos + 1, s.live, s.ts, i, m))
             || (82 <= rng(s.pos) % 100 && Printed(rng, s.pos + 1, s.live, s.px, s.ts, i, m))
    ensures Rolled(rng, s.pos, s.live, s.px, s.ref, s.ts, i, m) && AfterEmit(rng, s, m) == s.(pos := s.pos + 3)
  {
  }

  ghost predicate Step(rng: nat -> nat, s: State, i: nat, m: Message, s': State) {
    if i < 20 then SeedStep(rng, s, i, m, s') else MainStep(rng, s, i, m, s')
  }

  /** The messages are those that the random stream calls for, one by one. */
  ghost predicate Trace(rng: nat -> nat, ms: seq<Message>, ss: seq<State>) {
    && |ss| == |ms| + 1 && ss[0] == INITIAL
    && forall i :: 0 <= i < |ms| ==> Step(rng, ss[i], i, ms[i], ss[i + 1])
  }

  lemma TraceSnoc(rng: nat -> nat, ms: seq<Message>, ss: seq<State>, m: Message, s': State)
    requires Trace(rng, ms, ss) && Step(rng, ss[|ms|], |ms|, m, s')
    ensures Trace(rng, ms + [m], ss + [s'])
  {
    var ms', ss' := ms + [m], ss + [s'];
    forall i | 0 <= i < |ms'| ensures Step(rng, ss'[i], i, ms'[i], ss'[i + 1]) {
      if i < |ms| { assert ss'[i] == ss[i] && ss'[i + 1] == ss[i + 1] && ms'[i] == ms[i]; }
    }
  }

  /** The random stream decides the message: two traces agree step by step. */
  lemma StepIsDetermined(rng: nat -> nat, s: State, i: nat, m: Message, s1: State, m2: Message, s2: State)
    requires Step(rng, s, i, m, s1) && Step(rng, s, i, m2, s2)
    ensures m.typ == m2.typ && m.locate == m2.locate && m.timestamp == m2.timestamp && m.ref == m2.ref
    ensures m.typ == MsgType.AddOrder ==> m.side == m2.side && m.price == m2.price && m.shares == m2.shares && m.stock == m2.stock
    ensures m.typ == OrderExecuted ==> m.shares == m2.shares && m.matchNumber == m2.matchNumber
    ensures m.typ == Trade ==> m.side == m2.side && m.price == m2.price && m.shares == m2.shares && m.matchNumber == m2.matchNumber
  {
    BestIsOne(s.live, s.px);
  }

  lemma BestIsOne(live: Live, px: seq<Price>)
    requires |live| == |px|
    ensures forall side: byte, v, w :: ShadowBest(live, px, side, v) && ShadowBest(live, px, side, w) ==> v == w
  {
  }

  /** The first message of any feed: a bid at most ten cents under $100.11. */
  lemma FirstBid(rng: nat -> nat, ms: seq<Message>, ss: seq<State>)
    requires Trace(rng, ms, ss) && ms != []
    ensures ms[0].typ == MsgType.AddOrder && ms[0].side == 'B' as int && ms[0].ref == 1
    ensures ms[0].price == 1001000 - 100 * (rng(0) % 10) && ms[0].shares == 50 + rng(1) % 2500
  {
    assert Step(rng, ss[0], 0, ms[0], ss[0 + 1]);
  }

  function AddMsg(ts: U64, ref: U64, side: byte, shares: Qty, price: Price): Message {
    BLANK.(typ := MsgType.AddOrder, locate := 1, timestamp := ts, ref := ref, side := side, shares := shares, stock := STOCK, price := price)
  }

  lemma AddMsgIs(os: OrderMap, ts: U64, ref: U64, side: byte, shares: Qty, price: Price)
    requires ts < 0x1_0000_0000_0000 && 0 <= price < TWO32
    ensures var m := AddMsg(ts, ref, side, shares, price);
            && WireOk(m) && Apply(os, m) == Add(os, ref, side, price, shares) && IsSynth(m.stock)
            && (Applicable(os, m) <==> CanAdd(os, ref, side, price, shares))
  {
  }

  function DeleteMsg(ts: U64, ref: U64): Message {
    BLANK.(typ := OrderDelete, locate := 1, timestamp := ts, ref := ref)
  }

  lemma DeleteMsgIs(os: OrderMap, ts: U64, ref: U64)
    requires ts < 0x1_0000_0000_0000
    ensures var m := DeleteMsg(ts, ref); WireOk(m) && Apply(os, m) == Remove(os, ref) && Applicable(os, m)
  {
  }

  function PrintMsg(ts: U64, side: byte, shares: Qty, price: Price, n: U64): Message {
    BLANK.(typ := Trade, locate := 1, timestamp := ts, side := side, shares := shares, stock := STOCK, price := price, matchNumber := n)
  }

  lemma PrintMsgIs(os: OrderMap, ts: U64, side: byte, shares: Qty, price: Price, n: U64)
    requires ts < 0x1_0000_0000_0000 && 0 <= price < TWO32
    ensures var m := PrintMsg(ts, side, shares, price, n);
            WireOk(m) && Apply(os, m) == os && Applicable(os, m) && IsSynth(m.stock)
  {
  }

  /** The generator's state besides the bytes written: the random stream, the shadow
      arrays, the next reference and the clock. */
  class Generator {
    const rng: nat -> nat
    var pos: nat
    var live: Live
    var px: seq<Price>
    var nextRef: nat
    var ts: nat

    ghost function View(): State reads this {
      State(pos, live, px, nextRef, ts)
    }

    /** The state after n messages that built the book `os`. */
    ghost predicate Tracks(os: OrderMap, n: nat) reads this {
      && 1 <= nextRef <= 1 + n && START_TS <= ts <= START_TS + 800 * n
      && (forall r :: r in os ==> r < nextRef)
      && Apart(live, px, Top(n)) && Shadows(live, px, os)
      && TotalsWithin(os, MAX_SHARES * n)
    }

    constructor (rng: nat -> nat)
      ensures Tracks(map[], 0) && this.rng == rng && View() == INITIAL
    {
      this.rng := rng;
      pos, live, px, nextRef, ts := 0, [], [], 1, START_TS;
    }

    method Draw(hi: nat) returns (x: nat)
      requires hi > 0
      modifies this`pos
      ensures x == rng(old(pos)) % hi && pos == old(pos) + 1
    {
      x := rng(pos) % hi;
      pos := pos + 1;
    }

    /** The best shadow price of a side, or its seed price. */
    method Best(side: byte, ghost top: int) returns (v: Price)
      requires Apart(live, px, top) && top >= SEED_ASK && side in {BUY, SELL}
      ensures forall i :: 0 <= i < |live| && live[i].1 == side ==> !Better(side == BUY, px[i], v)
      ensures (if side == BUY then C else 2 * C) <= v <= top
      ensures ShadowBest(live, px, side, v)
    {
      var any := false;
      v := 0;
      var i := 0;
      while i < |live|
        invariant 0 <= i <= |live|
        invariant any ==> exists j :: 0 <= j < i && live[j].1 == side && px[j] == v
        invariant any ==> forall j :: 0 <= j < i && live[j].1 == side ==> !Better(side == BUY, px[j], v)
        invariant !any ==> forall j :: 0 <= j < i ==> live[j].1 != side
      {
        if live[i].1 == side {
          if !any {
            v, any := px[i], true;
          } else if (if side == BUY then px[i] > v else px[i] < v) {
            v := px[i];
          }
        }
        i := i + 1;
      }
      if !any {
        v := if side == BUY then SEED_BID else SEED_ASK;
      } else {
        var j :| 0 <= j < |live| && live[j].1 == side && px[j] == v;
        assert SideAt(live, j, side);
      }
    }

    /** A price strictly clear of the other side of the shadow list. */
    method PriceFor(side: byte, ghost n: nat) returns (price: Price)
      requires Apart(live, px, Top(n)) && side in {BUY, SELL}
      modifies this`pos
      ensures (if side == BUY then C else 2 * C) <= price <= Top(n + 1)
      ensures forall j :: 0 <= j < |live| && live[j].1 != side ==> Better(side == BUY, px[j], price)
      ensures Priced(live, px, side, rng(old(pos)) % 10, price) && pos == old(pos) + 1
    {
      var bb := Best(BUY, Top(n));
      var ba := Best(SELL, Top(n));
      var step := Draw(10);
      price := if side == BUY then ba - C - step * C else bb + C + step * C;
      if price < C { price := C; }
      assert ShadowBest(live, px, Opposite(side), if side == BUY then ba else bb);
      assert side == BUY ==> price == Highest(100, ba - 100 - 100 * step);
    }

    method AddOrder(side: byte, ghost os: OrderMap, ghost n: nat) returns (m: Message)
      requires Tracks(os, n) && side in {BUY, SELL} && n < MAX_MESSAGES
      modifies this`pos, this`live, this`px, this`nextRef
      ensures GoodNext(os, n, m) && Tracks(Apply(os, m), n + 1)
      ensures |old(live)| == |old(px)| && Added(rng, old(pos), old(live), old(px), old(nextRef), ts, side, m)
      ensures View() == WithOrder(old(View()), m).(pos := old(pos) + 2)
    {
      var price := PriceFor(side, n);
      var ref := nextRef;
      nextRef := nextRef + 1;
      var sh := Draw(2500);
      var shares := 50 + sh;
      AddKeeps(live, px, os, n, ref, side, price, shares);
      m := AddMsg(ts, ref, side, shares, price);
      AddMsgIs(os, ts, ref, side, shares, price);
      live := live + [(ref, side)];
      px := px + [price];
    }

    /** Execute part of a random shadow order. */
    method Execute(emitted: nat, ghost os: OrderMap) returns (m: Message)
      requires Tracks(os, emitted) && |live| > 0 && emitted < MAX_MESSAGES
      modifies this`pos
      ensures GoodNext(os, emitted, m) && Tracks(Apply(os, m), emitted + 1)
      ensures Executed(rng, old(pos), live, ts, emitted, m) && View() == old(View()).(pos := old(pos) + 2)
    {
      var i := Draw(|live|);
      var q := Draw(150);
      var ref, shares := live[i].0, 5 + q;
      ShadowsReduce(live, px, os, ref, shares);
      TotalsTake(os, MAX_SHARES * emitted, ref, shares);
      Widen(live, px, Reduce(os, ref, shares), emitted);
      m := BLANK.(typ := OrderExecuted, locate := 1, timestamp := ts, ref := ref, shares := shares, matchNumber := emitted);
      assert Apply(os, m) == Reduce(os, ref, shares);
    }

    /** Delete a random shadow order, by swap-pop. */
    method Delete(emitted: nat, ghost os: OrderMap) returns (m: Message)
      requires Tracks(os, emitted) && |live| > 0 && emitted < MAX_MESSAGES
      modifies this`pos, this`live, this`px
      ensures GoodNext(os, emitted, m) && Tracks(Apply(os, m), emitted + 1)
      ensures |old(live)| > 0 && Deleted(rng, old(pos), old(live), ts, m) && pos == old(pos) + 1
      ensures |old(px)| == |old(live)| && live == SwapPop(old(live), rng(old(pos)) % |old(live)|)
      ensures px == SwapPop(old(px), rng(old(pos)) % |old(live)|)
    {
      var i := Draw(|live|);
      var ref := live[i].0;
      DeleteKeeps(live, px, os, emitted, i);
      m := DeleteMsg(ts, ref);
      DeleteMsgIs(os, ts, ref);
      var n := |live| - 1;
      live := live[i := live[n]];
      live := live[..n];
      px := px[i := px[n]];
      px := px[..n];
    }

    /** A trade print at the mid: no change to the book. */
    method Print(emitted: nat, ghost os: OrderMap) returns (m: Message)
      requires Tracks(os, emitted) && emitted < MAX_MESSAGES
      modifies this`pos
      ensures GoodNext(os, emitted, m) && Tracks(Apply(os, m), emitted + 1)
      ensures |live| == |px| && Printed(rng, old(pos), live, px, ts, emitted, m) && View() == old(View()).(pos := old(pos) + 2)
    {
      var bb := Best(BUY, Top(emitted));
      var ba := Best(SELL, Top(emitted));
      var mid := (bb + ba) / 2;
      var s := Draw(2);
      var q := Draw(600);
      Widen(live, px, os, emitted);
      m := PrintMsg(ts, if s == 0 then BUY else SELL, 10 + q, mid, emitted);
      PrintMsgIs(os, ts, if s == 0 then BUY else SELL, 10 + q, mid, emitted);
    }

    /** One round of the main loop. */
    method Next(emitted: nat, ghost os: OrderMap) returns (m: Message)
      requires Tracks(os, emitted) && emitted < MAX_MESSAGES
      modifies this
      ensures GoodNext(os, emitted, m) && Tracks(Apply(os, m), emitted + 1)
      ensures MainStep(rng, old(View()), emitted, m, View())
    {
      ghost var s := View();
      var roll := Draw(100);
      m := Emit(roll, emitted, os, s);
      var d := Draw(800);
      ts := ts + 1 + d;
    }

    method Emit(roll: nat, emitted: nat, ghost os: OrderMap, ghost s: State) returns (m: Message)
      requires Tracks(os, emitted) && emitted < MAX_MESSAGES && roll == rng(s.pos) % 100 && View() == s.(pos := s.pos + 1)
      modifies this`pos, this`live, this`px, this`nextRef
      ensures GoodNext(os, emitted, m) && Tracks(Apply(os, m), emitted + 1) && ts <= START_TS + 800 * emitted
      ensures |s.live| == |s.px| && Rolled(rng, s.pos, s.live, s.px, s.ref, s.ts, emitted, m)
      ensures View() == AfterEmit(rng, s, m)
    {
      if roll < 42 || |live| < 10 {
        var d := Draw(2);
        m := AddOrder(if d == 0 then BUY else SELL, os, emitted);
        RolledAdd(rng, s, emitted, m);
      } else if roll < 64 {
        m := Execute(emitted, os);
        RolledOther(rng, s, emitted, m);
      } else if roll < 82 {
        m := Delete(emitted, os);
        RolledDelete(rng, s, emitted, m);
      } else {
        m := Print(emitted, os);
        RolledOther(rng, s, emitted, m);
      }
    }
  }

  /** What holds after n messages holds after n + 1 that change no shadow price. */
  lemma Widen(live: Live, px: seq<Price>, os: OrderMap, n: nat)
    requires Apart(live, px, Top(n)) && Shadows(live, px, os) && TotalsWithin(os, MAX_SHARES * n)
    ensures Apart(live, px, Top(n + 1)) && TotalsWithin(os, MAX_SHARES * (n + 1)) && Uncrossed(os)
  {
    ShadowedIsUncrossed(live, px, os, Top(n));
  }

  /** The bytes are the framed messages, and every prefix of those is clean. */
  ghost predicate Produced(b: Bytes, ms: seq<Message>) {
    AllWire(ms) && b == FrameAll(EncodeAll(ms)) && Clean(ms)
  }

  /** The book that the messages so far reconstruct. */
  ghost function Current(ms: seq<Message>): OrderMap {
    ApplyAll(map[], ms)
  }

  lemma ProducedNone()
    ensures Produced([], []) && Current([]) == map[]
  {
    var none: seq<Message> := [];
    assert none[..0] == [];
  }

  /** Lay out, frame and append one message. */
  method Append(b: Bytes, m: Message, ghost ms: seq<Message>) returns (b': Bytes)
    requires Produced(b, ms) && GoodNext(Current(ms), |ms|, m)
    ensures Produced(b', ms + [m]) && Current(ms + [m]) == Apply(Current(ms), m)
  {
    EncodeAllSnoc(ms, m);
    FrameAllSnoc(EncodeAll(ms), Encode(m));
    AfterExtend(ms, m, |ms|);
    CleanExtend(ms, m);
    assert (ms + [m])[..|ms| + 1] == ms + [m];
    b' := b + Frame(Encode(m));
  }

  /** The loop invariant: what was written is good and is what the stream calls for, and the
      generator tracks its book. */
  ghost predicate Running(g: Generator, b: Bytes, ms: seq<Message>, ss: seq<State>) reads g {
    Produced(b, ms) && g.Tracks(Current(ms), |ms|) && Trace(g.rng, ms, ss) && ss[|ms|] == g.View()
  }

  /** One of the seeding adds, on alternate sides. */
  method SeedRound(g: Generator, emitted: nat, b: Bytes, ghost ms: seq<Message>, ghost ss: seq<State>)
    returns (b': Bytes, ghost ms': seq<Message>, ghost ss': seq<State>)
    requires Running(g, b, ms, ss) && emitted == |ms| < MAX_MESSAGES && emitted < 20
    modifies g
    ensures Running(g, b', ms', ss') && |ms'| == emitted + 1
  {
    var m := g.AddOrder(if emitted % 2 == 1 then SELL else BUY, Current(ms), emitted);
    b' := Append(b, m, ms);
    TraceSnoc(g.rng, ms, ss, m, g.View());
    ms', ss' := ms + [m], ss + [g.View()];
  }

  method MainRound(g: Generator, emitted: nat, b: Bytes, ghost ms: seq<Message>, ghost ss: seq<State>)
    returns (b': Bytes, ghost ms': seq<Message>, ghost ss': seq<State>)
    requires Running(g, b, ms, ss) && emitted == |ms| < MAX_MESSAGES && emitted >= 20
    modifies g
    ensures Running(g, b', ms', ss') && |ms'| == emitted + 1
  {
    var m := g.Next(emitted, Current(ms));
    b' := Append(b, m, ms);
    TraceSnoc(g.rng, ms, ss, m, g.View());
    ms', ss' := ms + [m], ss + [g.View()];
  }

  /** make_synthetic_book, for every random stream: n framed messages, every prefix of
      which reconstructs to an uncrossed book. */
  method MakeSyntheticBook(n: nat, rng: nat -> nat) returns (b: Bytes)
    requires n <= MAX_MESSAGES
    ensures var ms := Decoded(Bodies(b));
            |ms| == n && AllWire(ms) && b == FrameAll(EncodeAll(ms)) && Clean(ms)
    ensures exists ss :: Trace(rng, Decoded(Bodies(b)), ss)
  {
    var g := new Generator(rng);
    ghost var ms, ss;
    b, ms, ss := Seed(g, n);
    b, ms, ss := Churn(g, n, b, ms, ss);
    AllOut(rng, b, ms, ss);
  }

  /** The seeding loop: up to twenty adds. */
  method Seed(g: Generator, n: nat) returns (b: Bytes, ghost ms: seq<Message>, ghost ss: seq<State>)
    requires n <= MAX_MESSAGES && g.View() == INITIAL && g.Tracks(map[], 0)
    modifies g
    ensures Running(g, b, ms, ss) && |ms| == Min(20, n)
  {
    b, ms, ss := [], [], [g.View()];
    ProducedNone();
    var emitted := 0;
    while emitted < 20 && emitted < n
      invariant emitted == |ms| <= Min(20, n) && Running(g, b, ms, ss)
    {
      b, ms, ss := SeedRound(g, emitted, b, ms, ss);
      emitted := emitted + 1;
    }
  }

  /** The main loop. */
  method Churn(g: Generator, n: nat, b0: Bytes, ghost ms0: seq<Message>, ghost ss0: seq<State>)
    returns (b: Bytes, ghost ms: seq<Message>, ghost ss: seq<State>)
    requires n <= MAX_MESSAGES && Running(g, b0, ms0, ss0) && |ms0| == Min(20, n)
    modifies g
    ensures Running(g, b, ms, ss) && |ms| == n
  {
    b, ms, ss := b0, ms0, ss0;
    var emitted := Min(20, n);
    while emitted < n
      invariant emitted == |ms| <= n && Running(g, b, ms, ss)
    {
      b, ms, ss := MainRound(g, emitted, b, ms, ss);
      emitted := emitted + 1;
    }
  }

  lemma AllOut(rng: nat -> nat, b: Bytes, ms: seq<Message>, ss: seq<State>)
    requires Produced(b, ms) && Trace(rng, ms, ss)
    ensures Decoded(Bodies(b)) == ms && AllWire(ms) && b == FrameAll(EncodeAll(ms)) && Clean(ms)
    ensures exists ss :: Trace(rng, Decoded(Bodies(b)), ss)
  {
    FeedRoundTrip(ms);
  }

  /** The bytes may be cut anywhere: what the deframer and decoder read from any prefix
      of the output reconstructs to an uncrossed book, so its best bid is below its best
      ask whenever both exist. */
  lemma NeverCrossed(ms: seq<Message>, k: nat)
    requires AllWire(ms) && Clean(ms) && k <= |FrameAll(EncodeAll(ms))|
    ensures Uncrossed(ApplyAll(map[], Decoded(Bodies(FrameAll(EncodeAll(ms))[..k]))))
  {
    CutFeed(ms, k);
    var got := Decoded(Bodies(FrameAll(EncodeAll(ms))[..k]));
    assert got == ms[..|got|];
    assert Uncrossed(After(ms, |got|));
  }

  /** Uncrossed orders are uncrossed quotes, for every level store that mirrors them. */
  lemma QuotesUncrossed(os: OrderMap, bids: LevelMap, asks: LevelMap)
    requires Uncrossed(os) && Mirrors(bids, os, true) && Mirrors(asks, os, false)
    requires forall r :: r in os ==> os[r].shares > 0
    ensures var b, a := BestQuote(true, bids), BestQuote(false, asks);
            b.Quote? && a.Quote? ==> b.price < a.price
  {
    BestOfOrders(bids, os, true);
    BestOfOrders(asks, os, false);
    var b, a := BestQuote(true, bids), BestQuote(false, asks);
    if b.Quote? && a.Quote? {
      var r :| OnLevel(os, true, b.price, r);
      var s :| OnLevel(os, false, a.price, s);
    }
  }
}
