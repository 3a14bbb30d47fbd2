/** The order-based book reconstructor: order references to pool handles to
    orders, with the level totals of each side kept incrementally. */
module OrderBook {
  import opened Prelude
  import opened Levels
  import opened Messages
  import opened Orders
  import opened LevelStore
  import opened ObjectPool

  const BLANK_ORDER: Order := Order(NO_SIDE, 0, 0)

  /** The handles of `index` lead to exactly the orders `os`. */
  ghost predicate Stored(index: map<U64, nat>, slots: seq<Order>, os: OrderMap) {
    && (forall r :: r in index ==> r in os && index[r] < |slots| && slots[index[r]] == os[r])
    && (forall r :: r in os ==> r in index)
  }

  ghost predicate Live(os: OrderMap) {
    forall r :: r in os ==> os[r].shares > 0 && os[r].price >= 0
  }

  function Max(a: int, b: int): int {
    if a < b then b else a
  }

  lemma StoredSet(index: map<U64, nat>, slots: seq<Order>, os: OrderMap, r: U64, h: nat, o: Order)
    requires Stored(index, slots, os) && h < |slots|
    requires forall k :: k in index && k != r ==> index[k] != h
    ensures Stored(index[r := h], slots[h := o], os[r := o])
  {
  }

  lemma StoredDrop(index: map<U64, nat>, slots: seq<Order>, os: OrderMap, r: U64)
    requires Stored(index, slots, os)
    ensures Stored(index - {r}, slots, os - {r})
  {
  }

  lemma StoredGrow(index: map<U64, nat>, slots: seq<Order>, os: OrderMap, o: Order)
    requires Stored(index, slots, os)
    ensures Stored(index, slots + [o], os)
  {
  }

  lemma StoredCount(index: map<U64, nat>, slots: seq<Order>, os: OrderMap)
    requires Stored(index, slots, os)
    ensures |index| == |os|
  {
    assert forall r :: r in index <==> r in os;
    assert index.Keys == os.Keys;
  }

  class Book {
    const bids: Store
    const asks: Store
    const pool: ObjectPool<Order>
    var index: map<U64, nat>
    ghost var owner: map<nat, U64>
    ghost var orders: OrderMap
    /** The highest number of orders ever live at once. */
    ghost var peak: nat

    ghost predicate Separate() {
      && bids.Obj() != asks.Obj()
      && pool != bids.Obj() && pool != asks.Obj()
      && this != bids.Obj() && this != asks.Obj() && this as object != pool
    }

    /** live(): the slots that are not on the free list. */
    function InUse(): int reads this, pool {
      |pool.slots| - |pool.free|
    }

    ghost predicate PoolOk() reads this, pool {
      && Partitioned(|pool.slots|, pool.free, index, owner)
      && Stored(index, pool.slots, orders)
      && |pool.slots| == peak
    }

    ghost predicate LevelsOk() reads this, bids.Obj(), asks.Obj() {
      && bids.Valid() && asks.Valid()
      && bids.High() && !asks.High()
      && Mirrors(bids.Contents(), orders, true)
      && Mirrors(asks.Contents(), orders, false)
    }

    ghost predicate Valid() reads this, pool, bids.Obj(), asks.Obj() {
      Separate() && PoolOk() && LevelsOk() && Live(orders)
    }

    constructor (kind: Kind)
      ensures Valid() && fresh(this) && fresh(pool) && fresh(bids.Obj()) && fresh(asks.Obj())
      ensures orders == map[] && peak == 0 && bids.KindOf() == asks.KindOf() == kind
    {
      var b := NewStore(kind, true);
      var a := NewStore(kind, false);
      bids, asks := b, a;
      pool := new ObjectPool<Order>();
      index, owner, orders, peak := map[], map[], map[], 0;
    }

    /** Give `ref` a pool slot holding `o`. */
    method Insert(ref: U64, o: Order)
      requires PoolOk() && this as object != pool && ref !in orders
      modifies this`index, this`owner, this`peak, this`orders, pool
      ensures PoolOk() && orders == old(orders)[ref := o]
      ensures peak == Max(old(peak), InUse())
    {
      ghost var free0, slots0 := pool.free, pool.slots;
      var h := pool.Alloc(BLANK_ORDER);
      if free0 != [] {
        TakeFree(|slots0|, pool.free, index, owner, ref, h);
      } else {
        Grow(|slots0|, index, owner, ref);
        StoredGrow(index, slots0, orders, BLANK_ORDER);
      }
      StoredSet(index, pool.slots, orders, ref, h, o);
      pool.Store(h, o);
      index := index[ref := h];
      owner := owner[h := ref];
      orders := orders[ref := o];
      peak := |pool.slots|;
    }

    /** Take `d` shares off the order `ref`, freeing its slot when none are left. */
    method TakeShares(ref: U64, d: Qty)
      requires PoolOk() && this as object != pool
      requires ref in orders && d <= orders[ref].shares
      modifies this`index, this`owner, this`orders, pool
      ensures PoolOk()
      ensures orders == Taken(old(orders), ref, d)
    {
      var h := index[ref];
      var o := pool.slots[h];
      if o.shares - d == 0 {
        GiveBack(|pool.slots|, pool.free, index, owner, ref);
        StoredDrop(index, pool.slots, orders, ref);
        pool.Free(h);
        index := index - {ref};
        owner := owner - {h};
        orders := orders - {ref};
      } else {
        assert forall k :: k in index && k != ref ==> index[k] != h;
        StoredSet(index, pool.slots, orders, ref, h, o.(shares := o.shares - d));
        assert index[ref := h] == index;
        pool.Store(h, o.(shares := o.shares - d));
        orders := orders[ref := o.(shares := o.shares - d)];
      }
    }

    method AddOrder(ref: U64, side: byte, price: Price, shares: Qty)
      requires Valid() && CanAdd(orders, ref, side, price, shares)
      modifies this, pool, bids.Obj(), asks.Obj()
      ensures Valid()
      ensures orders == Add(old(orders), ref, side, price, shares)
      ensures peak == Max(old(peak), InUse())
    {
      if shares == 0 {
        return;
      }
      assert At(bids.Contents(), price) == LevelSum(orders, true, price);
      assert At(asks.Contents(), price) == LevelSum(orders, false, price);
      Enter(ref, Order(side, price, shares));
    }

    /** Rest a new order on its level. */
    method Enter(ref: U64, o: Order)
      requires Valid() && ref !in orders && o.shares > 0 && o.price >= 0
      requires IsBid(o) ==> At(bids.Contents(), o.price) + o.shares < TWO32
      requires !IsBid(o) ==> At(asks.Contents(), o.price) + o.shares < TWO32
      modifies this, pool, bids.Obj(), asks.Obj()
      ensures Valid()
      ensures orders == old(orders)[ref := o]
      ensures peak == Max(old(peak), InUse())
    {
      if IsBid(o) {
        EnterOn(ref, o, bids, asks);
      } else {
        EnterOn(ref, o, asks, bids);
      }
    }

    /** The side the order goes to, and the other one. */
    method EnterOn(ref: U64, o: Order, own: Store, other: Store)
      requires Valid() && ref !in orders && o.shares > 0 && o.price >= 0
      requires IsBid(o) ==> own == bids && other == asks
      requires !IsBid(o) ==> own == asks && other == bids
      requires At(own.Contents(), o.price) + o.shares < TWO32
      modifies this, pool, own.Obj()
      ensures Valid()
      ensures orders == old(orders)[ref := o]
      ensures peak == Max(old(peak), InUse())
    {
      MirrorAdd(own.Contents(), orders, ref, o);
      MirrorOther(other.Contents(), orders, ref, o);
      Insert(ref, o);
      own.IncLevel(o.price, o.shares);
    }

    /** Take `d` of an order's shares off the order and off its level. */
    method Shrink(ref: U64, d: Qty)
      requires Valid() && ref in orders && d <= orders[ref].shares
      modifies this`index, this`owner, this`orders, pool, bids.Obj(), asks.Obj()
      ensures Valid()
      ensures orders == Taken(old(orders), ref, d)
    {
      var o := pool.slots[index[ref]];
      if IsBid(o) {
        ShrinkOn(ref, o, d, bids, asks);
      } else {
        ShrinkOn(ref, o, d, asks, bids);
      }
    }

    method ShrinkOn(ref: U64, o: Order, d: Qty, own: Store, other: Store)
      requires Valid() && ref in orders && o == orders[ref] && d <= o.shares
      requires IsBid(o) ==> own == bids && other == asks
      requires !IsBid(o) ==> own == asks && other == bids
      modifies this`index, this`owner, this`orders, pool, own.Obj()
      ensures Valid()
      ensures orders == Taken(old(orders), ref, d)
    {
      MirrorTake(own.Contents(), orders, ref, d);
      MirrorTakeOther(other.Contents(), orders, ref, d);
      TakeShares(ref, d);
      own.DecLevel(o.price, d);
    }

    method ReduceOrder(ref: U64, qty: Qty) returns (known: bool)
      requires Valid()
      modifies this, pool, bids.Obj(), asks.Obj()
      ensures Valid()
      ensures known == (ref in old(orders)) && orders == Reduce(old(orders), ref, qty)
      ensures OthersKept(old(orders), orders, ref) && (ref in orders <==> known && qty < old(orders)[ref].shares)
      ensures ref in orders ==> orders[ref] == old(orders)[ref].(shares := old(orders)[ref].shares - qty)
      ensures peak == old(peak)
    {
      ReduceIs(orders, ref, qty);
      if ref !in index {
        return false;
      }
      var o := pool.slots[index[ref]];
      Shrink(ref, Min(qty, o.shares));
      known := true;
    }

    method RemoveOrder(ref: U64) returns (known: bool)
      requires Valid()
      modifies this, pool, bids.Obj(), asks.Obj()
      ensures Valid()
      ensures known == (ref in old(orders)) && orders == Remove(old(orders), ref)
      ensures peak == old(peak)
    {
      if ref !in index {
        assert orders - {ref} == orders;
        return false;
      }
      Shrink(ref, pool.slots[index[ref]].shares);
      known := true;
    }

    method ReplaceOrder(ref: U64, newRef: U64, shares: Qty, price: Price) returns (known: bool)
      requires Valid()
      requires ref in orders ==> CanAdd(orders - {ref}, newRef, orders[ref].side, price, shares)
      modifies this, pool, bids.Obj(), asks.Obj()
      ensures Valid()
      ensures known == (ref in old(orders)) && orders == Replace(old(orders), ref, newRef, shares, price)
      ensures peak == Max(old(peak), InUse())
    {
      if ref !in index {
        return false;
      }
      var side := pool.slots[index[ref]].side;
      known := RemoveOrder(ref);
      AddOrder(newRef, side, price, shares);
      known := true;
    }

    /** Apply a decoded message; only the order-affecting types change the book. */
    method ApplyMessage(m: Message)
      requires Valid() && Applicable(orders, m)
      modifies this, pool, bids.Obj(), asks.Obj()
      ensures Valid()
      ensures orders == Apply(old(orders), m)
      ensures peak == Max(old(peak), InUse())
    {
      match m.typ
      case AddOrder => AddOrder(m.ref, m.side, m.price, m.shares);
      case AddOrderMpid => AddOrder(m.ref, m.side, m.price, m.shares);
      case OrderExecuted => var _ := ReduceOrder(m.ref, m.shares);
      case OrderExecutedWithPrice => var _ := ReduceOrder(m.ref, m.shares);
      case OrderCancel => var _ := ReduceOrder(m.ref, m.shares);
      case OrderDelete => var _ := RemoveOrder(m.ref);
      case OrderReplace => var _ := ReplaceOrder(m.ref, m.newRef, m.shares, m.price);
      case _ =>
    }

    /** Apply a whole run of messages. */
    method Replay(ms: seq<Message>)
      requires Valid() && AllApplicable(orders, ms)
      modifies this, pool, bids.Obj(), asks.Obj()
      ensures Valid()
      ensures orders == ApplyAll(old(orders), ms)
      ensures peak == PeakOf(old(orders), ms, old(peak))
    {
      ghost var os, pk := orders, peak;
      var i := 0;
      while i < |ms|
        invariant 0 <= i <= |ms|
        invariant Valid()
        invariant orders == ApplyAll(os, ms[..i])
        invariant peak == PeakOf(os, ms[..i], pk)
      {
        RunStep(os, ms, i, pk);
        ApplyMessage(ms[i]);
        Count();
        i := i + 1;
      }
      assert ms[..i] == ms;
    }

    method BestBid() returns (r: Quote)
      requires Valid()
      ensures r == BestQuote(true, bids.Contents())
    {
      r := bids.Best();
    }

    method BestAsk() returns (r: Quote)
      requires Valid()
      ensures r == BestQuote(false, asks.Contents())
    {
      r := asks.Best();
    }

    method QtyAt(side: byte, price: Price) returns (q: Qty)
      requires Valid()
      ensures q == LevelSum(orders, side == BUY, price)
    {
      assert At(bids.Contents(), price) == LevelSum(orders, true, price);
      assert At(asks.Contents(), price) == LevelSum(orders, false, price);
      if side == BUY {
        q := bids.QtyAt(price);
      } else {
        q := asks.QtyAt(price);
      }
    }

    method Depth(side: byte, n: nat) returns (out: Rows)
      requires Valid()
      ensures out == Take(if side == BUY then Ladder(true, bids.Contents()) else Ladder(false, asks.Contents()), n)
    {
      if side == BUY {
        out := bids.Top(n);
      } else {
        out := asks.Top(n);
      }
    }

    method BidLevels() returns (n: nat)
      requires Valid()
      ensures n == |bids.Contents()|
    {
      n := bids.Size();
    }

    method AskLevels() returns (n: nat)
      requires Valid()
      ensures n == |asks.Contents()|
    {
      n := asks.Size();
    }

    method OrderCount() returns (n: nat)
      requires Valid()
      ensures n == |orders|
    {
      StoredCount(index, pool.slots, orders);
      n := |index|;
    }

    /** Every query at once. */
    method Query(side: byte, price: Price, n: nat) returns (a: Answers)
      requires Valid()
      ensures Valid() && Right(orders, side, price, n, a)
    {
      var bid := BestBid();
      var ask := BestAsk();
      var at := QtyAt(side, price);
      var bd := bids.Top(n);
      var ad := asks.Top(n);
      var bl := BidLevels();
      var al := AskLevels();
      var c := OrderCount();
      assert At(bids.Contents(), price) == LevelSum(orders, true, price);
      assert At(asks.Contents(), price) == LevelSum(orders, false, price);
      a := Answers(bid, ask, at, bd, ad, bl, al, c);
      ReadingIsRight(orders, bids.Contents(), asks.Contents(), side, price, n);
    }

    /** Rebuild both sides from the orders and compare: on any book whose orders are
        stored properly this decides, exactly, whether the levels mirror the orders. */
    method InvariantOk() returns (ok: bool)
      requires PoolOk() && bids.Valid() && asks.Valid() && Fits(orders)
      ensures ok <==> Consistent(orders, bids.Contents(), asks.Contents())
    {
      var rb, ra: LevelMap := map[], map[];
      var rest := index.Keys;
      ghost var seen: OrderMap := map[];
      while rest != {}
        invariant rest <= index.Keys
        invariant SubOrders(seen, orders)
        invariant forall r :: r in orders ==> (r in seen <==> r !in rest)
        invariant forall r :: r in seen ==> seen[r].shares != 0 && seen[r].side in {BUY, SELL}
        invariant Mirrors(rb, seen, true) && Mirrors(ra, seen, false)
        decreases rest
      {
        var r :| r in rest;
        var o := pool.slots[index[r]];
        if o.shares == 0 || o.side !in {BUY, SELL} {
          assert orders[r] == o;
          return false;
        }
        rb, ra := Tally(rb, ra, o, seen, orders, r);
        seen := seen[r := o];
        rest := rest - {r};
      }
      SubOrdersAll(seen, orders);
      var okBids := SameSide(rb, bids);
      var okAsks := SameSide(ra, asks);
      ok := okBids && okAsks;
      if Consistent(orders, bids.Contents(), asks.Contents()) {
        MirrorUnique(rb, bids.Contents(), orders, true);
        MirrorUnique(ra, asks.Contents(), orders, false);
      }
    }

    /** On a proper book it holds exactly when every live order has a known side. */
    method Checked() returns (ok: bool)
      requires Valid()
      ensures ok <==> SidesKnown(orders)
    {
      MirrorsFit(orders, bids.Contents(), asks.Contents());
      ok := InvariantOk();
    }

    /** order_count(), live() and capacity() against the orders. */
    lemma Count()
      requires PoolOk()
      ensures |orders| == |index| == InUse() <= |pool.slots| == peak
    {
      StoredCount(index, pool.slots, orders);
      LiveCount(|pool.slots|, pool.free, index, owner);
    }
  }

  /** The highest number of orders live at once over a run. */
  ghost function PeakOf(os: OrderMap, ms: seq<Message>, peak: int): int {
    if ms == [] then peak
    else Max(PeakOf(os, ms[..|ms| - 1], peak), |ApplyAll(os, ms)|)
  }

  lemma RunStep(os: OrderMap, ms: seq<Message>, i: nat, peak: int)
    requires i < |ms|
    ensures ApplyAll(os, ms[..i + 1]) == Apply(ApplyAll(os, ms[..i]), ms[i])
    ensures PeakOf(os, ms[..i + 1], peak) == Max(PeakOf(os, ms[..i], peak), |ApplyAll(os, ms[..i + 1])|)
  {
    assert ms[..i + 1][..i] == ms[..i];
  }

  /** Add one order's shares to the rebuilt side it belongs to. */
  method Tally(rb: LevelMap, ra: LevelMap, o: Order, ghost seen: OrderMap, ghost os: OrderMap, ghost r: U64)
    returns (rb': LevelMap, ra': LevelMap)
    requires Mirrors(rb, seen, true) && Mirrors(ra, seen, false) && SubOrders(seen, os) && Fits(os)
    requires r !in seen && r in os && os[r] == o && o.shares != 0
    ensures Mirrors(rb', seen[r := o], true) && Mirrors(ra', seen[r := o], false)
  {
    rb', ra' := rb, ra;
    SubSum(seen[r := o], os, IsBid(o), o.price);
    SumAfterSet(seen, r, o, IsBid(o), o.price);
    assert seen - {r} == seen;
    if o.side == BUY {
      assert At(rb, o.price) == LevelSum(seen, true, o.price);
      MirrorAdd(rb, seen, r, o);
      MirrorOther(ra, seen, r, o);
      rb' := rb[o.price := At(rb, o.price) + o.shares];
    } else {
      assert At(ra, o.price) == LevelSum(seen, false, o.price);
      MirrorAdd(ra, seen, r, o);
      MirrorOther(rb, seen, r, o);
      ra' := ra[o.price := At(ra, o.price) + o.shares];
    }
  }

  /** Same size, and the same quantity at every rebuilt price. */
  method SameSide(rebuilt: LevelMap, s: Store) returns (same: bool)
    requires s.Valid() && NoZero(rebuilt)
    ensures same <==> rebuilt == s.Contents()
  {
    var n := s.Size();
    if |rebuilt| != n { return false; }
    var rest := rebuilt.Keys;
    while rest != {}
      invariant rest <= rebuilt.Keys
      invariant forall k :: k in rebuilt && k !in rest ==> At(s.Contents(), k) == rebuilt[k]
      decreases rest
    {
      assert (forall k :: k !in rest) ==> rest == {};
      var k :| k in rest;
      var q := s.QtyAt(k);
      if q != rebuilt[k] { return false; }
      rest := rest - {k};
    }
    SameSize(rebuilt, s.Contents());
    same := true;
  }

  lemma SameSize(a: LevelMap, b: LevelMap)
    requires NoZero(a) && |a| == |b| && forall k :: k in a ==> At(b, k) == a[k]
    ensures a == b
  {
    assert forall k :: k in a ==> k in b && a[k] == b[k];
    assert a.Keys <= b.Keys;
    assert |b.Keys - a.Keys| == |b.Keys| - |a.Keys|;
    assert b.Keys - a.Keys == {};
    assert forall k :: k in b ==> k !in b.Keys - a.Keys;
    SameLevels(a, b);
  }

  /** Books over any two level stores with the same orders hold the same levels, so
      every query, being a function of the levels, answers alike. */
  lemma SameLevelsOfBooks(a: Book, b: Book)
    requires a.Valid() && b.Valid() && a.orders == b.orders
    ensures a.bids.Contents() == b.bids.Contents()
    ensures a.asks.Contents() == b.asks.Contents()
  {
    MirrorUnique(a.bids.Contents(), b.bids.Contents(), a.orders, true);
    MirrorUnique(a.asks.Contents(), b.asks.Contents(), a.orders, false);
  }

  /** A book over the given store, rebuilt from scratch. */
  method Rebuild(kind: Kind, ms: seq<Message>) returns (b: Book)
    requires AllApplicable(map[], ms)
    ensures b.Valid() && b.orders == ApplyAll(map[], ms) && b.bids.KindOf() == b.asks.KindOf() == kind
  {
    b := new Book(kind);
    b.Replay(ms);
  }

  /** invariant_ok() after any run, over any level store: it holds exactly when every live
      order has a known side. */
  method CheckedReplay(kind: Kind, ms: seq<Message>) returns (ok: bool)
    requires AllApplicable(map[], ms)
    ensures ok <==> forall r :: r in ApplyAll(map[], ms) ==> ApplyAll(map[], ms)[r].side in {'B' as int, 'S' as int}
  {
    var b := Rebuild(kind, ms);
    ok := b.Checked();
  }

  lemma MirrorsFit(os: OrderMap, bids: LevelMap, asks: LevelMap)
    requires Mirrors(bids, os, true) && Mirrors(asks, os, false)
    ensures Fits(os)
  {
    forall bid, p ensures LevelSum(os, bid, p) < TWO32 {
      assert At(if bid then bids else asks, p) == LevelSum(os, bid, p);
    }
  }

  datatype Answers = Answers(bid: Quote, ask: Quote, at: Qty, bidDepth: Rows, askDepth: Rows,
                             bidLevels: nat, askLevels: nat, orders: nat)

  /** What every query ought to answer when the live orders are `os`. */
  ghost predicate Right(os: OrderMap, side: byte, price: Price, n: nat, a: Answers) {
    exists bids, asks :: Mirrors(bids, os, true) && Mirrors(asks, os, false) && a == Reading(os, bids, asks, side, price, n)
  }

  ghost function Reading(os: OrderMap, bids: LevelMap, asks: LevelMap, side: byte, price: Price, n: nat): Answers {
    Answers(BestQuote(true, bids), BestQuote(false, asks), At(if side == BUY then bids else asks, price),
            Take(Ladder(true, bids), n), Take(Ladder(false, asks), n), |bids|, |asks|, |os|)
  }

  lemma ReadingIsRight(os: OrderMap, bids: LevelMap, asks: LevelMap, side: byte, price: Price, n: nat)
    requires Mirrors(bids, os, true) && Mirrors(asks, os, false)
    ensures Right(os, side, price, n, Reading(os, bids, asks, side, price, n))
  {
  }

  lemma OneRightAnswer(os: OrderMap, side: byte, price: Price, n: nat, a: Answers, b: Answers)
    requires Right(os, side, price, n, a) && Right(os, side, price, n, b)
    ensures a == b
  {
    var b1, a1 :| Mirrors(b1, os, true) && Mirrors(a1, os, false) && a == Reading(os, b1, a1, side, price, n);
    var b2, a2 :| Mirrors(b2, os, true) && Mirrors(a2, os, false) && b == Reading(os, b2, a2, side, price, n);
    MirrorUnique(b1, b2, os, true);
    MirrorUnique(a1, a2, os, false);
  }

  method Ask(kind: Kind, ms: seq<Message>, side: byte, price: Price, n: nat) returns (a: Answers, b: Book)
    requires AllApplicable(map[], ms)
    ensures b.Valid() && b.orders == ApplyAll(map[], ms) && b.bids.KindOf() == b.asks.KindOf() == kind
    ensures Right(b.orders, side, price, n, a)
  {
    b := Rebuild(kind, ms);
    a := b.Query(side, price, n);
  }

  /** map = flat = windowed: after any run, every query answers identically. */
  method Parity(ms: seq<Message>, side: byte, price: Price, n: nat)
    returns (m: Answers, f: Answers, w: Answers, tree: Book, flat: Book, window: Book)
    requires AllApplicable(map[], ms)
    ensures tree.bids.KindOf() == ByMap && flat.bids.KindOf() == ByVector && window.bids.KindOf() == ByWindow
    ensures tree.Valid() && flat.Valid() && window.Valid() && tree.orders == flat.orders == window.orders == ApplyAll(map[], ms)
    ensures m == f == w && Right(tree.orders, side, price, n, m)
  {
    m, tree := Ask(ByMap, ms, side, price, n);
    f, flat := Ask(ByVector, ms, side, price, n);
    w, window := Ask(ByWindow, ms, side, price, n);
    OneRightAnswer(tree.orders, side, price, n, m, f);
    OneRightAnswer(tree.orders, side, price, n, m, w);
  }
}
