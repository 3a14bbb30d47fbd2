/** What the order book means: the live orders by reference number, how each
    message changes them, and the level totals that a rebuild from the orders
    gives. */
module Orders {
  import opened Prelude
  import opened Levels
  import opened Messages

  datatype Order = Order(side: byte, price: Price, shares: Qty)
  type OrderMap = map<U64, Order>

  /** Only BUY goes to the bids; every other side byte goes to the asks. */
  predicate IsBid(o: Order) {
    o.side == BUY
  }

  function Add(os: OrderMap, ref: U64, side: byte, price: Price, shares: Qty): OrderMap {
    if shares == 0 then os else os[ref := Order(side, price, shares)]
  }

  /** What is left of the orders after `d` of an order's shares are taken. */
  function Taken(os: OrderMap, r: U64, d: Qty): OrderMap
    requires r in os && d <= os[r].shares
  {
    if d == os[r].shares then os - {r} else os[r := os[r].(shares := os[r].shares - d)]
  }

  function Reduce(os: OrderMap, ref: U64, qty: Qty): OrderMap {
    if ref !in os then os
    else
      Taken(os, ref, Min(qty, os[ref].shares))
  }

  function Remove(os: OrderMap, ref: U64): OrderMap {
    os - {ref}
  }

  function Replace(os: OrderMap, ref: U64, newRef: U64, shares: Qty, price: Price): OrderMap {
    if ref !in os then os else Add(os - {ref}, newRef, os[ref].side, price, shares)
  }

  function Apply(os: OrderMap, m: Message): OrderMap {
    match m.typ
    case AddOrder => Add(os, m.ref, m.side, m.price, m.shares)
    case AddOrderMpid => Add(os, m.ref, m.side, m.price, m.shares)
    case OrderExecuted => Reduce(os, m.ref, m.shares)
    case OrderExecutedWithPrice => Reduce(os, m.ref, m.shares)
    case OrderCancel => Reduce(os, m.ref, m.shares)
    case OrderDelete => Remove(os, m.ref)
    case OrderReplace => Replace(os, m.ref, m.newRef, m.shares, m.price)
    case _ => os
  }

  function ApplyAll(os: OrderMap, ms: seq<Message>): OrderMap {
    if ms == [] then os else Apply(ApplyAll(os, ms[..|ms| - 1]), ms[|ms| - 1])
  }

  // ---- what each operation does, order by order ---------------------------------------

  /** Every other order is as it was. */
  ghost predicate OthersKept(os: OrderMap, os': OrderMap, ref: U64) {
    forall r :: r != ref ==> (r in os' <==> r in os) && (r in os' ==> os'[r] == os[r])
  }

  lemma AddIs(os: OrderMap, ref: U64, side: byte, price: Price, shares: Qty)
    ensures var os' := Add(os, ref, side, price, shares);
            && OthersKept(os, os', ref)
            && (shares == 0 ==> os' == os)
            && (shares != 0 ==> ref in os' && os'[ref].side == side && os'[ref].price == price && os'[ref].shares == shares)
  {
  }

  /** An execution or cancel of less than the order leaves the rest of it resting at the
      same side and price; of as much or more, it removes the order. */
  lemma ReduceIs(os: OrderMap, ref: U64, qty: Qty)
    ensures var os' := Reduce(os, ref, qty);
            && OthersKept(os, os', ref)
            && (ref in os' <==> ref in os && qty < os[ref].shares)
            && (ref in os' ==> os'[ref] == Order(os[ref].side, os[ref].price, os[ref].shares - qty))
  {
  }

  lemma RemoveIs(os: OrderMap, ref: U64)
    ensures OthersKept(os, Remove(os, ref), ref) && ref !in Remove(os, ref)
  {
  }

  /** The new reference rests on the old one's side at the new price and size; the old
      reference is gone unless it is reused. An unknown reference changes nothing. */
  lemma ReplaceIs(os: OrderMap, ref: U64, newRef: U64, shares: Qty, price: Price)
    ensures var os' := Replace(os, ref, newRef, shares, price);
            && (ref !in os ==> os' == os)
            && (forall r :: r != ref && r != newRef ==> (r in os' <==> r in os) && (r in os' ==> os'[r] == os[r]))
            && (ref in os && shares != 0 ==> newRef in os' && os'[newRef] == Order(os[ref].side, price, shares))
            && (ref in os && (newRef != ref || shares == 0) ==> ref !in os')
            && (ref in os && newRef != ref && shares == 0 ==> (newRef in os' <==> newRef in os))
  {
  }

  /** Which operation a message stands for. */
  lemma ApplyIs(os: OrderMap, m: Message)
    ensures m.typ in {AddOrder, AddOrderMpid} ==> Apply(os, m) == Add(os, m.ref, m.side, m.price, m.shares)
    ensures m.typ in {OrderExecuted, OrderExecutedWithPrice, OrderCancel} ==> Apply(os, m) == Reduce(os, m.ref, m.shares)
    ensures m.typ == OrderDelete ==> Apply(os, m) == Remove(os, m.ref)
    ensures m.typ == OrderReplace ==> Apply(os, m) == Replace(os, m.ref, m.newRef, m.shares, m.price)
    ensures m.typ in {Unknown, SystemEvent, StockDirectory, Trade, CrossTrade} ==> Apply(os, m) == os
  {
  }

  /** The level totals of a single order: all its shares on its side at its price. */
  lemma OneOrderSums(r: U64, side: byte, price: Price, shares: Qty, bid: bool, p: Price)
    ensures LevelSum(map[r := Order(side, price, shares)], bid, p) == if bid == (side == 'B' as int) && p == price then shares else 0
  {
    var os: OrderMap := map[r := Order(side, price, shares)];
    SplitSum(os, r, bid, p);
    assert os - {r} == map[];
  }

  /** The shares an order contributes to a level. */
  function Share(o: Order, bid: bool, p: Price): Qty {
    if IsBid(o) == bid && o.price == p then o.shares else 0
  }

  /** The sum of the live orders' shares on one side at one price. */
  ghost function LevelSum(os: OrderMap, bid: bool, p: Price): nat
    decreases os.Keys
  {
    if os == map[] then 0
    else
      SomeOrder(os);
      var r :| r in os;
      Share(os[r], bid, p) + LevelSum(os - {r}, bid, p)
  }

  lemma SomeOrder(os: OrderMap)
    requires os != map[]
    ensures exists r :: r in os
  {
    assert (forall r :: r !in os) ==> os == map[];
  }

  /** Any order may be split off the sum. */
  lemma {:induction false} SplitSum(os: OrderMap, r: U64, bid: bool, p: Price)
    requires r in os
    ensures LevelSum(os, bid, p) == Share(os[r], bid, p) + LevelSum(os - {r}, bid, p)
    decreases os.Keys
  {
    SomeOrder(os);
    var x :| x in os && LevelSum(os, bid, p) == Share(os[x], bid, p) + LevelSum(os - {x}, bid, p);
    if x != r {
      SplitSum(os - {x}, r, bid, p);
      SplitSum(os - {r}, x, bid, p);
      assert os - {x} - {r} == os - {r} - {x};
    }
  }

  predicate OnLevel(os: OrderMap, bid: bool, p: Price, r: U64) {
    r in os && IsBid(os[r]) == bid && os[r].price == p
  }

  /** A level sums to more than zero exactly when some order rests on it. */
  lemma {:induction false} SumPositive(os: OrderMap, bid: bool, p: Price)
    requires forall r :: r in os ==> os[r].shares > 0
    ensures LevelSum(os, bid, p) > 0 <==> exists r :: OnLevel(os, bid, p, r)
    decreases os.Keys
  {
    if os != map[] {
      SomeOrder(os);
      var x :| x in os && LevelSum(os, bid, p) == Share(os[x], bid, p) + LevelSum(os - {x}, bid, p);
      SumPositive(os - {x}, bid, p);
      assert OnLevel(os, bid, p, x) <==> Share(os[x], bid, p) > 0;
      assert forall r :: r != x ==> (OnLevel(os, bid, p, r) <==> OnLevel(os - {x}, bid, p, r));
    }
  }

  lemma SumAfterSet(os: OrderMap, r: U64, o: Order, bid: bool, p: Price)
    ensures LevelSum(os[r := o], bid, p) == LevelSum(os - {r}, bid, p) + Share(o, bid, p)
  {
    SplitSum(os[r := o], r, bid, p);
    assert os[r := o] - {r} == os - {r};
  }

  /** The store mirrors the orders: every level is the sum of its orders' shares,
      and no empty level is kept. */
  ghost predicate Mirrors(m: LevelMap, os: OrderMap, bid: bool) {
    NoZero(m) && forall p {:trigger LevelSum(os, bid, p)} :: At(m, p) == LevelSum(os, bid, p)
  }

  /** Levels that mirror the same orders are the same levels. */
  lemma MirrorUnique(a: LevelMap, b: LevelMap, os: OrderMap, bid: bool)
    requires Mirrors(a, os, bid) && Mirrors(b, os, bid)
    ensures a == b
  {
    forall k | k in a ensures k in b && a[k] == b[k] {
      assert At(a, k) == LevelSum(os, bid, k) == At(b, k);
    }
    forall k | k in b ensures k in a {
      assert At(b, k) == LevelSum(os, bid, k) == At(a, k);
    }
    SameLevels(a, b);
  }

  /** Adding an order with a fresh reference raises its own level... */
  lemma MirrorAdd(m: LevelMap, os: OrderMap, r: U64, o: Order)
    requires Mirrors(m, os, IsBid(o)) && r !in os && o.shares > 0
    requires At(m, o.price) + o.shares < TWO32
    ensures Mirrors(Inc(m, o.price, o.shares), os[r := o], IsBid(o))
  {
    var m', bid := Inc(m, o.price, o.shares), IsBid(o);
    assert os - {r} == os;
    forall p ensures At(m', p) == LevelSum(os[r := o], bid, p) {
      SumAfterSet(os, r, o, bid, p);
      assert At(m, p) == LevelSum(os, bid, p);
    }
  }

  /** ...and leaves the other side alone, as any change of the order does. */
  lemma MirrorOther(m: LevelMap, os: OrderMap, r: U64, o: Order)
    requires Mirrors(m, os, !IsBid(o)) && (r in os ==> IsBid(os[r]) == IsBid(o))
    ensures Mirrors(m, os[r := o], !IsBid(o))
    ensures Mirrors(m, os - {r}, !IsBid(o))
  {
    var bid := !IsBid(o);
    forall p ensures At(m, p) == LevelSum(os[r := o], bid, p) == LevelSum(os - {r}, bid, p) {
      SumAfterSet(os, r, o, bid, p);
      if r in os {
        SplitSum(os, r, bid, p);
      } else {
        assert os - {r} == os;
      }
      assert At(m, p) == LevelSum(os, bid, p);
    }
  }

  lemma MirrorTakeOther(m: LevelMap, os: OrderMap, r: U64, d: Qty)
    requires r in os && d <= os[r].shares
    requires Mirrors(m, os, !IsBid(os[r]))
    ensures Mirrors(m, Taken(os, r, d), !IsBid(os[r]))
  {
    MirrorOther(m, os, r, os[r].(shares := os[r].shares - d));
  }

  lemma MirrorTake(m: LevelMap, os: OrderMap, r: U64, d: Qty)
    requires r in os && d <= os[r].shares
    requires Mirrors(m, os, IsBid(os[r]))
    ensures Mirrors(Dec(m, os[r].price, d), Taken(os, r, d), IsBid(os[r]))
  {
    var o := os[r];
    var bid := IsBid(o);
    var m' := Dec(m, o.price, d);
    assert d <= At(m, o.price) by {
      assert At(m, o.price) == LevelSum(os, bid, o.price);
      SplitSum(os, r, bid, o.price);
    }
    DecWithin(m, o.price, d);
    forall p ensures At(m', p) == LevelSum(Taken(os, r, d), bid, p) {
      SplitSum(os, r, bid, p);
      if d != o.shares {
        SumAfterSet(os, r, o.(shares := o.shares - d), bid, p);
      }
      assert At(m, p) == LevelSum(os, bid, p);
    }
  }

  /** What the feed promises of a message: an added reference is not live, a price
      is not negative, and a level total stays within 32 bits. */
  ghost predicate CanAdd(os: OrderMap, ref: U64, side: byte, price: Price, shares: Qty) {
    shares == 0 ||
    (ref !in os && price >= 0 && LevelSum(os, side == BUY, price) + shares < TWO32)
  }

  ghost predicate Applicable(os: OrderMap, m: Message) {
    match m.typ
    case AddOrder => CanAdd(os, m.ref, m.side, m.price, m.shares)
    case AddOrderMpid => CanAdd(os, m.ref, m.side, m.price, m.shares)
    case OrderReplace => m.ref in os ==> CanAdd(os - {m.ref}, m.newRef, os[m.ref].side, m.price, m.shares)
    case _ => true
  }

  ghost predicate AllApplicable(os: OrderMap, ms: seq<Message>) {
    forall i :: 0 <= i < |ms| ==> Applicable(ApplyAll(os, ms[..i]), ms[i])
  }

  ghost predicate SubOrders(a: OrderMap, b: OrderMap) {
    forall r :: r in a ==> r in b && a[r] == b[r]
  }

  /** Fewer orders sum to less. */
  lemma {:induction false} SubSum(a: OrderMap, b: OrderMap, bid: bool, p: Price)
    requires SubOrders(a, b)
    ensures LevelSum(a, bid, p) <= LevelSum(b, bid, p)
    decreases a.Keys
  {
    if a != map[] {
      SomeOrder(a);
      var r :| r in a;
      SplitSum(a, r, bid, p);
      SplitSum(b, r, bid, p);
      SubSum(a - {r}, b - {r}, bid, p);
    }
  }

  lemma SubOrdersAll(a: OrderMap, b: OrderMap)
    requires SubOrders(a, b) && forall r :: r in b ==> r in a
    ensures a == b
  {
    assert forall r :: r in a ==> r in b && a[r] == b[r];
    assert forall r :: r in b ==> r in a;
  }

  /** Every level total fits the 32 bits it is kept in. */
  ghost predicate Fits(os: OrderMap) {
    forall bid, p :: LevelSum(os, bid, p) < TWO32
  }

  ghost predicate SidesKnown(os: OrderMap) {
    forall r :: r in os ==> os[r].side in {BUY, SELL}
  }

  /** The consistency that invariant_ok() decides. */
  ghost predicate Consistent(os: OrderMap, bids: LevelMap, asks: LevelMap) {
    && SidesKnown(os) && (forall r :: r in os ==> os[r].shares != 0)
    && Mirrors(bids, os, true)
    && Mirrors(asks, os, false)
  }

  /** Only an add brings a side in; a replace hands on the old order's side. */
  lemma {:induction false} SidesStayKnown(os: OrderMap, ms: seq<Message>)
    requires SidesKnown(os)
    requires forall i :: 0 <= i < |ms| && ms[i].typ in {AddOrder, AddOrderMpid} ==> ms[i].side in {BUY, SELL}
    ensures SidesKnown(ApplyAll(os, ms))
  {
    if ms != [] {
      SidesStayKnown(os, ms[..|ms| - 1]);
    }
  }

  /** best() read off the orders alone: no quote exactly when the side has no order,
      otherwise the best price any order of the side rests at, with the total there. */
  lemma BestOfOrders(m: LevelMap, os: OrderMap, bid: bool)
    requires Mirrors(m, os, bid) && forall r :: r in os ==> os[r].shares > 0
    ensures var q := BestQuote(bid, m);
            && (q.NoQuote? <==> forall r :: r in os ==> IsBid(os[r]) != bid)
            && (q.Quote? ==> (exists r :: OnLevel(os, bid, q.price, r)) && q.qty == LevelSum(os, bid, q.price))
            && (q.Quote? ==> forall r :: r in os && IsBid(os[r]) == bid ==> !Better(bid, os[r].price, q.price))
  {
    var q := BestQuote(bid, m);
    forall r | r in os && IsBid(os[r]) == bid ensures os[r].price in m {
      assert OnLevel(os, bid, os[r].price, r);
      SumPositive(os, bid, os[r].price);
      assert At(m, os[r].price) == LevelSum(os, bid, os[r].price);
    }
    if q.Quote? {
      SumPositive(os, bid, q.price);
      assert At(m, q.price) == LevelSum(os, bid, q.price);
    }
  }

  /** Freshness is exactly what add() relies on: with the level raised and the
      reference pointed at the new order, the levels still mirror the orders if and
      only if the reference was not live. */
  lemma AddMirrorsIffFresh(bids: LevelMap, asks: LevelMap, os: OrderMap, r: U64, o: Order)
    requires Mirrors(bids, os, true) && Mirrors(asks, os, false) && o.shares > 0
    requires forall x :: x in os ==> os[x].shares > 0
    requires At(if IsBid(o) then bids else asks, o.price) + o.shares < TWO32
    ensures (Mirrors(if IsBid(o) then Inc(bids, o.price, o.shares) else bids, os[r := o], true)
             && Mirrors(if IsBid(o) then asks else Inc(asks, o.price, o.shares), os[r := o], false))
            <==> r !in os
  {
    if r !in os {
      MirrorAdd(if IsBid(o) then bids else asks, os, r, o);
      MirrorOther(if IsBid(o) then asks else bids, os, r, o);
    } else {
      var bid, p := IsBid(os[r]), os[r].price;
      SplitSum(os, r, bid, p);
      SumAfterSet(os, r, o, bid, p);
      assert LevelSum(os, bid, p) == At(if bid then bids else asks, p);
    }
  }
}
