/** The tick-indexed level store: an array window of consecutive prices with a
    tracked best slot, an overflow map, and re-centring of the window. */
module WindowedLevels {
  import opened Levels

  /** 65536 ticks per side. The store is verified for every window size >= 1. */
  const K_WINDOW: nat := 0x1_0000

  /** The number of non-zero slots. */
  ghost function NonZero(slots: seq<Qty>): nat {
    if slots == [] then 0
    else NonZero(slots[..|slots| - 1]) + (if slots[|slots| - 1] != 0 then 1 else 0)
  }

  /** Prices of the non-zero slots of a window starting at `base`. */
  ghost function Occupied(slots: seq<Qty>, base: Price): set<Price> {
    set i | 0 <= i < |slots| && slots[i] != 0 :: base + i
  }

  lemma {:induction false} OccupiedCount(slots: seq<Qty>, base: Price)
    ensures |Occupied(slots, base)| == NonZero(slots)
  {
    if slots != [] {
      var n := |slots| - 1;
      OccupiedCount(slots[..n], base);
      var last := if slots[n] != 0 then {base + n} else {};
      assert Occupied(slots, base) == Occupied(slots[..n], base) + last;
      assert base + n !in Occupied(slots[..n], base);
    }
  }

  /** Slot i holds the quantity of price base + i. */
  ghost predicate Agree(slots: seq<Qty>, base: Price, m: LevelMap) {
    forall i :: 0 <= i < |slots| ==> slots[i] == At(m, base + i)
  }

  lemma AgreeFill(slots: seq<Qty>, base: Price, m: LevelMap, idx: nat, q: Qty)
    requires idx < |slots| && Agree(slots, base, m)
    ensures Agree(slots[idx := q], base, m[base + idx := q])
  {
  }

  lemma AgreeClear(slots: seq<Qty>, base: Price, m: LevelMap, idx: nat)
    requires idx < |slots| && Agree(slots, base, m)
    ensures Agree(slots[idx := 0], base, m - {base + idx})
  {
  }

  lemma AgreeElsewhere(slots: seq<Qty>, base: Price, m: LevelMap, p: Price, q: Qty)
    requires Agree(slots, base, m) && !InSpan(base, |slots|, p)
    ensures Agree(slots, base, m[p := q]) && Agree(slots, base, m - {p})
  {
  }

  predicate InSpan(base: Price, n: nat, p: Price) {
    base <= p < base + n
  }

  /** Strictly on the worse side of the whole window. */
  predicate Past(high: bool, base: Price, n: nat, p: Price) {
    if high then p < base else base + n <= p
  }

  /** The overflow holds exactly the levels outside the window, all past it. */
  ghost predicate Spilled(high: bool, base: Price, n: nat, overflow: LevelMap, m: LevelMap) {
    && (forall k {:trigger k in overflow} :: k in overflow ==> k in m && m[k] == overflow[k] && Past(high, base, n, k))
    && (forall k {:trigger k in m} :: k in m ==> InSpan(base, n, k) || k in overflow)
  }

  lemma SpilledSet(high: bool, base: Price, n: nat, overflow: LevelMap, m: LevelMap, p: Price, q: Qty)
    requires Spilled(high, base, n, overflow, m) && Past(high, base, n, p)
    ensures Spilled(high, base, n, overflow[p := q], m[p := q])
    ensures p in m <==> p in overflow
  {
  }

  lemma {:induction false} NonZeroUpdate(slots: seq<Qty>, idx: nat, q: Qty)
    requires idx < |slots|
    ensures NonZero(slots[idx := q]) ==
            NonZero(slots) - (if slots[idx] != 0 then 1 else 0) + (if q != 0 then 1 else 0)
  {
    var n := |slots| - 1;
    if idx < n {
      NonZeroUpdate(slots[..n], idx, q);
      assert slots[idx := q][..n] == slots[..n][idx := q];
    } else {
      assert slots[idx := q][..n] == slots[..n];
    }
  }

  lemma {:induction false} NonZeroAllZero(slots: seq<Qty>)
    ensures NonZero(slots) == 0 <==> AllZero(slots)
  {
    if slots != [] {
      var n := |slots| - 1;
      NonZeroAllZero(slots[..n]);
      assert forall i :: 0 <= i < n ==> slots[..n][i] == slots[i];
    }
  }

  /** `best` is the best of the non-zero slots. */
  ghost predicate BestSlot(high: bool, slots: seq<Qty>, best: nat) {
    && best < |slots|
    && slots[best] != 0
    && (forall i {:trigger slots[i]} :: 0 <= i < |slots| && slots[i] != 0 && i != best ==> Better(high, best, i))
  }

  ghost predicate AllZero(slots: seq<Qty>) {
    forall i :: 0 <= i < |slots| ==> slots[i] == 0
  }

  /** Filling slot `idx` moves the best slot to it just when it is better. */
  lemma BestAfterFill(high: bool, slots: seq<Qty>, best: nat, idx: nat, q: Qty)
    requires idx < |slots| && q != 0
    ensures BestSlot(high, slots, best) && (slots[idx] != 0 || !Better(high, idx, best)) ==> BestSlot(high, slots[idx := q], best)
    ensures BestSlot(high, slots, best) && Better(high, idx, best) ==> BestSlot(high, slots[idx := q], idx)
    ensures AllZero(slots) ==> BestSlot(high, slots[idx := q], idx)
  {
  }

  /** Emptying another slot keeps the best slot; emptying the best leaves only
      slots past it. */
  lemma BestAfterClear(high: bool, slots: seq<Qty>, best: nat, idx: nat)
    requires BestSlot(high, slots, best) && idx < |slots|
    ensures idx != best ==> BestSlot(high, slots[idx := 0], best)
    ensures idx == best ==> AllPast(high, slots[idx := 0], best)
  {
  }

  ghost predicate AllPast(high: bool, slots: seq<Qty>, best: nat) {
    forall i {:trigger slots[i]} :: 0 <= i < |slots| && slots[i] != 0 ==> Better(high, best, i)
  }

  /** How the fields of the store represent the levels `m`. */
  ghost predicate Represents(high: bool, base: Price, slots: seq<Qty>, overflow: LevelMap, count: nat, m: LevelMap) {
    && NoZero(m)
    && Agree(slots, base, m)
    && Spilled(high, base, |slots|, overflow, m)
    && count == NonZero(slots)
  }

  /** The levels are those of the occupied slots and of the overflow, disjointly. */
  lemma Partition(high: bool, base: Price, slots: seq<Qty>, overflow: LevelMap, count: nat, m: LevelMap)
    requires Represents(high, base, slots, overflow, count, m)
    ensures m.Keys == Occupied(slots, base) + overflow.Keys
    ensures Occupied(slots, base) !! overflow.Keys
  {
    var w := Occupied(slots, base);
    forall k | k in m ensures k in w || k in overflow {
      if InSpan(base, |slots|, k) {
        assert slots[k - base] != 0;
        assert base + (k - base) == k;
      }
    }
    forall k | k in w ensures k in m && k !in overflow {
      var i :| 0 <= i < |slots| && slots[i] != 0 && k == base + i;
    }
    assert forall k :: k in overflow ==> k in m;
    assert m.Keys == w + overflow.Keys;
  }

  lemma SizeIsCount(high: bool, base: Price, slots: seq<Qty>, overflow: LevelMap, count: nat, m: LevelMap)
    requires Represents(high, base, slots, overflow, count, m)
    ensures count + |overflow| == |m|
  {
    Partition(high, base, slots, overflow, count, m);
    OccupiedCount(slots, base);
    assert |Occupied(slots, base) + overflow.Keys| == |Occupied(slots, base)| + |overflow.Keys|;
  }

  lemma EmptyWindow(high: bool, base: Price, slots: seq<Qty>, overflow: LevelMap, count: nat, m: LevelMap)
    requires Represents(high, base, slots, overflow, count, m)
    ensures count == 0 <==> AllZero(slots)
    ensures count == 0 ==> m == overflow
  {
    NonZeroAllZero(slots);
    if count == 0 {
      forall k | k in m ensures k in overflow {
        if InSpan(base, |slots|, k) {
          assert slots[k - base] == 0;
        }
      }
      SameLevels(m, overflow);
    }
  }

  /** With anything in the window, its best slot is the best level of all. */
  lemma WindowBestIsBest(high: bool, base: Price, slots: seq<Qty>, overflow: LevelMap, count: nat, m: LevelMap, best: nat)
    requires Represents(high, base, slots, overflow, count, m) && BestSlot(high, slots, best)
    ensures IsBest(high, m, base + best) && m[base + best] == slots[best]
    ensures forall k :: k in overflow ==> Better(high, base + best, k)
  {
    forall k | k in m && k != base + best ensures Better(high, base + best, k) {
      if InSpan(base, |slots|, k) {
        assert slots[k - base] != 0;
      }
    }
  }

  /** Storing a non-zero quantity in slot `idx` stores that price's level. */
  lemma FillSlot(high: bool, base: Price, slots: seq<Qty>, overflow: LevelMap, count: nat, m: LevelMap, idx: nat, q: Qty)
    requires Represents(high, base, slots, overflow, count, m) && idx < |slots| && q != 0
    ensures Represents(high, base, slots[idx := q], overflow, count + (if slots[idx] == 0 then 1 else 0), m[base + idx := q])
  {
    AgreeFill(slots, base, m, idx, q);
    NonZeroUpdate(slots, idx, q);
  }

  /** Emptying slot `idx` removes that price's level. */
  lemma ClearSlot(high: bool, base: Price, slots: seq<Qty>, overflow: LevelMap, count: nat, m: LevelMap, idx: nat)
    requires Represents(high, base, slots, overflow, count, m) && idx < |slots| && slots[idx] != 0
    ensures count > 0
    ensures Represents(high, base, slots[idx := 0], overflow, count - 1, m - {base + idx})
    ensures count - 1 == 0 <==> AllZero(slots[idx := 0])
  {
    var p := base + idx;
    assert p in m && p !in overflow;
    AgreeClear(slots, base, m, idx);
    NonZeroUpdate(slots, idx, 0);
    EmptyWindow(high, base, slots[idx := 0], overflow, count - 1, m - {p});
  }

  /** Changing a level that lives in the overflow. */
  lemma SetOverflow(high: bool, base: Price, slots: seq<Qty>, overflow: LevelMap, count: nat, m: LevelMap, p: Price, q: Qty)
    requires Represents(high, base, slots, overflow, count, m) && Past(high, base, |slots|, p) && q != 0
    ensures Represents(high, base, slots, overflow[p := q], count, m[p := q])
  {
    AgreeElsewhere(slots, base, m, p, q);
    SpilledSet(high, base, |slots|, overflow, m, p, q);
  }

  lemma DropOverflow(high: bool, base: Price, slots: seq<Qty>, overflow: LevelMap, count: nat, m: LevelMap, p: Price)
    requires Represents(high, base, slots, overflow, count, m) && p in overflow
    ensures Represents(high, base, slots, overflow - {p}, count, m - {p})
  {
    AgreeElsewhere(slots, base, m, p, 0);
  }

  /** Distinct rows that together hold exactly the levels of `m`. */
  ghost predicate Lists(all: Rows, m: LevelMap) {
    && (forall i :: 0 <= i < |all| ==> all[i].0 in m && m[all[i].0] == all[i].1)
    && (forall i, j :: 0 <= i < j < |all| ==> all[i].0 != all[j].0)
    && (forall k :: k in m ==> HasRow(all, k))
  }

  lemma ListsAppend(all: Rows, m: LevelMap, k: Price, q: Qty)
    requires Lists(all, m) && k !in m
    ensures Lists(all + [(k, q)], m[k := q])
  {
    var all' := all + [(k, q)];
    assert forall i :: 0 <= i < |all| ==> all'[i] == all[i];
    forall x | x in m[k := q] ensures HasRow(all', x) {
      if x == k {
        assert all'[|all|].0 == x;
      } else {
        assert HasRow(all, x);
        var i :| 0 <= i < |all| && all[i].0 == x;
        assert all'[i].0 == x;
      }
    }
  }

  /** The levels top() has not output yet: the window from slot `wi` on in Compare
      order (nothing when `valid` is false) and the overflow entries `ov`. */
  ghost predicate Remaining(high: bool, base: Price, slots: seq<Qty>, m: LevelMap,
                            wi: int, valid: bool, ov: LevelMap, rem: LevelMap) {
    && (valid ==> 0 <= wi < |slots| && slots[wi] != 0)
    && (forall k :: k in ov ==> k in rem && rem[k] == ov[k] && Past(high, base, |slots|, k))
    && (forall k :: k in rem ==> k in m && rem[k] == m[k])
    && (forall k :: k in rem && k !in ov ==> valid && InSpan(base, |slots|, k) && !Better(high, k, base + wi))
    && (forall k :: k in m && valid && InSpan(base, |slots|, k) && !Better(high, k, base + wi) ==> k in rem)
  }

  lemma TakeWindow(high: bool, base: Price, slots: seq<Qty>, m: LevelMap, wi: nat, ov: LevelMap, rem: LevelMap,
                   valid': bool, wi': int)
    requires Agree(slots, base, m) && Remaining(high, base, slots, m, wi, true, ov, rem) && NoZero(m)
    requires valid' ==> 0 <= wi' < |slots| && Better(high, wi, wi') && slots[wi'] != 0
    requires forall j :: 0 <= j < |slots| && Better(high, wi, j) && (valid' ==> Better(high, j, wi')) ==> slots[j] == 0
    ensures IsBest(high, rem, base + wi) && rem[base + wi] == slots[wi]
    ensures Remaining(high, base, slots, m, wi', valid', ov, rem - {base + wi})
  {
    var b := base + wi;
    assert slots[wi] == At(m, b);
    assert b in rem;
    var rest := rem - {b};
    forall k | k in rest && k !in ov ensures valid' && InSpan(base, |slots|, k) && !Better(high, k, base + wi') {
      assert k in rem;
      assert slots[k - base] == At(m, base + (k - base));
    }
  }

  lemma TakeOverflow(high: bool, base: Price, slots: seq<Qty>, m: LevelMap, wi: int, ov: LevelMap, rem: LevelMap, k: Price)
    requires Remaining(high, base, slots, m, wi, false, ov, rem) && IsBest(high, ov, k)
    ensures IsBest(high, rem, k) && rem[k] == ov[k]
    ensures Remaining(high, base, slots, m, wi, false, ov - {k}, rem - {k})
  {
  }

  lemma AllRemaining(high: bool, base: Price, slots: seq<Qty>, overflow: LevelMap, count: nat, m: LevelMap, best: nat)
    requires Represents(high, base, slots, overflow, count, m)
    requires count > 0 ==> BestSlot(high, slots, best)
    ensures Remaining(high, base, slots, m, best, count > 0, overflow, m)
  {
    EmptyWindow(high, base, slots, overflow, count, m);
    forall k | k in m && k !in overflow ensures count > 0 && !Better(high, k, base + best) {
      assert slots[k - base] == At(m, base + (k - base));
    }
  }

  method CollectWindow(slots: seq<Qty>, base: Price, ghost m: LevelMap) returns (all: Rows, ghost seen: LevelMap)
    requires Agree(slots, base, m) && NoZero(m)
    ensures Lists(all, seen)
    ensures forall k :: k in seen ==> k in m && seen[k] == m[k] && InSpan(base, |slots|, k)
    ensures forall k :: k in m && InSpan(base, |slots|, k) ==> k in seen
  {
    all, seen := [], map[];
    var i := 0;
    while i < |slots|
      invariant 0 <= i <= |slots|
      invariant Lists(all, seen)
      invariant forall k :: k in seen ==> k in m && seen[k] == m[k] && InSpan(base, i, k)
      invariant forall k :: k in m && InSpan(base, i, k) ==> k in seen
    {
      assert slots[i] == At(m, base + i);
      if slots[i] != 0 {
        ListsAppend(all, seen, base + i, slots[i]);
        all := all + [(base + i, slots[i])];
        seen := seen[base + i := slots[i]];
      }
      i := i + 1;
    }
  }

  method CollectOverflow(high: bool, overflow: LevelMap, start: Rows, ghost from: LevelMap)
    returns (all: Rows, ghost seen: LevelMap)
    requires Lists(start, from)
    requires forall k :: k in overflow ==> k !in from
    ensures Lists(all, seen)
    ensures forall k :: k in from ==> k in seen && seen[k] == from[k]
    ensures forall k :: k in overflow ==> k in seen && seen[k] == overflow[k]
    ensures forall k :: k in seen ==> k in from || k in overflow
  {
    all, seen := start, from;
    var rest := overflow;
    while rest != map[]
      invariant Lists(all, seen)
      invariant forall k :: k in rest ==> k in overflow && rest[k] == overflow[k] && k !in seen
      invariant forall k :: k in from ==> k in seen && seen[k] == from[k]
      invariant forall k :: k in overflow && k !in rest ==> k in seen && seen[k] == overflow[k]
      invariant forall k :: k in seen ==> k in from || k in overflow
      decreases rest.Keys
    {
      var k := BestKey(high, rest);
      ListsAppend(all, seen, k, rest[k]);
      all := all + [(k, rest[k])];
      seen := seen[k := rest[k]];
      rest := rest - {k};
    }
  }

  class WindowedLevels {
    const high: bool
    const window: nat
    var slots: seq<Qty>
    var overflow: LevelMap
    var base: Price
    var bestIdx: nat
    var count: nat
    var hasBase: bool
    ghost var contents: LevelMap

    /** Everything but the tracking of the best slot. */
    ghost predicate Shape() reads this {
      && window >= 1
      && |slots| == (if hasBase then window else 0)
      && base >= 0
      && (!hasBase ==> contents == map[])
      && Represents(high, base, slots, overflow, count, contents)
    }

    ghost predicate Valid() reads this {
      && Shape()
      && (count > 0 ==> BestSlot(high, slots, bestIdx))
      && (forall k :: k in contents ==> k >= 0)
    }

    constructor (high: bool, window: nat)
      requires window >= 1
      ensures Valid() && this.high == high && this.window == window && contents == map[]
    {
      this.high := high;
      this.window := window;
      slots := [];
      overflow := map[];
      base := 0;
      bestIdx := 0;
      count := 0;
      hasBase := false;
      contents := map[];
    }

    predicate InWindow(p: Price) reads this {
      hasBase && base <= p && p - base < window
    }

    /** The best level over window and overflow; begin() of the overflow is only
        read when the overflow holds something, and never wins over the window. */
    method BestPrice() returns (p: Price)
      requires Valid() && contents != map[]
      ensures IsBest(high, contents, p)
    {
      EmptyWindow(high, base, slots, overflow, count, contents);
      if count == 0 {
        return BestKey(high, overflow);
      }
      WindowBestIsBest(high, base, slots, overflow, count, contents, bestIdx);
      if overflow == map[] || !Better(high, BestKey(high, overflow), base + bestIdx) {
        return base + bestIdx;
      }
      assert false;
    }

    /** Walk to the next non-empty slot in Compare order. */
    method NextWindowIdx(start: nat) returns (found: bool, i: nat)
      requires start < |slots|
      ensures found ==> i < |slots| && Better(high, start, i) && slots[i] != 0
      ensures found ==> forall j :: 0 <= j < |slots| && Better(high, start, j) && Better(high, j, i) ==> slots[j] == 0
      ensures !found ==> forall j :: 0 <= j < |slots| && Better(high, start, j) ==> slots[j] == 0
    {
      i := start;
      while true
        invariant i < |slots|
        invariant i == start || Better(high, start, i)
        invariant forall j :: 0 <= j < |slots| && Better(high, start, j) && (j == i || Better(high, j, i)) ==> slots[j] == 0
        decreases if high then i else |slots| - i
      {
        if high {
          if i == 0 { return false, i; }
          i := i - 1;
        } else {
          i := i + 1;
          if i >= |slots| { return false, i; }
        }
        if slots[i] != 0 { return true, i; }
      }
    }

    /** Write a non-zero quantity into slot `idx`. */
    method WriteSlot(idx: nat, q: Qty)
      requires Valid() && idx < |slots| && q != 0
      modifies this`slots, this`bestIdx, this`count, this`contents
      ensures Valid()
      ensures contents == old(contents)[base + idx := q]
    {
      EmptyWindow(high, base, slots, overflow, count, contents);
      FillSlot(high, base, slots, overflow, count, contents, idx, q);
      BestAfterFill(high, slots, bestIdx, idx, q);
      var wasEmpty := slots[idx] == 0;
      slots := slots[idx := q];
      contents := contents[base + idx := q];
      if wasEmpty {
        if count == 0 || Better(high, base + idx, base + bestIdx) { bestIdx := idx; }
        count := count + 1;
      }
    }

    method PlaceInWindow(p: Price, q: Qty)
      requires Valid() && InWindow(p)
      requires q > 0 && At(contents, p) + q < TWO32
      modifies this`slots, this`bestIdx, this`count, this`contents
      ensures Valid()
      ensures contents == Inc(old(contents), p, q)
    {
      var idx := p - base;
      assert slots[idx] == At(contents, base + idx);
      WriteSlot(idx, slots[idx] + q);
    }

    /** Called once the best slot has been emptied. The walk always succeeds, so
        the full scan that the source keeps behind it is dead code. */
    method RescanBest()
      requires count > 0 ==> bestIdx < |slots| && !AllZero(slots)
      requires AllPast(high, slots, bestIdx)
      modifies this`bestIdx
      ensures count > 0 ==> BestSlot(high, slots, bestIdx)
    {
      if count == 0 { bestIdx := 0; return; }
      var found, i := NextWindowIdx(bestIdx);
      if found {
        bestIdx := i;
        return;
      }
      assert false;
    }

    /** Empty slot `idx`, moving the best slot on when it was the best. */
    method EraseSlot(idx: nat)
      requires Valid() && idx < |slots| && slots[idx] != 0
      modifies this`slots, this`bestIdx, this`count, this`contents
      ensures Valid()
      ensures contents == old(contents) - {base + idx}
    {
      ClearSlot(high, base, slots, overflow, count, contents, idx);
      BestAfterClear(high, slots, bestIdx, idx);
      slots := slots[idx := 0];
      count := count - 1;
      if idx == bestIdx { RescanBest(); }
      contents := contents - {base + idx};
    }

    method DecOverflow(p: Price, q: Qty)
      requires Valid() && p in overflow
      modifies this`overflow, this`contents
      ensures Valid()
      ensures contents == Dec(old(contents), p, q)
    {
      var rest := (overflow[p] - q) % TWO32;
      if rest == 0 {
        DropOverflow(high, base, slots, overflow, count, contents, p);
        overflow := overflow - {p};
        contents := contents - {p};
      } else {
        SetOverflow(high, base, slots, overflow, count, contents, p, rest);
        overflow := overflow[p := rest];
        contents := contents[p := rest];
      }
    }

    method DecLevel(p: Price, q: Qty)
      requires Valid()
      modifies this
      ensures Valid()
      ensures contents == Dec(old(contents), p, q)
    {
      if InWindow(p) {
        var idx := p - base;
        assert slots[idx] == At(contents, base + idx);
        if slots[idx] == 0 { return; }
        var rest := (slots[idx] - q) % TWO32;
        if rest == 0 {
          EraseSlot(idx);
        } else {
          WriteSlot(idx, rest);
        }
      } else if p in overflow {
        DecOverflow(p, q);
      }
    }

    method Best() returns (r: Quote)
      requires Valid()
      ensures r == BestQuote(high, contents)
    {
      EmptyWindow(high, base, slots, overflow, count, contents);
      var hw := count > 0;
      var ho := overflow != map[];
      if !hw && !ho {
        return NoQuote;
      }
      if hw {
        WindowBestIsBest(high, base, slots, overflow, count, contents, bestIdx);
        BestUnique(high, contents, base + bestIdx);
      }
      if hw && (!ho || !Better(high, BestKey(high, overflow), base + bestIdx)) {
        r := Quote(base + bestIdx, slots[bestIdx]);
      } else {
        var k := BestKey(high, overflow);
        r := Quote(k, overflow[k]);
      }
    }

    method QtyAt(p: Price) returns (q: Qty)
      requires Valid()
      ensures q == At(contents, p)
    {
      if InWindow(p) {
        q := slots[p - base];
      } else {
        q := if p in overflow then overflow[p] else 0;
      }
    }

    method Size() returns (n: nat)
      requires Valid()
      ensures n == |contents|
    {
      SizeIsCount(high, base, slots, overflow, count, contents);
      n := count + |overflow|;
    }

    /** An empty window at `newBase`. */
    method Reset(newBase: Price)
      requires window >= 1 && newBase >= 0
      modifies this
      ensures Valid() && contents == map[]
      ensures hasBase && base == newBase
    {
      base := newBase;
      hasBase := true;
      slots := seq(window, _ => 0);
      count := 0;
      bestIdx := 0;
      overflow := map[];
      contents := map[];
      NonZeroAllZero(slots);
    }

    /** Put a level that is not held yet into its slot or into the overflow. */
    method Bucket(k: Price, q: Qty)
      requires Valid() && hasBase && k >= 0 && k !in contents && q != 0
      requires InWindow(k) || Past(high, base, |slots|, k)
      modifies this`slots, this`bestIdx, this`count, this`overflow, this`contents
      ensures Valid()
      ensures contents == old(contents)[k := q]
    {
      if InWindow(k) {
        PlaceInWindow(k, q);
      } else {
        SetOverflow(high, base, slots, overflow, count, contents, k, q);
        overflow := overflow[k := At(overflow, k) + q];
        contents := contents[k := q];
      }
    }

    /** Re-base the window on `center` and re-bucket every level. Its callers only
        re-centre on a price better than every level held. */
    method RecenterTo(center: Price)
      requires Valid() && center >= 0
      requires forall k :: k in contents ==> Better(high, center, k)
      modifies this
      ensures Valid() && contents == old(contents)
      ensures InWindow(center) && base == if center < window / 2 then 0 else center - window / 2
    {
      var all := Collect();
      ghost var m := contents;
      var newBase := center - window / 2;
      if newBase < 0 { newBase := 0; }
      Reset(newBase);
      var i := 0;
      while i < |all|
        invariant 0 <= i <= |all|
        invariant Valid() && base == newBase && InWindow(center)
        invariant forall k :: k in contents ==> k in m && m[k] == contents[k]
        invariant forall j :: 0 <= j < |all| ==> (all[j].0 in contents <==> j < i)
      {
        var k, q := all[i].0, all[i].1;
        assert k in m && m[k] == q && k !in contents;
        Bucket(k, q);
        i := i + 1;
      }
      forall k | k in m ensures k in contents { assert HasRow(all, k); }
      SameLevels(contents, m);
    }

    /** Every level, window first. */
    method Collect() returns (all: Rows)
      requires Valid()
      ensures Lists(all, contents)
    {
      ghost var seen;
      all, seen := CollectWindow(slots, base, contents);
      all, seen := CollectOverflow(high, overflow, all, seen);
      SameLevels(seen, contents);
    }

    method IncLevel(p: Price, q: Qty)
      requires Valid() && p >= 0
      requires At(contents, p) + q < TWO32
      modifies this
      ensures Valid()
      ensures contents == if q == 0 then old(contents) else Inc(old(contents), p, q)
    {
      if q == 0 { return; }
      EmptyWindow(high, base, slots, overflow, count, contents);
      if !hasBase {
        RecenterTo(p);
      } else if !InWindow(p) {
        var recenter := count == 0 && overflow == map[];
        if !recenter {
          var b := BestPrice();
          recenter := Better(high, p, b);
          if !recenter {
            var sum := At(overflow, p) + q;
            SetOverflow(high, base, slots, overflow, count, contents, p, sum);
            overflow := overflow[p := sum];
            contents := contents[p := sum];
            return;
          }
        }
        RecenterTo(p);
      }
      PlaceInWindow(p, q);
    }

    /** Top n levels, best first: a merge of the window walked from the inside
        outward with the overflow. */
    method Top(n: nat) returns (out: Rows)
      requires Valid()
      ensures out == Take(Ladder(high, contents), n)
    {
      out := [];
      if n == 0 { return; }
      var wi := bestIdx;
      var wValid := count > 0;
      var ov := overflow;
      ghost var rem := contents;
      AllRemaining(high, base, slots, overflow, count, contents, bestIdx);
      while |out| < n && (wValid || ov != map[])
        invariant |out| <= n
        invariant Remaining(high, base, slots, contents, wi, wValid, ov, rem)
        invariant out + Ladder(high, rem) == Ladder(high, contents)
        decreases rem.Keys
      {
        var row;
        row, wi, wValid, ov := TopStep(wi, wValid, ov, contents, rem);
        NextRow(high, rem, row, out);
        out := out + [row];
        rem := rem - {row.0};
      }
      MergeOrder(high, base, slots, contents, wi, wValid, ov, rem);
      assert out == (out + Ladder(high, rem))[..|out|];
    }

    /** The next row of the merge, and what is left after it. */
    method TopStep(wi: nat, wValid: bool, ov: LevelMap, ghost m: LevelMap, ghost rem: LevelMap)
      returns (row: (Price, Qty), wi': nat, wValid': bool, ov': LevelMap)
      requires Agree(slots, base, m) && NoZero(m)
      requires Remaining(high, base, slots, m, wi, wValid, ov, rem)
      requires wValid || ov != map[]
      ensures IsBest(high, rem, row.0) && rem[row.0] == row.1
      ensures Remaining(high, base, slots, m, wi', wValid', ov', rem - {row.0})
    {
      MergeOrder(high, base, slots, m, wi, wValid, ov, rem);
      if wValid && (ov == map[] || !Better(high, BestKey(high, ov), base + wi)) {
        row := (base + wi, slots[wi]);
        wValid', wi' := NextWindowIdx(wi);
        ov' := ov;
        TakeWindow(high, base, slots, m, wi, ov, rem, wValid', wi');
      } else {
        var b := BestKey(high, ov);
        row := (b, ov[b]);
        TakeOverflow(high, base, slots, m, wi, ov, rem, b);
        wi', wValid', ov' := wi, wValid, ov - {b};
      }
    }
  }

  lemma MergeOrder(high: bool, base: Price, slots: seq<Qty>, m: LevelMap, wi: int, valid: bool, ov: LevelMap, rem: LevelMap)
    requires Remaining(high, base, slots, m, wi, valid, ov, rem)
    ensures !valid && ov == map[] ==> rem == map[]
    ensures valid && ov != map[] ==> !Better(high, BestKey(high, ov), base + wi)
  {
    assert (forall k :: k !in rem) ==> rem == map[];
  }
}
