/** Prices, quantities, and the plain price-to-quantity map that every level
    store is specified against. A side of the book is ordered by Compare:
    `high` stands for std::greater (bids), its absence for std::less (asks). */
module Levels {

  const TWO32: int := 0x1_0000_0000

  type Price = int
  type Qty = q: int | 0 <= q < TWO32
  type LevelMap = map<Price, Qty>
  type Rows = seq<(Price, Qty)>

  predicate Better(high: bool, a: Price, b: Price) {
    if high then a > b else a < b
  }

  function At(m: LevelMap, p: Price): Qty {
    if p in m then m[p] else 0
  }

  /** Unsigned 32-bit addition, creating the level when it is absent. */
  function Inc(m: LevelMap, p: Price, q: Qty): LevelMap {
    m[p := (At(m, p) + q) % TWO32]
  }

  /** Unsigned 32-bit subtraction; a level that reaches zero disappears and an
      absent level stays absent. */
  function Dec(m: LevelMap, p: Price, q: Qty): LevelMap {
    if p !in m then m
    else
      var rest := (m[p] - q) % TWO32;
      if rest == 0 then m - {p} else m[p := rest]
  }

  /** A decrement that the level can bear. */
  lemma DecWithin(m: LevelMap, p: Price, q: Qty)
    requires NoZero(m) && q <= At(m, p)
    ensures NoZero(Dec(m, p, q))
    ensures forall k :: At(Dec(m, p, q), k) == At(m, k) - (if k == p then q else 0)
  {
  }

  ghost predicate NoZero(m: LevelMap) {
    forall p :: p in m ==> m[p] != 0
  }

  predicate IsBest(high: bool, m: LevelMap, p: Price) {
    p in m && forall k :: k in m && k != p ==> Better(high, p, k)
  }

  lemma {:induction false} BestExists(high: bool, m: LevelMap)
    requires m != map[]
    ensures exists p :: IsBest(high, m, p)
    decreases |m|
  {
    assert (forall k :: k !in m) ==> m == map[];
    var k :| k in m;
    var rest := m - {k};
    if rest == map[] {
      assert forall j :: j in m && j != k ==> j in rest;
      assert IsBest(high, m, k);
    } else {
      BestExists(high, rest);
      var b :| IsBest(high, rest, b);
      assert forall j :: j in m && j != k ==> j in rest;
      assert IsBest(high, m, if Better(high, k, b) then k else b);
    }
  }

  /** begin() of a std::map ordered by Compare. */
  function BestKey(high: bool, m: LevelMap): (p: Price)
    requires m != map[]
    ensures IsBest(high, m, p)
  {
    BestExists(high, m);
    var p :| IsBest(high, m, p);
    p
  }

  /** Strictly best-first. */
  ghost predicate BestFirst(high: bool, s: Rows) {
    forall i, j :: 0 <= i < j < |s| ==> Better(high, s[i].0, s[j].0)
  }

  ghost predicate HasRow(s: Rows, k: Price) {
    exists i :: 0 <= i < |s| && s[i].0 == k
  }

  /** What a full depth ladder of `m` is: strictly best-first, one row per level. */
  ghost predicate IsLadder(high: bool, m: LevelMap, s: Rows) {
    && BestFirst(high, s)
    && (forall i :: 0 <= i < |s| ==> s[i].0 in m && m[s[i].0] == s[i].1)
    && (forall k :: k in m ==> HasRow(s, k))
  }

  ghost function Ladder(high: bool, m: LevelMap): (s: Rows)
    ensures |s| == |m|
    decreases |m|
  {
    if m == map[] then []
    else
      var b := BestKey(high, m);
      assert (m - {b}).Keys == m.Keys - {b};
      [(b, m[b])] + Ladder(high, m - {b})
  }

  lemma {:induction false} LadderIsLadder(high: bool, m: LevelMap)
    ensures IsLadder(high, m, Ladder(high, m))
    decreases |m|
  {
    if m != map[] {
      var b := BestKey(high, m);
      var rest := m - {b};
      LadderIsLadder(high, rest);
      ConsLadder(high, m, b, Ladder(high, rest));
    }
  }

  /** Putting the best level in front of the ladder of the others. */
  lemma ConsLadder(high: bool, m: LevelMap, b: Price, tail: Rows)
    requires IsBest(high, m, b)
    requires IsLadder(high, m - {b}, tail)
    ensures IsLadder(high, m, [(b, m[b])] + tail)
  {
    var s := [(b, m[b])] + tail;
    assert forall i :: 1 <= i < |s| ==> s[i] == tail[i - 1];
    forall k | k in m ensures HasRow(s, k) {
      if k == b {
        assert s[0].0 == k;
      } else {
        assert k in m - {b};
        var i :| 0 <= i < |tail| && tail[i].0 == k;
        assert s[i + 1].0 == k;
      }
    }
  }

  /** Dropping the first row leaves the ladder of the other levels. */
  lemma TailLadder(high: bool, m: LevelMap, s: Rows)
    requires m != map[]
    requires IsLadder(high, m, s)
    ensures |s| > 0 && IsBest(high, m, s[0].0) && s[0].1 == m[s[0].0]
    ensures IsLadder(high, m - {s[0].0}, s[1..])
  {
    assert HasRow(s, BestKey(high, m));
    var b := s[0].0;
    forall k | k in m && k != b ensures Better(high, b, k) && HasRow(s[1..], k) {
      assert HasRow(s, k);
      var j :| 0 <= j < |s| && s[j].0 == k;
      assert s[1..][j - 1].0 == k;
    }
    assert forall j :: 0 <= j < |s[1..]| ==> s[1..][j] == s[j + 1];
  }

  /** A ladder is determined by its map, so "the" ladder is well defined. */
  lemma {:induction false} LadderUnique(high: bool, m: LevelMap, s: Rows)
    requires IsLadder(high, m, s)
    ensures s == Ladder(high, m)
    decreases |m|
  {
    if m == map[] {
    } else {
      TailLadder(high, m, s);
      var b := s[0].0;
      BestUnique(high, m, b);
      assert (m - {b}).Keys == m.Keys - {b};
      LadderUnique(high, m - {b}, s[1..]);
      assert s == [s[0]] + s[1..];
    }
  }

  /** The head of a ladder is the best level. */
  lemma LadderHead(high: bool, m: LevelMap)
    requires m != map[]
    ensures Ladder(high, m) == [(BestKey(high, m), m[BestKey(high, m)])] + Ladder(high, m - {BestKey(high, m)})
  {
  }

  lemma BestUnique(high: bool, m: LevelMap, p: Price)
    requires IsBest(high, m, p)
    ensures m != map[] && BestKey(high, m) == p
  {
  }

  /** Outputting the best remaining level moves it from the ladder of the rest. */
  lemma NextRow(high: bool, rem: LevelMap, row: (Price, Qty), out: Rows)
    requires IsBest(high, rem, row.0) && rem[row.0] == row.1
    ensures out + [row] + Ladder(high, rem - {row.0}) == out + Ladder(high, rem)
  {
    BestUnique(high, rem, row.0);
    LadderHead(high, rem);
  }

  function Take<T>(s: seq<T>, n: nat): (r: seq<T>)
    ensures r <= s && |r| <= n && (|r| < n ==> r == s)
  {
    if n <= |s| then s[..n] else s
  }

  datatype Quote = NoQuote | Quote(price: Price, qty: Qty)

  /** Maps with the same levels are the same map. */
  lemma SameLevels(a: LevelMap, b: LevelMap)
    requires forall k :: k in a ==> k in b && a[k] == b[k]
    requires forall k :: k in b ==> k in a
    ensures a == b
  {
    assert forall k :: k in a ==> k in b && a[k] == b[k];
    assert forall k :: k in b ==> k in a;
  }

  /** What best() answers about a side. */
  function BestQuote(high: bool, m: LevelMap): Quote {
    if m == map[] then NoQuote else Quote(BestKey(high, m), m[BestKey(high, m)])
  }
}
