/** The two simple level stores: MapLevels over an ordered map, and FlatLevels
    over a sorted vector searched by bisection. */
module SimpleLevels {
  import opened Levels

  class MapLevels {
    const high: bool
    var m: LevelMap

    constructor (high: bool)
      ensures this.high == high && m == map[]
    {
      this.high := high;
      m := map[];
    }

    /** operator[] creates an absent level at zero before the addition. */
    method IncLevel(p: Price, q: Qty)
      modifies this
      ensures forall k :: At(m, k) == (At(old(m), k) + (if k == p then q else 0)) % TWO32
      ensures forall k :: k in m <==> k in old(m) || k == p
      ensures m == Inc(old(m), p, q)
    {
      if p !in m { m := m[p := 0]; }
      m := m[p := (m[p] + q) % TWO32];
    }

    method DecLevel(p: Price, q: Qty)
      modifies this
      ensures forall k :: k != p ==> (k in m <==> k in old(m)) && At(m, k) == At(old(m), k)
      ensures p in m <==> p in old(m) && old(m)[p] != q
      ensures p in m ==> m[p] == (old(m)[p] - q) % TWO32
      ensures m == Dec(old(m), p, q)
    {
      if p in m {
        m := m[p := (m[p] - q) % TWO32];
        if m[p] == 0 {
          m := m - {p};
        }
        assert m == Dec(old(m), p, q);
      }
    }

    method Best() returns (r: Quote)
      ensures r.NoQuote? <==> m == map[]
      ensures r.Quote? ==> IsBest(high, m, r.price) && r.qty == m[r.price]
      ensures r == BestQuote(high, m)
    {
      if m == map[] {
        return NoQuote;
      }
      var k := BestKey(high, m);
      r := Quote(k, m[k]);
    }

    method Top(n: nat) returns (out: Rows)
      ensures out == Take(Ladder(high, m), n)
    {
      out := [];
      var rest := m;
      while rest != map[] && |out| < n
        invariant |out| <= n
        invariant out + Ladder(high, rest) == Ladder(high, m)
        decreases rest.Keys
      {
        var k := BestKey(high, rest);
        NextRow(high, rest, (k, rest[k]), out);
        out := out + [(k, rest[k])];
        rest := rest - {k};
      }
      assert out == (out + Ladder(high, rest))[..|out|];
    }
  }

  /** The row a sorted vector gets for price `p`, given its lower bound `k`. */
  ghost predicate IsLowerBound(high: bool, v: Rows, p: Price, k: nat) {
    && k <= |v|
    && (forall i :: 0 <= i < k ==> Better(high, v[i].0, p))
    && (forall i :: k <= i < |v| ==> !Better(high, v[i].0, p))
  }

  /** At its lower bound a price is found exactly when it has a level. */
  lemma LowerBoundFinds(high: bool, m: LevelMap, v: Rows, p: Price, k: nat)
    requires IsLadder(high, m, v) && IsLowerBound(high, v, p, k)
    ensures p in m <==> k < |v| && v[k].0 == p
    ensures forall i :: 0 <= i < |v| && i != k ==> v[i].0 != p
    ensures forall i :: k <= i < |v| && v[i].0 != p ==> Better(high, p, v[i].0)
  {
    if p in m {
      assert HasRow(v, p);
    }
    forall i | k < i < |v| ensures v[i].0 != p {
      assert Better(high, v[k].0, v[i].0);
    }
  }

  lemma UpdateRow(high: bool, m: LevelMap, v: Rows, k: nat, q: Qty)
    requires IsLadder(high, m, v) && k < |v|
    ensures IsLadder(high, m[v[k].0 := q], v[k := (v[k].0, q)])
  {
    var w := v[k := (v[k].0, q)];
    forall x | x in m[v[k].0 := q] ensures HasRow(w, x) {
      assert HasRow(v, x);
      var i :| 0 <= i < |v| && v[i].0 == x;
      assert w[i].0 == x;
    }
    forall i | 0 <= i < |w| && i != k ensures w[i].0 != v[k].0 {
      assert Better(high, v[i].0, v[k].0) || Better(high, v[k].0, v[i].0);
    }
  }

  lemma InsertRow(high: bool, m: LevelMap, v: Rows, p: Price, k: nat, q: Qty)
    requires IsLadder(high, m, v) && IsLowerBound(high, v, p, k) && p !in m
    ensures IsLadder(high, m[p := q], v[..k] + [(p, q)] + v[k..])
  {
    LowerBoundFinds(high, m, v, p, k);
    var w := v[..k] + [(p, q)] + v[k..];
    InsertedOrder(high, v, (p, q), k);
    InsertedRows(v, (p, q), k);
    forall i | 0 <= i < |w| ensures w[i].0 in m[p := q] && m[p := q][w[i].0] == w[i].1 {
      if i != k { assert w[i] == v[if i < k then i else i - 1]; }
    }
    forall x | x in m[p := q] ensures HasRow(w, x) {
      assert x != p ==> HasRow(v, x);
    }
  }

  lemma InsertedOrder(high: bool, v: Rows, row: (Price, Qty), k: nat)
    requires BestFirst(high, v) && k <= |v|
    requires forall i :: 0 <= i < k ==> Better(high, v[i].0, row.0)
    requires forall i :: k <= i < |v| ==> Better(high, row.0, v[i].0)
    ensures BestFirst(high, v[..k] + [row] + v[k..])
  {
    var w := v[..k] + [row] + v[k..];
    forall i, j | 0 <= i < j < |w| ensures Better(high, w[i].0, w[j].0) {
      assert i != k ==> w[i] == v[if i < k then i else i - 1];
      assert j != k ==> w[j] == v[if j < k then j else j - 1];
    }
  }

  lemma InsertedRows(v: Rows, row: (Price, Qty), k: nat)
    requires k <= |v|
    ensures var w := v[..k] + [row] + v[k..];
            HasRow(w, row.0) && forall x :: HasRow(v, x) ==> HasRow(w, x)
  {
    var w := v[..k] + [row] + v[k..];
    assert w[k] == row;
    forall x | HasRow(v, x) ensures HasRow(w, x) {
      var i :| 0 <= i < |v| && v[i].0 == x;
      assert w[if i < k then i else i + 1].0 == x;
    }
  }

  lemma RemoveRow(high: bool, m: LevelMap, v: Rows, k: nat)
    requires IsLadder(high, m, v) && k < |v|
    ensures IsLadder(high, m - {v[k].0}, v[..k] + v[k + 1..])
  {
    var w := v[..k] + v[k + 1..];
    assert forall i :: 0 <= i < k ==> w[i] == v[i];
    assert forall i :: k <= i < |w| ==> w[i] == v[i + 1];
    forall i | 0 <= i < |v| && i != k ensures v[i].0 != v[k].0 {
      assert Better(high, v[i].0, v[k].0) || Better(high, v[k].0, v[i].0);
    }
    forall x | x in m - {v[k].0} ensures HasRow(w, x) {
      assert HasRow(v, x);
      var i :| 0 <= i < |v| && v[i].0 == x;
      assert w[if i < k then i else i - 1].0 == x;
    }
  }

  class FlatLevels {
    const high: bool
    var v: Rows
    ghost var contents: LevelMap

    ghost predicate Valid() reads this {
      IsLadder(high, contents, v)
    }

    constructor (high: bool)
      ensures Valid() && this.high == high && contents == map[]
    {
      this.high := high;
      v := [];
      contents := map[];
    }

    /** std::lower_bound by bisection. */
    method Find(p: Price) returns (k: nat)
      requires Valid()
      ensures IsLowerBound(high, v, p, k)
    {
      var lo, hi := 0, |v|;
      while lo < hi
        invariant 0 <= lo <= hi <= |v|
        invariant forall i :: 0 <= i < lo ==> Better(high, v[i].0, p)
        invariant forall i :: hi <= i < |v| ==> !Better(high, v[i].0, p)
      {
        var mid := (lo + hi) / 2;
        assert forall i :: 0 <= i < mid ==> Better(high, v[i].0, v[mid].0);
        assert forall i :: mid < i < |v| ==> Better(high, v[mid].0, v[i].0);
        if Better(high, v[mid].0, p) {
          lo := mid + 1;
        } else {
          hi := mid;
        }
      }
      k := lo;
    }

    method IncLevel(p: Price, q: Qty)
      requires Valid()
      modifies this
      ensures Valid()
      ensures contents == Inc(old(contents), p, q)
    {
      var k := Find(p);
      LowerBoundFinds(high, contents, v, p, k);
      if k < |v| && v[k].0 == p {
        var sum := (v[k].1 + q) % TWO32;
        UpdateRow(high, contents, v, k, sum);
        contents := contents[p := sum];
        v := v[k := (p, sum)];
      } else {
        InsertRow(high, contents, v, p, k, q);
        contents := contents[p := q];
        v := v[..k] + [(p, q)] + v[k..];
      }
    }

    method DecLevel(p: Price, q: Qty)
      requires Valid()
      modifies this
      ensures Valid()
      ensures contents == Dec(old(contents), p, q)
    {
      var k := Find(p);
      LowerBoundFinds(high, contents, v, p, k);
      if k < |v| && v[k].0 == p {
        var rest := (v[k].1 - q) % TWO32;
        if rest == 0 {
          RemoveRow(high, contents, v, k);
          contents := contents - {p};
          v := v[..k] + v[k + 1..];
        } else {
          UpdateRow(high, contents, v, k, rest);
          contents := contents[p := rest];
          v := v[k := (p, rest)];
        }
      }
    }

    method Best() returns (r: Quote)
      requires Valid()
      ensures r == BestQuote(high, contents)
    {
      LadderUnique(high, contents, v);
      if v == [] {
        return NoQuote;
      }
      LadderHead(high, contents);
      r := Quote(v[0].0, v[0].1);
    }

    method QtyAt(p: Price) returns (q: Qty)
      requires Valid()
      ensures q == At(contents, p)
    {
      var k := Find(p);
      LowerBoundFinds(high, contents, v, p, k);
      q := if k < |v| && v[k].0 == p then v[k].1 else 0;
    }

    method Size() returns (n: nat)
      requires Valid()
      ensures n == |contents|
    {
      LadderUnique(high, contents, v);
      n := |v|;
    }

    method Top(n: nat) returns (out: Rows)
      requires Valid()
      ensures out == Take(Ladder(high, contents), n)
    {
      LadderUnique(high, contents, v);
      out := [];
      var i := 0;
      while i < |v| && i < n
        invariant 0 <= i <= |v| && i <= n
        invariant out == v[..i]
      {
        out := out + [v[i]];
        i := i + 1;
      }
    }
  }
}
