/** The free-list object pool: contiguous storage addressed by handles. */
module ObjectPool {

  class ObjectPool<T> {
    var slots: seq<T>
    var free: seq<nat>

    constructor ()
      ensures slots == [] && free == []
    {
      slots, free := [], [];
    }

    /** Reuse the handle freed last, or grow by one slot. */
    method Alloc(blank: T) returns (h: nat)
      modifies this
      ensures old(free) != [] ==> free + [h] == old(free) && slots == old(slots)
      ensures old(free) == [] ==> h == |old(slots)| && free == [] && slots == old(slots) + [blank]
    {
      if free != [] {
        h := free[|free| - 1];
        free := free[..|free| - 1];
      } else {
        slots := slots + [blank];
        h := |slots| - 1;
      }
    }

    method Free(h: nat)
      modifies this`free
      ensures free == old(free) + [h]
    {
      free := free + [h];
    }

    method Store(h: nat, x: T)
      requires h < |slots|
      modifies this`slots
      ensures slots == old(slots)[h := x]
    {
      slots := slots[h := x];
    }
  }

  /** `index` maps keys to distinct handles (`owner` is its inverse), the free list
      has no duplicates, and the two together cover the `n` pool slots exactly. */
  ghost predicate Partitioned<K(!new)>(n: nat, free: seq<nat>, index: map<K, nat>, owner: map<nat, K>) {
    && (forall k :: k in index ==> index[k] in owner && owner[index[k]] == k)
    && (forall h :: h in owner ==> h < n && owner[h] in index && index[owner[h]] == h && h !in free)
    && (forall i :: 0 <= i < |free| ==> free[i] < n)
    && (forall i, j :: 0 <= i < j < |free| ==> free[i] != free[j])
    && (forall h: nat :: h < n ==> h in owner || h in free)
  }

  lemma TakeFree<K(!new)>(n: nat, free: seq<nat>, index: map<K, nat>, owner: map<nat, K>, k: K, h: nat)
    requires Partitioned(n, free + [h], index, owner) && k !in index
    ensures Partitioned(n, free, index[k := h], owner[h := k])
    ensures h < n
  {
    var all := free + [h];
    assert all[|free|] == h;
    assert forall i :: 0 <= i < |free| ==> all[i] == free[i];
    assert h in all;
    assert forall x :: x in all <==> x in free || x == h;
  }

  lemma Grow<K(!new)>(n: nat, index: map<K, nat>, owner: map<nat, K>, k: K)
    requires Partitioned(n, [], index, owner) && k !in index
    ensures Partitioned(n + 1, [], index[k := n], owner[n := k])
  {
  }

  lemma GiveBack<K(!new)>(n: nat, free: seq<nat>, index: map<K, nat>, owner: map<nat, K>, k: K)
    requires Partitioned(n, free, index, owner) && k in index
    ensures Partitioned(n, free + [index[k]], index - {k}, owner - {index[k]})
  {
    var h := index[k];
    var all := free + [h];
    assert forall i :: 0 <= i < |free| ==> all[i] == free[i];
    assert all[|free|] == h;
    assert forall x :: x in all <==> x in free || x == h;
  }

  /** live() = slots - free is the number of keys. */
  lemma LiveCount<K(!new)>(n: nat, free: seq<nat>, index: map<K, nat>, owner: map<nat, K>)
    requires Partitioned(n, free, index, owner)
    ensures |index| == n - |free|
  {
    DistinctCard(free);
    var f := Elements(free);
    assert forall h :: h in owner ==> h in Range(n) && h !in f;
    assert forall h :: h in f ==> h in Range(n);
    assert forall h :: h in Range(n) ==> h in owner || h in f;
    DisjointCard(owner.Keys, f, Range(n));
    InverseCard(index, owner);
  }

  lemma DisjointCard(a: set<nat>, b: set<nat>, c: set<nat>)
    requires forall h :: h in a ==> h in c && h !in b
    requires forall h :: h in b ==> h in c
    requires forall h :: h in c ==> h in a || h in b
    ensures |a| + |b| == |c|
  {
    assert forall h :: h in a + b <==> h in c;
    assert a + b == c;
    assert a !! b;
  }

  ghost function Range(n: nat): (s: set<nat>)
    ensures forall h: nat :: h in s <==> h < n
    ensures |s| == n
  {
    if n == 0 then {} else Range(n - 1) + {n - 1}
  }

  ghost function Elements(s: seq<nat>): (e: set<nat>)
    ensures forall h :: h in e <==> h in s
  {
    if s == [] then {} else Elements(s[..|s| - 1]) + {s[|s| - 1]}
  }

  lemma {:induction false} DistinctCard(s: seq<nat>)
    requires forall i, j :: 0 <= i < j < |s| ==> s[i] != s[j]
    ensures |Elements(s)| == |s|
  {
    if s != [] {
      DistinctCard(s[..|s| - 1]);
    }
  }

  lemma {:induction false} InverseCard<K(!new)>(index: map<K, nat>, owner: map<nat, K>)
    requires forall k :: k in index ==> index[k] in owner && owner[index[k]] == k
    requires forall h :: h in owner ==> owner[h] in index && index[owner[h]] == h
    ensures |index| == |owner|
    decreases index.Keys
  {
    if k :| k in index {
      var h := index[k];
      InverseCard(index - {k}, owner - {h});
      assert (index - {k}).Keys == index.Keys - {k};
      assert (owner - {h}).Keys == owner.Keys - {h};
    } else {
      assert (forall h :: h !in owner) ==> owner == map[];
      assert (forall k :: k !in index) ==> index == map[];
    }
  }
}
