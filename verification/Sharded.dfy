/** The sharded replay: one producer thread hashes each message's locate to one of
    W rings, each drained by its own worker into its own BookSet; the shards are
    merged after the workers have joined. */
module Sharded {
  import opened Prelude
  import opened Messages
  import opened SpscRing
  import opened Pipeline
  import opened BookSet

  /** locate * 2654435761u in 32-bit arithmetic. */
  function Hash(locate: U16): nat {
    (locate * 2654435761) % 0x1_0000_0000
  }

  function ShardOf(locate: U16, w: nat): (r: nat)
    requires w > 0
    ensures r < w && Hash(locate) == Hash(locate) / w * w + r
  {
    Hash(locate) % w
  }

  /** The multiplier is odd, so the hash can be undone: no two locates share one. */
  lemma HashInverse(locate: U16)
    ensures Hash(locate) * 244002641 % 0x1_0000_0000 == locate
  {
    var l: int := locate;
    var q := l * 2654435761 / 0x1_0000_0000;
    Unhash(l, q, Hash(locate));
    LowWord(Hash(locate) * 244002641, 150801925 * l - 244002641 * q, l);
  }

  lemma Unhash(l: int, q: int, h: int)
    requires h == l * 2654435761 - q * 0x1_0000_0000
    ensures h * 244002641 == l + 0x1_0000_0000 * (150801925 * l - 244002641 * q)
  {
  }

  lemma LowWord(x: int, z: int, l: int)
    requires x == l + 0x1_0000_0000 * z && 0 <= l < 0x1_0000_0000
    ensures x % 0x1_0000_0000 == l
  {
  }

  datatype Worker<B, T> = Worker(r: Ring<T>, loop: Loop, book: B, applied: nat)

  /** `sent` messages have been pushed; the producer, if it is inside push(), is
      pushing the next one to the ring of that message's shard. */
  datatype Farm<B, T> = Farm(workers: seq<Worker<B, T>>, sent: nat, done: bool)

  datatype FarmStep = Feed | FeedStep | Finished | Work(w: nat, step: Step)

  /** What worker w and the producer look like to each other. */
  function View<B, T>(f: Farm<B, T>, w: nat): Pipe<B, T>
    requires w < |f.workers|
  {
    var k := f.workers[w];
    Pipe(k.r, !f.done, k.loop, k.book, k.applied)
  }

  function Put<B, T>(f: Farm<B, T>, w: nat, s: Pipe<B, T>): Farm<B, T>
    requires w < |f.workers|
  {
    f.(workers := f.workers[w := Worker(s.r, s.loop, s.book, s.applied)])
  }

  /** A feed whose every message names one of the workers. */
  ghost predicate Routed<T>(shard: T -> nat, ms: seq<T>, n: nat) {
    forall i :: 0 <= i < |ms| ==> shard(ms[i]) < n
  }

  predicate FarmCan<B, T>(shard: T -> nat, ms: seq<T>, f: Farm<B, T>, a: FarmStep) {
    match a
    case Feed =>
      f.sent < |ms| && shard(ms[f.sent]) < |f.workers| && f.workers[shard(ms[f.sent])].r.p.PIdle?
    case FeedStep =>
      f.sent < |ms| && shard(ms[f.sent]) < |f.workers| && Enabled(f.workers[shard(ms[f.sent])].r, Produce)
    case Finished =>
      f.sent == |ms| && !f.done
    case Work(w, step) =>
      w < |f.workers| && step in {CBegin, CStep, CCheck} && Can(ms, View(f, w), step)
  }

  function FarmGo<B, T>(apply: (B, T) -> B, shard: T -> nat, ms: seq<T>, f: Farm<B, T>, a: FarmStep): Farm<B, T>
    requires FarmCan(shard, ms, f, a)
  {
    match a
    case Feed =>
      var w := shard(ms[f.sent]);
      Put(f, w, View(f, w).(r := Do(f.workers[w].r, BeginPush(ms[f.sent]))))
    case FeedStep =>
      var w := shard(ms[f.sent]);
      var r := f.workers[w].r;
      Put(f, w, View(f, w).(r := Do(r, Produce))).(sent := if r.p.PPublish? then f.sent + 1 else f.sent)
    case Finished => f.(done := true)
    case Work(w, step) => Put(f, w, Go(apply, ms, View(f, w), step))
  }

  ghost predicate FarmMove<B, T(!new)>(apply: (B, T) -> B, shard: T -> nat, ms: seq<T>, f: Farm<B, T>, f': Farm<B, T>) {
    exists a :: FarmCan(shard, ms, f, a) && f' == FarmGo(apply, shard, ms, f, a)
  }

  ghost predicate FarmStart<B, T>(b: B, f: Farm<B, T>) {
    && |f.workers| > 0 && f.sent == 0 && !f.done
    && forall w :: 0 <= w < |f.workers| ==> Start(b, View(f, w))
  }

  ghost predicate FarmRun<B, T(!new)>(apply: (B, T) -> B, shard: T -> nat, b: B, ms: seq<T>, fs: seq<Farm<B, T>>) {
    && |fs| > 0 && FarmStart(b, fs[0]) && Routed(shard, ms, |fs[0].workers|)
    && forall i :: 0 <= i < |fs| - 1 ==> FarmMove(apply, shard, ms, fs[i], fs[i + 1])
  }

  /** The messages of one shard, in order. */
  ghost function OfShard<T>(shard: T -> nat, ms: seq<T>, w: nat): seq<T> {
    if ms == [] then []
    else
      var n := |ms| - 1;
      OfShard(shard, ms[..n], w) + (if shard(ms[n]) == w then [ms[n]] else [])
  }

  /** The shard's next message is the feed's next message, when it is the shard's. */
  lemma {:induction false} OfShardNext<T>(shard: T -> nat, ms: seq<T>, n: nat, w: nat)
    requires n <= |ms|
    ensures OfShard(shard, ms[..n], w) <= OfShard(shard, ms, w)
    ensures n < |ms| && shard(ms[n]) == w ==>
              OfShard(shard, ms[..n], w) + [ms[n]] == OfShard(shard, ms[..n + 1], w) <= OfShard(shard, ms, w)
    ensures n < |ms| && shard(ms[n]) != w ==> OfShard(shard, ms[..n], w) == OfShard(shard, ms[..n + 1], w)
    decreases |ms| - n
  {
    if n == |ms| {
      assert ms[..n] == ms;
    } else {
      assert ms[..n + 1][..n] == ms[..n];
      OfShardNext(shard, ms, n + 1, w);
    }
  }

  /** Each worker, with the producer as it sees it, is the two-stage pipeline over
      its own shard's messages. */
  ghost predicate FarmInv<B, T>(apply: (B, T) -> B, shard: T -> nat, b: B, ms: seq<T>, f: Farm<B, T>) {
    && |f.workers| > 0 && f.sent <= |ms| && Routed(shard, ms, |f.workers|)
    && (f.done ==> f.sent == |ms|)
    && (forall w :: 0 <= w < |f.workers| ==> WorkerInv(apply, shard, b, ms, f, w))
  }

  ghost predicate WorkerInv<B, T>(apply: (B, T) -> B, shard: T -> nat, b: B, ms: seq<T>, f: Farm<B, T>, w: nat)
    requires w < |f.workers| && f.sent <= |ms|
  {
    && PipeInv(apply, b, OfShard(shard, ms, w), View(f, w))
    && f.workers[w].r.pushed == OfShard(shard, ms[..f.sent], w)
    && (f.workers[w].r.p.PIdle? || (f.sent < |ms| && shard(ms[f.sent]) == w))
  }

  lemma FeedInv<B, T>(apply: (B, T) -> B, shard: T -> nat, b: B, ms: seq<T>, f: Farm<B, T>, a: FarmStep)
    requires FarmInv(apply, shard, b, ms, f) && FarmCan(shard, ms, f, a) && (a.Feed? || a.FeedStep?)
    ensures FarmInv(apply, shard, b, ms, FarmGo(apply, shard, ms, f, a))
  {
    var w := shard(ms[f.sent]);
    assert WorkerInv(apply, shard, b, ms, f, w);
    ProducerSide(apply, shard, b, ms, f, a, w);
    var f' := FarmGo(apply, shard, ms, f, a);
    forall v | 0 <= v < |f.workers| && v != w ensures WorkerInv(apply, shard, b, ms, f', v) {
      assert WorkerInv(apply, shard, b, ms, f, v);
      assert View(f', v) == View(f, v);
      OfShardNext(shard, ms, f.sent, v);
    }
  }

  lemma NextOfMine<T>(sent: seq<T>, x: T, mine: seq<T>)
    requires sent + [x] <= mine
    ensures |sent| < |mine| && mine[|sent|] == x
  {
    assert (sent + [x])[|sent|] == x;
  }

  /** The producer's step, seen by the worker it is feeding. */
  lemma ProducerSide<B, T>(apply: (B, T) -> B, shard: T -> nat, b: B, ms: seq<T>, f: Farm<B, T>, a: FarmStep, w: nat)
    requires FarmCan(shard, ms, f, a) && (a.Feed? || a.FeedStep?) && w == shard(ms[f.sent])
    requires WorkerInv(apply, shard, b, ms, f, w) && !f.done
    ensures FarmGo(apply, shard, ms, f, a).sent <= |ms|
    ensures WorkerInv(apply, shard, b, ms, FarmGo(apply, shard, ms, f, a), w)
  {
    var mine, s := OfShard(shard, ms, w), View(f, w);
    OfShardNext(shard, ms, f.sent, w);
    NextOfMine(OfShard(shard, ms[..f.sent], w), ms[f.sent], mine);
    var step := if a.Feed? then PBegin else PStep;
    MoveInv(apply, b, mine, s, step);
    var f' := FarmGo(apply, shard, ms, f, a);
    assert View(f', w) == Go(apply, mine, s, step);
  }

  lemma FinishedInv<B, T>(apply: (B, T) -> B, shard: T -> nat, b: B, ms: seq<T>, f: Farm<B, T>)
    requires FarmInv(apply, shard, b, ms, f) && FarmCan(shard, ms, f, Finished)
    ensures FarmInv(apply, shard, b, ms, FarmGo(apply, shard, ms, f, Finished))
  {
    var f' := FarmGo(apply, shard, ms, f, Finished);
    assert ms[..f.sent] == ms;
    forall w | 0 <= w < |f.workers| ensures WorkerInv(apply, shard, b, ms, f', w) {
      assert WorkerInv(apply, shard, b, ms, f, w);
      MoveInv(apply, b, OfShard(shard, ms, w), View(f, w), PDone);
      assert View(f', w) == Go(apply, OfShard(shard, ms, w), View(f, w), PDone);
    }
  }

  lemma WorkInv<B, T>(apply: (B, T) -> B, shard: T -> nat, b: B, ms: seq<T>, f: Farm<B, T>, w: nat, step: Step)
    requires FarmInv(apply, shard, b, ms, f) && FarmCan(shard, ms, f, Work(w, step))
    ensures FarmInv(apply, shard, b, ms, FarmGo(apply, shard, ms, f, Work(w, step)))
  {
    var f' := FarmGo(apply, shard, ms, f, Work(w, step));
    assert WorkerInv(apply, shard, b, ms, f, w);
    ConsumerSide(apply, shard, b, ms, f, w, step);
    forall v | 0 <= v < |f.workers| && v != w ensures WorkerInv(apply, shard, b, ms, f', v) {
      assert WorkerInv(apply, shard, b, ms, f, v);
      assert View(f', v) == View(f, v);
    }
  }

  /** A worker's own step keeps what it promises the producer. */
  lemma ConsumerSide<B, T>(apply: (B, T) -> B, shard: T -> nat, b: B, ms: seq<T>, f: Farm<B, T>, w: nat, step: Step)
    requires w < |f.workers| && f.sent <= |ms| && WorkerInv(apply, shard, b, ms, f, w)
    requires FarmCan(shard, ms, f, Work(w, step))
    ensures WorkerInv(apply, shard, b, ms, FarmGo(apply, shard, ms, f, Work(w, step)), w)
  {
    var mine, s := OfShard(shard, ms, w), View(f, w);
    var f' := FarmGo(apply, shard, ms, f, Work(w, step));
    MoveInv(apply, b, mine, s, step);
    assert View(f', w) == Go(apply, mine, s, step);
  }

  lemma FarmMoveInv<B, T>(apply: (B, T) -> B, shard: T -> nat, b: B, ms: seq<T>, f: Farm<B, T>, a: FarmStep)
    requires FarmInv(apply, shard, b, ms, f) && FarmCan(shard, ms, f, a)
    ensures FarmInv(apply, shard, b, ms, FarmGo(apply, shard, ms, f, a))
    ensures |FarmGo(apply, shard, ms, f, a).workers| == |f.workers|
  {
    match a
    case Feed => FeedInv(apply, shard, b, ms, f, a);
    case FeedStep => FeedInv(apply, shard, b, ms, f, a);
    case Finished => FinishedInv(apply, shard, b, ms, f);
    case Work(w, step) => WorkInv(apply, shard, b, ms, f, w, step);
  }

  lemma FarmStartInv<B, T>(apply: (B, T) -> B, shard: T -> nat, b: B, ms: seq<T>, f: Farm<B, T>)
    requires FarmStart(b, f) && Routed(shard, ms, |f.workers|)
    ensures FarmInv(apply, shard, b, ms, f)
  {
    assert ms[..0] == [];
    forall w | 0 <= w < |f.workers| ensures WorkerInv(apply, shard, b, ms, f, w) {
      assert Start(b, View(f, w));
      InitInv(f.workers[w].r);
    }
  }

  lemma {:induction false} FarmRunInv<B, T(!new)>(apply: (B, T) -> B, shard: T -> nat, b: B, ms: seq<T>,
                                                  fs: seq<Farm<B, T>>, i: nat)
    requires FarmRun(apply, shard, b, ms, fs) && i < |fs|
    ensures FarmInv(apply, shard, b, ms, fs[i]) && |fs[i].workers| == |fs[0].workers|
  {
    if i == 0 {
      FarmStartInv(apply, shard, b, ms, fs[0]);
    } else {
      FarmRunInv(apply, shard, b, ms, fs, i - 1);
      assert FarmMove(apply, shard, ms, fs[i - 1], fs[i - 1 + 1]);
      var a :| FarmCan(shard, ms, fs[i - 1], a) && fs[i] == FarmGo(apply, shard, ms, fs[i - 1], a);
      FarmMoveInv(apply, shard, b, ms, fs[i - 1], a);
    }
  }

  /** All workers have left their loops: the threads can be joined. */
  ghost predicate Joined<B, T>(f: Farm<B, T>) {
    forall w :: 0 <= w < |f.workers| ==> f.workers[w].loop == Exit
  }

  // ---- merging the shards -------------------------------------------------------

  function Shard(n: nat): Message -> nat
    requires n > 0
  {
    (m: Message) => ShardOf(m.locate, n)
  }

  /** out.merge_from(shard 0), then shard 1, ... */
  function MergeAll<B>(out: Books<B>, shards: seq<Books<B>>): Books<B> {
    if shards == [] then out else Merge(MergeAll(out, shards[..|shards| - 1]), shards[|shards| - 1])
  }

  method MergeShards<B>(out: BookSet<B>, shards: seq<BookSet<B>>)
    requires forall i :: 0 <= i < |shards| ==> shards[i] != out
    requires forall i, j :: 0 <= i < j < |shards| ==> shards[i] != shards[j]
    modifies out, set i | 0 <= i < |shards| :: shards[i]
    ensures out.View() == MergeAll(old(out.View()), old(Views(shards)))
  {
    ghost var vs := Views(shards);
    ghost var start := out.View();
    var w := 0;
    while w < |shards|
      invariant 0 <= w <= |shards|
      invariant out.View() == MergeAll(start, vs[..w])
      invariant forall i :: w <= i < |shards| ==> shards[i].View() == vs[i]
    {
      assert vs[..w + 1][..w] == vs[..w];
      ghost var was := out.View();
      out.MergeFrom(shards[w]);
      MergedIs(was, vs[w], out.View());
      w := w + 1;
    }
    assert vs[..w] == vs;
  }

  lemma MergedIs<B>(a: Books<B>, b: Books<B>, c: Books<B>)
    requires forall l: U16 :: SlotAt(c, l) == Prefer(SlotAt(a, l), SlotAt(b, l))
    ensures c == Merge(a, b)
  {
    forall l: U16 ensures SlotAt(c, l) == SlotAt(Merge(a, b), l) {
      MergeSlot(a, b, l);
    }
    SameSlots(c, Merge(a, b));
  }

  ghost function Views<B>(shards: seq<BookSet<B>>): (vs: seq<Books<B>>)
    reads set i | 0 <= i < |shards| :: shards[i]
    ensures |vs| == |shards| && forall i :: 0 <= i < |shards| ==> vs[i] == shards[i].View()
  {
    if shards == [] then [] else Views(shards[..|shards| - 1]) + [shards[|shards| - 1].View()]
  }

  /** A locate's messages all go to one shard, in feed order. */
  lemma {:induction false} LocateInShard(ms: seq<Message>, n: nat, w: nat, l: U16)
    requires n > 0
    ensures OfLocate(OfShard(Shard(n), ms, w), l) == if ShardOf(l, n) == w then OfLocate(ms, l) else []
  {
    if ms != [] {
      var k := |ms| - 1;
      LocateInShard(ms[..k], n, w, l);
      var before := OfShard(Shard(n), ms[..k], w);
      if Shard(n)(ms[k]) == w {
        assert OfShard(Shard(n), ms, w)[..|before|] == before;
      } else {
        assert OfShard(Shard(n), ms, w) == before;
      }
    }
  }

  function NoSlot<B>(): Slot<B> {
    Slot(None, None)
  }

  /** The first k shards together know the locates hashed to them, and nothing else. */
  lemma {:induction false} MergedSlot<B>(apply: (B, Message) -> B, blank: B, out: Books<B>, shards: seq<Books<B>>,
                                         ms: seq<Message>, k: nat, l: U16)
    requires |shards| > 0 && k <= |shards|
    requires forall w :: 0 <= w < |shards| ==>
               shards[w] == Fold(SetApply(apply, blank), Empty(), OfShard(Shard(|shards|), ms, w))
    ensures SlotAt(MergeAll(out, shards[..k]), l) ==
            if ShardOf(l, |shards|) < k
            then Prefer(SlotAt(out, l), SlotAt(Fold(SetApply(apply, blank), Empty(), ms), l))
            else SlotAt(out, l)
  {
    if k > 0 {
      MergedSlot(apply, blank, out, shards, ms, k - 1, l);
      assert shards[..k][..k - 1] == shards[..k - 1];
      var w := k - 1;
      MergeSlot(MergeAll(out, shards[..w]), shards[w], l);
      var mine := OfShard(Shard(|shards|), ms, w);
      FoldOfLocate(apply, blank, Empty(), mine, l);
      FoldOfLocate(apply, blank, Empty(), ms, l);
      LocateInShard(ms, |shards|, w, l);
    }
  }

  /** Merging the shards gives what a sequential replay into an empty set gives,
      merged into `out`. */
  lemma MergeIsReplay<B>(apply: (B, Message) -> B, blank: B, out: Books<B>, shards: seq<Books<B>>, ms: seq<Message>)
    requires |shards| > 0
    requires forall w :: 0 <= w < |shards| ==>
               shards[w] == Fold(SetApply(apply, blank), Empty(), OfShard(Shard(|shards|), ms, w))
    ensures MergeAll(out, shards) == Merge(out, Fold(SetApply(apply, blank), Empty(), ms))
  {
    var whole := Fold(SetApply(apply, blank), Empty(), ms);
    assert shards[..|shards|] == shards;
    forall l: U16 ensures SlotAt(MergeAll(out, shards), l) == SlotAt(Merge(out, whole), l) {
      MergedSlot(apply, blank, out, shards, ms, |shards|, l);
      MergeSlot(out, whole, l);
    }
    SameSlots(MergeAll(out, shards), Merge(out, whole));
  }

  /** Once the workers have joined, every message was pushed, and the shard books merged
      into any set are the sequential replay into an empty set, merged into it. */
  lemma JoinedMerge<B>(apply: (B, Message) -> B, blank: B, out: Books<B>, ms: seq<Message>, f: Farm<Books<B>, Message>)
    requires |f.workers| > 0
    requires FarmInv(SetApply(apply, blank), Shard(|f.workers|), Empty(), ms, f) && Joined(f)
    ensures MergeAll(out, ShardBooks(f)) == Merge(out, Fold(SetApply(apply, blank), Empty(), ms))
    ensures f.sent == |ms|
  {
    var n := |f.workers|;
    var shards := ShardBooks(f);
    forall w | 0 <= w < n
      ensures shards[w] == Fold(SetApply(apply, blank), Empty(), OfShard(Shard(n), ms, w))
      ensures f.done
    {
      assert WorkerInv(SetApply(apply, blank), Shard(n), Empty(), ms, f, w);
    }
    assert shards[0] == shards[0];
    MergeIsReplay(apply, blank, out, shards, ms);
  }

  /** replay_sharded is the sequential replay: for every feed, every number of workers
      and every schedule, once the workers have joined, merging their books into a set
      that knows none of the feed's locates gives exactly the set, books and symbols,
      that applying the feed in order gives; and every message was pushed. */
  lemma ShardedIsSequential<B(!new)>(apply: (B, Message) -> B, blank: B, out: Books<B>, ms: seq<Message>,
                                     fs: seq<Farm<Books<B>, Message>>, i: nat)
    requires |fs| > 0 && |fs[0].workers| > 0
    requires FarmRun(SetApply(apply, blank), Shard(|fs[0].workers|), Empty(), ms, fs)
    requires i < |fs| && Joined(fs[i])
    requires forall l: U16 :: SlotAt(out, l) == NoSlot() || OfLocate(ms, l) == []
    ensures MergeAll(out, ShardBooks(fs[i])) == Fold(SetApply(apply, blank), out, ms)
    ensures fs[i].sent == |ms|
  {
    FarmRunInv(SetApply(apply, blank), Shard(|fs[0].workers|), Empty(), ms, fs, i);
    JoinedMerge(apply, blank, out, ms, fs[i]);
    IntoDisjoint(apply, blank, out, ms);
  }

  /** The messages that reach a book, in order. */
  function Affecting(ms: seq<Message>): seq<Message> {
    if ms == [] then []
    else
      var n := |ms| - 1;
      Affecting(ms[..n]) + (if OrderAffecting(ms[n].typ) then [ms[n]] else [])
  }

  /** The symbol that the last directory entry gives, if there is one. */
  function LastName(ms: seq<Message>): Option<seq<byte>> {
    if ms == [] then None
    else
      var n := |ms| - 1;
      if ms[n].typ == StockDirectory then Some(Trimmed(ms[n].stock)) else LastName(ms[..n])
  }

  /** The last directory entry decides. */
  lemma {:induction false} LastNameIs(ms: seq<Message>)
    ensures LastName(ms).None? <==> forall i :: 0 <= i < |ms| ==> ms[i].typ != StockDirectory
    ensures LastName(ms).Some? ==>
              exists i :: 0 <= i < |ms| && ms[i].typ == StockDirectory && LastName(ms).value == Trimmed(ms[i].stock)
                          && forall j :: i < j < |ms| ==> ms[j].typ != StockDirectory
  {
    if ms != [] {
      var n := |ms| - 1;
      LastNameIs(ms[..n]);
      if ms[n].typ != StockDirectory {
        assert forall i :: 0 <= i < n ==> ms[..n][i] == ms[i];
      }
    }
  }

  /** The feed changes nothing that `out` already holds: each book held comes back from its
      own order messages as it was, and each symbol held is the one named last. */
  ghost predicate Settled<B>(apply: (B, Message) -> B, out: Books<B>, ms: seq<Message>) {
    && (forall l: U16 :: l in out.books ==> Fold(apply, out.books[l], Affecting(OfLocate(ms, l))) == out.books[l])
    && (forall l: U16 :: l in out.symbols ==> LastName(OfLocate(ms, l)) in {None, Some(out.symbols[l])})
  }

  /** What a run leaves of a slot, without the set around it. */
  lemma {:induction false} FoldOfSlot<B>(apply: (B, Message) -> B, blank: B, s: Slot<B>, ms: seq<Message>)
    ensures var r := Fold(SlotApply(apply, blank), s, ms);
            && (s.book.Some? ==> r.book == Some(Fold(apply, s.book.value, Affecting(ms))))
            && r.symbol == LastName(ms).Else(s.symbol)
  {
    if ms != [] {
      var n := |ms| - 1;
      FoldOfSlot(apply, blank, s, ms[..n]);
      var before := Affecting(ms[..n]);
      if OrderAffecting(ms[n].typ) {
        assert Affecting(ms)[..|before|] == before;
      } else {
        assert Affecting(ms) == before;
      }
    }
  }

  /** Slot by slot: the merge keeps what is held, so it is the replay exactly when the
      replay keeps it too. */
  lemma SameSlotIff<B>(apply: (B, Message) -> B, blank: B, out: Books<B>, ms: seq<Message>, l: U16)
    ensures SlotAt(Merge(out, Fold(SetApply(apply, blank), Empty(), ms)), l) == SlotAt(Fold(SetApply(apply, blank), out, ms), l)
            <==> && (l in out.books ==> Fold(apply, out.books[l], Affecting(OfLocate(ms, l))) == out.books[l])
                 && (l in out.symbols ==> LastName(OfLocate(ms, l)) in {None, Some(out.symbols[l])})
  {
    MergeSlot(out, Fold(SetApply(apply, blank), Empty(), ms), l);
    FoldOfLocate(apply, blank, Empty(), ms, l);
    FoldOfLocate(apply, blank, out, ms, l);
    FreshBook(apply, blank, SlotAt(out, l), OfLocate(ms, l));
    FoldOfSlot(apply, blank, SlotAt(out, l), OfLocate(ms, l));
    FoldOfSlot(apply, blank, NoSlot(), OfLocate(ms, l));
  }

  /** A missing book is filled in alike whatever symbol is known. */
  lemma {:induction false} FreshBook<B>(apply: (B, Message) -> B, blank: B, s: Slot<B>, ms: seq<Message>)
    ensures s.book.None? ==> Fold(SlotApply(apply, blank), s, ms).book == Fold(SlotApply(apply, blank), NoSlot(), ms).book
  {
    if ms != [] {
      FreshBook(apply, blank, s, ms[..|ms| - 1]);
    }
  }

  /** Into any set: a book or a symbol that `out` already holds stays as it was, whatever
      the feed says of that locate; so the result is the sequential one exactly when the
      feed leaves every book and every symbol that `out` holds as it was. */
  lemma ShardedInto<B(!new)>(apply: (B, Message) -> B, blank: B, out: Books<B>, ms: seq<Message>,
                             fs: seq<Farm<Books<B>, Message>>, i: nat)
    requires |fs| > 0 && |fs[0].workers| > 0
    requires FarmRun(SetApply(apply, blank), Shard(|fs[0].workers|), Empty(), ms, fs)
    requires i < |fs| && Joined(fs[i])
    ensures var merged := MergeAll(out, ShardBooks(fs[i]));
            && (forall l: U16 :: l in out.books ==> Lookup(merged.books, l) == Lookup(out.books, l))
            && (forall l: U16 :: l in out.symbols ==> Lookup(merged.symbols, l) == Lookup(out.symbols, l))
            && (merged == Fold(SetApply(apply, blank), out, ms) <==> Settled(apply, out, ms))
  {
    FarmRunInv(SetApply(apply, blank), Shard(|fs[0].workers|), Empty(), ms, fs, i);
    JoinedMerge(apply, blank, out, ms, fs[i]);
    MergeIsReplayIff(apply, blank, out, ms);
  }

  lemma MergeIsReplayIff<B>(apply: (B, Message) -> B, blank: B, out: Books<B>, ms: seq<Message>)
    ensures Merge(out, Fold(SetApply(apply, blank), Empty(), ms)) == Fold(SetApply(apply, blank), out, ms)
            <==> Settled(apply, out, ms)
  {
    var merged, direct := Merge(out, Fold(SetApply(apply, blank), Empty(), ms)), Fold(SetApply(apply, blank), out, ms);
    forall l: U16 ensures SlotAt(merged, l) == SlotAt(direct, l)
                          <==> && (l in out.books ==> Fold(apply, out.books[l], Affecting(OfLocate(ms, l))) == out.books[l])
                               && (l in out.symbols ==> LastName(OfLocate(ms, l)) in {None, Some(out.symbols[l])})
    {
      SameSlotIff(apply, blank, out, ms, l);
    }
    if Settled(apply, out, ms) {
      SameSlots(merged, direct);
    }
  }

  ghost function ShardBooks<B, T>(f: Farm<B, T>): seq<B> {
    seq(|f.workers|, w requires 0 <= w < |f.workers| => f.workers[w].book)
  }

  lemma IntoDisjoint<B>(apply: (B, Message) -> B, blank: B, out: Books<B>, ms: seq<Message>)
    requires forall l: U16 :: SlotAt(out, l) == NoSlot() || OfLocate(ms, l) == []
    ensures Merge(out, Fold(SetApply(apply, blank), Empty(), ms)) == Fold(SetApply(apply, blank), out, ms)
  {
    var whole := Fold(SetApply(apply, blank), Empty(), ms);
    var direct := Fold(SetApply(apply, blank), out, ms);
    forall l: U16 ensures SlotAt(Merge(out, whole), l) == SlotAt(direct, l) {
      MergeSlot(out, whole, l);
      FoldOfLocate(apply, blank, Empty(), ms, l);
      FoldOfLocate(apply, blank, out, ms, l);
    }
    SameSlots(Merge(out, whole), direct);
  }

  // ---- progress -----------------------------------------------------------------

  ghost function TotalRank<B, T>(shard: T -> nat, ms: seq<T>, f: Farm<B, T>, n: nat): int
    requires n <= |f.workers|
  {
    if n == 0 then 0
    else TotalRank(shard, ms, f, n - 1) + Rank(OfShard(shard, ms, n - 1), View(f, n - 1))
  }

  lemma {:induction false} TotalRankOne<B, T>(shard: T -> nat, ms: seq<T>, f: Farm<B, T>, f': Farm<B, T>, n: nat, w: nat)
    requires n <= |f.workers| == |f'.workers|
    requires forall v :: 0 <= v < n && v != w ==> View(f', v) == View(f, v)
    ensures w < n ==> TotalRank(shard, ms, f', n) - TotalRank(shard, ms, f, n)
                      == Rank(OfShard(shard, ms, w), View(f', w)) - Rank(OfShard(shard, ms, w), View(f, w))
    ensures w >= n ==> TotalRank(shard, ms, f', n) == TotalRank(shard, ms, f, n)
  {
    if n > 0 {
      TotalRankOne(shard, ms, f, f', n - 1, w);
    }
  }

  lemma {:induction false} TotalRankAll<B, T>(shard: T -> nat, ms: seq<T>, f: Farm<B, T>, f': Farm<B, T>, n: nat)
    requires n <= |f.workers| == |f'.workers|
    requires forall v :: 0 <= v < n ==> Rank(OfShard(shard, ms, v), View(f', v)) < Rank(OfShard(shard, ms, v), View(f, v))
    ensures TotalRank(shard, ms, f', n) <= TotalRank(shard, ms, f, n) - n
  {
    if n > 0 {
      TotalRankAll(shard, ms, f, f', n - 1);
    }
  }

  lemma {:induction false} TotalRankNat<B, T>(apply: (B, T) -> B, shard: T -> nat, b: B, ms: seq<T>, f: Farm<B, T>, n: nat)
    requires FarmInv(apply, shard, b, ms, f) && n <= |f.workers|
    ensures TotalRank(shard, ms, f, n) >= 0
  {
    if n > 0 {
      TotalRankNat(apply, shard, b, ms, f, n - 1);
      assert WorkerInv(apply, shard, b, ms, f, n - 1);
    }
  }

  /** One worker, or the producer feeding it, takes its useful step. */
  lemma StepOf<B, T>(apply: (B, T) -> B, shard: T -> nat, b: B, ms: seq<T>, f: Farm<B, T>, w: nat, a: FarmStep)
    requires FarmInv(apply, shard, b, ms, f) && w < |f.workers| && f.workers[w].loop != Exit
    requires FarmCan(shard, ms, f, a)
    requires var u := Useful(OfShard(shard, ms, w), View(f, w));
             || (a == Work(w, u) && u in {CBegin, CStep, CCheck})
             || (f.sent < |ms| && shard(ms[f.sent]) == w && ((u == PBegin && a == Feed) || (u == PStep && a == FeedStep)))
    ensures TotalRank(shard, ms, FarmGo(apply, shard, ms, f, a), |f.workers|) < TotalRank(shard, ms, f, |f.workers|)
  {
    var mine := OfShard(shard, ms, w);
    var s := View(f, w);
    var u := Useful(mine, s);
    assert WorkerInv(apply, shard, b, ms, f, w);
    Progress(apply, b, mine, s);
    if f.sent < |ms| && shard(ms[f.sent]) == w { OfShardNext(shard, ms, f.sent, w); }
    var f' := FarmGo(apply, shard, ms, f, a);
    assert View(f', w) == Go(apply, mine, s, u);
    TotalRankOne(shard, ms, f, f', |f.workers|, w);
  }

  /** No deadlock, whatever the schedule so far: until all workers have left their
      loops, some thread has a step that brings the end nearer. A producer spinning on
      a full ring is always matched by a worker that can drain it. */
  lemma FarmProgress<B, T>(apply: (B, T) -> B, shard: T -> nat, b: B, ms: seq<T>, f: Farm<B, T>) returns (a: FarmStep)
    requires FarmInv(apply, shard, b, ms, f) && !Joined(f)
    ensures FarmCan(shard, ms, f, a)
    ensures TotalRank(shard, ms, FarmGo(apply, shard, ms, f, a), |f.workers|) < TotalRank(shard, ms, f, |f.workers|)
  {
    if w :| 0 <= w < |f.workers| && |f.workers[w].r.popped| < |f.workers[w].r.pushed| {
      assert WorkerInv(apply, shard, b, ms, f, w);
      Progress(apply, b, OfShard(shard, ms, w), View(f, w));
      a := Work(w, Useful(OfShard(shard, ms, w), View(f, w)));
      StepOf(apply, shard, b, ms, f, w, a);
    } else if f.sent < |ms| {
      var w := shard(ms[f.sent]);
      assert WorkerInv(apply, shard, b, ms, f, w);
      OfShardNext(shard, ms, f.sent, w);
      Progress(apply, b, OfShard(shard, ms, w), View(f, w));
      a := if f.workers[w].r.p.PIdle? then Feed else FeedStep;
      StepOf(apply, shard, b, ms, f, w, a);
    } else if !f.done {
      a := Finished;
      assert ms[..f.sent] == ms;
      var f' := FarmGo(apply, shard, ms, f, a);
      forall v | 0 <= v < |f.workers|
        ensures Rank(OfShard(shard, ms, v), View(f', v)) < Rank(OfShard(shard, ms, v), View(f, v))
      {
        assert WorkerInv(apply, shard, b, ms, f, v);
        Progress(apply, b, OfShard(shard, ms, v), View(f, v));
      }
      TotalRankAll(shard, ms, f, f', |f.workers|);
    } else {
      assert ms[..f.sent] == ms;
      var w :| 0 <= w < |f.workers| && f.workers[w].loop != Exit;
      assert WorkerInv(apply, shard, b, ms, f, w);
      Progress(apply, b, OfShard(shard, ms, w), View(f, w));
      a := Work(w, Useful(OfShard(shard, ms, w), View(f, w)));
      StepOf(apply, shard, b, ms, f, w, a);
    }
  }

  // ---- bounded work ---------------------------------------------------------------

  ghost function SumPopped<B, T>(f: Farm<B, T>, n: nat): nat
    requires n <= |f.workers|
  {
    if n == 0 then 0 else SumPopped(f, n - 1) + |f.workers[n - 1].r.popped|
  }

  /** The messages still to push and to pop, and the flag still to set. */
  ghost function FarmWork<B, T>(ms: seq<T>, f: Farm<B, T>): int {
    2 * |ms| - f.sent - SumPopped(f, |f.workers|) + (if f.done then 0 else 1)
  }

  /** A step that publishes a message, releases one or sets the flag. */
  predicate FarmGainful<B, T>(shard: T -> nat, ms: seq<T>, f: Farm<B, T>, a: FarmStep)
    requires FarmCan(shard, ms, f, a)
  {
    match a
    case Feed => false
    case FeedStep => f.workers[shard(ms[f.sent])].r.p.PPublish?
    case Finished => true
    case Work(w, step) => step == CStep && f.workers[w].r.c.CRelease?
  }

  lemma {:induction false} SumPoppedOne<B, T>(f: Farm<B, T>, f': Farm<B, T>, n: nat, w: nat)
    requires n <= |f.workers| == |f'.workers|
    requires forall v :: 0 <= v < n && v != w ==> f'.workers[v] == f.workers[v]
    ensures SumPopped(f', n) == SumPopped(f, n) + (if w < n then |f'.workers[w].r.popped| - |f.workers[w].r.popped| else 0)
  {
    if n > 0 { SumPoppedOne(f, f', n - 1, w); }
  }

  /** Under any schedule, every successful push or pop and the setting of the flag take
      exactly one off the work left, and no other step changes it. */
  lemma FarmWorkFalls<B, T>(apply: (B, T) -> B, shard: T -> nat, ms: seq<T>, f: Farm<B, T>, a: FarmStep)
    requires FarmCan(shard, ms, f, a)
    ensures FarmWork(ms, FarmGo(apply, shard, ms, f, a)) == FarmWork(ms, f) - (if FarmGainful(shard, ms, f, a) then 1 else 0)
    ensures FarmGained(f, FarmGo(apply, shard, ms, f, a)) <==> FarmGainful(shard, ms, f, a)
  {
    var f' := FarmGo(apply, shard, ms, f, a);
    match a
    case Feed => SumPoppedOne(f, f', |f.workers|, shard(ms[f.sent]));
    case FeedStep => SumPoppedOne(f, f', |f.workers|, shard(ms[f.sent]));
    case Finished => SumPoppedOne(f, f', |f.workers|, |f.workers|);
    case Work(w, step) => SumPoppedOne(f, f', |f.workers|, w);
  }

  /** What a step has achieved, read off the two states. */
  ghost predicate FarmGained<B, T>(f: Farm<B, T>, f': Farm<B, T>) {
    f'.sent != f.sent || SumPopped(f', |f'.workers|) != SumPopped(f, |f.workers|) || f'.done != f.done
  }

  ghost function FarmGains<B, T>(fs: seq<Farm<B, T>>): nat {
    if |fs| <= 1 then 0
    else
      var n := |fs| - 1;
      FarmGains(fs[..n]) + (if FarmGained(fs[n - 1], fs[n]) then 1 else 0)
  }

  /** The shards of a feed together hold each message once. */
  ghost function SumShards<T>(shard: T -> nat, ms: seq<T>, n: nat): nat {
    if n == 0 then 0 else SumShards(shard, ms, n - 1) + |OfShard(shard, ms, n - 1)|
  }

  lemma {:induction false} SumShardsNone<T>(shard: T -> nat, n: nat)
    ensures SumShards(shard, [], n) == 0
  {
    if n > 0 { SumShardsNone(shard, n - 1); }
  }

  lemma {:induction false} SumShardsSnoc<T>(shard: T -> nat, ms: seq<T>, n: nat)
    requires ms != []
    ensures SumShards(shard, ms, n) == SumShards(shard, ms[..|ms| - 1], n) + (if shard(ms[|ms| - 1]) < n then 1 else 0)
  {
    if n > 0 { SumShardsSnoc(shard, ms, n - 1); }
  }

  lemma {:induction false} SumShardsIs<T>(shard: T -> nat, ms: seq<T>, n: nat)
    requires Routed(shard, ms, n)
    ensures SumShards(shard, ms, n) == |ms|
  {
    if ms == [] {
      SumShardsNone(shard, n);
    } else {
      SumShardsIs(shard, ms[..|ms| - 1], n);
      SumShardsSnoc(shard, ms, n);
    }
  }

  lemma {:induction false} SumPoppedWithin<B, T>(apply: (B, T) -> B, shard: T -> nat, b: B, ms: seq<T>, f: Farm<B, T>, n: nat)
    requires FarmInv(apply, shard, b, ms, f) && n <= |f.workers|
    ensures SumPopped(f, n) <= SumShards(shard, ms[..f.sent], n)
    ensures Joined(f) ==> SumPopped(f, n) == SumShards(shard, ms, n)
  {
    if n > 0 {
      SumPoppedWithin(apply, shard, b, ms, f, n - 1);
      assert WorkerInv(apply, shard, b, ms, f, n - 1);
    }
  }

  lemma FarmWorkLeft<B, T>(apply: (B, T) -> B, shard: T -> nat, b: B, ms: seq<T>, f: Farm<B, T>)
    requires FarmInv(apply, shard, b, ms, f)
    ensures FarmWork(ms, f) >= 0 && (Joined(f) ==> FarmWork(ms, f) == 0)
  {
    var n := |f.workers|;
    SumPoppedWithin(apply, shard, b, ms, f, n);
    SumShardsIs(shard, ms[..f.sent], n);
    SumShardsIs(shard, ms, n);
    if Joined(f) {
      assert WorkerInv(apply, shard, b, ms, f, 0);
      assert f.workers[0].loop == Exit;
    }
  }

  /** Any run of the farm holds at most 2|ms| + 1 such steps, whatever the number of
      workers; a run that has joined holds exactly that many. */
  lemma {:induction false} FarmGainsBounded<B, T(!new)>(apply: (B, T) -> B, shard: T -> nat, b: B, ms: seq<T>, fs: seq<Farm<B, T>>)
    requires FarmRun(apply, shard, b, ms, fs)
    ensures FarmGains(fs) + FarmWork(ms, fs[|fs| - 1]) == 2 * |ms| + 1
    ensures FarmGains(fs) <= 2 * |ms| + 1
    ensures Joined(fs[|fs| - 1]) ==> FarmGains(fs) == 2 * |ms| + 1
  {
    var n := |fs| - 1;
    FarmRunInv(apply, shard, b, ms, fs, n);
    FarmWorkLeft(apply, shard, b, ms, fs[n]);
    if n == 0 {
      NonePopped(b, fs[0], |fs[0].workers|);
    } else {
      ShorterFarmRun(apply, shard, b, ms, fs);
      FarmGainsBounded(apply, shard, b, ms, fs[..n]);
      assert FarmMove(apply, shard, ms, fs[n - 1], fs[n - 1 + 1]);
      FarmMoveWork(apply, shard, ms, fs[n - 1], fs[n]);
    }
  }

  lemma {:induction false} NonePopped<B, T>(b: B, f: Farm<B, T>, n: nat)
    requires FarmStart(b, f) && n <= |f.workers|
    ensures SumPopped(f, n) == 0
  {
    if n > 0 {
      NonePopped(b, f, n - 1);
      assert Start(b, View(f, n - 1));
    }
  }

  lemma ShorterFarmRun<B, T(!new)>(apply: (B, T) -> B, shard: T -> nat, b: B, ms: seq<T>, fs: seq<Farm<B, T>>)
    requires FarmRun(apply, shard, b, ms, fs) && |fs| > 1
    ensures FarmRun(apply, shard, b, ms, fs[..|fs| - 1])
  {
    var t := fs[..|fs| - 1];
    forall i | 0 <= i < |t| - 1 ensures FarmMove(apply, shard, ms, t[i], t[i + 1]) {
      assert t[i] == fs[i] && t[i + 1] == fs[i + 1];
    }
  }

  lemma FarmMoveWork<B, T(!new)>(apply: (B, T) -> B, shard: T -> nat, ms: seq<T>, f: Farm<B, T>, f': Farm<B, T>)
    requires FarmMove(apply, shard, ms, f, f')
    ensures FarmWork(ms, f') == FarmWork(ms, f) - (if FarmGained(f, f') then 1 else 0)
  {
    var a :| FarmCan(shard, ms, f, a) && f' == FarmGo(apply, shard, ms, f, a);
    FarmWorkFalls(apply, shard, ms, f, a);
  }

  /** From every reachable state some continuation joins all the workers. */
  lemma FarmCanFinish<B, T(!new)>(apply: (B, T) -> B, shard: T -> nat, b: B, ms: seq<T>, f: Farm<B, T>)
    returns (fs: seq<Farm<B, T>>)
    requires FarmInv(apply, shard, b, ms, f)
    ensures |fs| > 0 && fs[0] == f && Joined(fs[|fs| - 1])
    ensures forall i :: 0 <= i < |fs| - 1 ==> FarmMove(apply, shard, ms, fs[i], fs[i + 1])
    decreases TotalRank(shard, ms, f, |f.workers|)
  {
    TotalRankNat(apply, shard, b, ms, f, |f.workers|);
    if Joined(f) {
      fs := [f];
    } else {
      var a := FarmProgress(apply, shard, b, ms, f);
      var f' := FarmGo(apply, shard, ms, f, a);
      FarmMoveInv(apply, shard, b, ms, f, a);
      TotalRankNat(apply, shard, b, ms, f', |f'.workers|);
      var rest := FarmCanFinish(apply, shard, b, ms, f');
      assert FarmMove(apply, shard, ms, f, f');
      assert forall i :: 1 <= i < |rest| ==> ([f] + rest)[i] == rest[i - 1];
      fs := [f] + rest;
    }
  }
}
