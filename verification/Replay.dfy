/** End to end: the same feed through every delivery path and every driver gives the
    same books, and the synthetic feed never shows a crossed market. */
module Replay {
  import opened Prelude
  import opened Levels
  import opened Messages
  import opened Orders
  import opened Itch
  import opened Framing
  import opened Pipeline
  import opened Fairness
  import opened BookSet
  import opened Sharded
  import opened Mold
  import opened LevelStore
  import opened OrderBook
  import opened Synthetic

  /** A driver folds the book's own apply. */
  lemma {:induction false} FoldIsApplyAll(os: OrderMap, ms: seq<Message>)
    ensures Fold(Apply, os, ms) == ApplyAll(os, ms)
  {
    if ms != [] {
      FoldIsApplyAll(os, ms[..|ms| - 1]);
    }
  }

  /** The reference path on a byte stream: deframe, decode and apply on one thread. */
  method ReplayBytes(buf: Bytes, book: Book) returns (n: nat)
    requires book.Valid() && AllApplicable(book.orders, Decoded(Bodies(buf)))
    modifies book, book.pool, book.bids.Obj(), book.asks.Obj()
    ensures book.Valid() && book.orders == ApplyAll(old(book.orders), Decoded(Bodies(buf)))
    ensures n == |Decoded(Bodies(buf))|
  {
    var ms, _ := ForEachFramedMessage(buf);
    book.Replay(ms);
    n := |ms|;
  }

  /** replay_pipelined on a byte stream returns under every weakly fair schedule, with the
      orders and the count of the reference path. */
  lemma PipelinedReturns(buf: Bytes, os: OrderMap, ss: nat -> Pipe<OrderMap, Message>, who: nat -> Option<Step>) returns (n: nat)
    requires Schedule(Apply, os, Decoded(Bodies(buf)), ss, who) && Fair(Decoded(Bodies(buf)), ss, who)
    ensures ss(n).loop == Exit
    ensures ss(n).book == ApplyAll(os, Decoded(Bodies(buf))) && ss(n).applied == |Decoded(Bodies(buf))|
  {
    n := PipelineTerminates(Apply, os, Decoded(Bodies(buf)), ss, who);
    FoldIsApplyAll(os, Decoded(Bodies(buf)));
  }

  /** replay_pipelined over a byte stream: for every stream, starting book and schedule,
      a consumer that has left its loop holds the orders, and the count, that replaying
      the stream's messages on one thread gives. */
  lemma PipelinedReplay(buf: Bytes, os: OrderMap, ss: seq<Pipe<OrderMap, Message>>, i: nat)
    requires PipeRun(Apply, os, Decoded(Bodies(buf)), ss) && i < |ss| && ss[i].loop == Exit
    ensures ss[i].book == ApplyAll(os, Decoded(Bodies(buf))) && ss[i].applied == |Decoded(Bodies(buf))|
  {
    PipelineIsSequential(Apply, os, Decoded(Bodies(buf)), ss, i);
    FoldIsApplyAll(os, Decoded(Bodies(buf)));
  }

  /** A feed sent as a file and the same feed sent as MoldUDP64 datagrams, encoded and
      decoded again, both replay to the book of the messages that went in. */
  lemma TransportsAgree(ms: seq<Message>, session: Bytes, k: U16)
    requires AllWire(ms)
    requires var feed := FrameAll(EncodeAll(ms)); |feed| < TWO64 - 1 && Sendable(|Bodies(feed)|, k)
    ensures var feed := FrameAll(EncodeAll(ms)); |Bodies(feed)| <= |feed|
    ensures var feed := FrameAll(EncodeAll(ms));
            var got := ReceiveAll(Decode, FRESH, Packets(session, Bodies(feed), k, 1));
            && ApplyAll(map[], Decoded(Bodies(feed))) == ApplyAll(map[], ms)
            && ApplyAll(map[], Seconds(got.out)) == ApplyAll(map[], ms)
  {
    var feed := FrameAll(EncodeAll(ms));
    FeedRoundTrip(ms);
    PacketizedStreamIsDelivered(session, feed, k);
  }

  /** A set, asked for one locate's book, applies exactly that locate's messages. */
  lemma KeepsBook(s: Books<OrderMap>, m: Message, l: U16)
    ensures var os := Get(s, l, map[]);
            Get(ApplySet(Apply, map[], s, m), l, map[]) == if m.locate == l then Apply(os, m) else os
  {
    assert !OrderAffecting(m.typ) ==> Apply(Get(s, l, map[]), m) == Get(s, l, map[]);
  }

  /** The book that a set keeps for a locate is the book of that locate's messages. */
  lemma {:induction false} BookOfLocate(ms: seq<Message>, l: U16)
    ensures Get(Fold(SetApply(Apply, map[]), Empty(), ms), l, map[]) == ApplyAll(map[], OfLocate(ms, l))
  {
    if ms != [] {
      var n := |ms| - 1;
      BookOfLocate(ms[..n], l);
      var before := OfLocate(ms[..n], l);
      var was := Fold(SetApply(Apply, map[]), Empty(), ms[..n]);
      KeepsBook(was, ms[n], l);
      if ms[n].locate == l {
        assert OfLocate(ms, l)[..|before|] == before;
      } else {
        assert OfLocate(ms, l) == before;
      }
    }
  }

  /** replay_sharded over a byte stream: whatever the number of workers and the schedule,
      every instrument ends with exactly the orders its own messages leave. */
  lemma ShardedReplay(buf: Bytes, fs: seq<Farm<Books<OrderMap>, Message>>, i: nat, l: U16)
    requires |fs| > 0 && |fs[0].workers| > 0
    requires FarmRun(SetApply(Apply, map[]), Shard(|fs[0].workers|), Empty(), Decoded(Bodies(buf)), fs)
    requires i < |fs| && Joined(fs[i])
    ensures Get(MergeAll(Empty(), ShardBooks(fs[i])), l, map[]) == ApplyAll(map[], OfLocate(Decoded(Bodies(buf)), l))
  {
    ShardedIsSequential(Apply, map[], Empty(), Decoded(Bodies(buf)), fs, i);
    BookOfLocate(Decoded(Bodies(buf)), l);
  }

  /** A set that holds a book with one order, and a feed that adds a second order to it. */
  const HELD: Books<OrderMap> := Books(map[7 := map[1 := Order(BUY, 100, 10)]], map[])
  const SECOND: Message := BLANK.(typ := MsgType.AddOrder, locate := 7, ref := 2, side := BUY, shares := 5, price := 101)

  /** However many workers and whatever the schedule, the sharded replay of that feed into
      that set leaves the one order; the sequential replay holds both. */
  lemma HeldBookMissesFeed(fs: seq<Farm<Books<OrderMap>, Message>>, i: nat)
    requires |fs| > 0 && |fs[0].workers| > 0
    requires FarmRun(SetApply(Apply, map[]), Shard(|fs[0].workers|), Empty(), [SECOND], fs)
    requires i < |fs| && Joined(fs[i])
    ensures Lookup(MergeAll(HELD, ShardBooks(fs[i])).books, 7) == Some(map[1 := Order(BUY, 100, 10)])
    ensures Lookup(Fold(SetApply(Apply, map[]), HELD, [SECOND]).books, 7)
            == Some(map[1 := Order(BUY, 100, 10), 2 := Order(BUY, 101, 5)])
    ensures !Settled(Apply, HELD, [SECOND])
  {
    ShardedInto(Apply, map[], HELD, [SECOND], fs, i);
    SecondReplayed(HELD, [SECOND], SECOND);
    assert 2 !in HELD.books[7];
  }

  lemma SecondReplayed(out: Books<OrderMap>, ms: seq<Message>, m: Message)
    requires out == HELD && m == SECOND && ms == [m]
    ensures 7 in out.books && out.books[7] == map[1 := Order(BUY, 100, 10)]
    ensures Lookup(Fold(SetApply(Apply, map[]), out, ms).books, 7)
            == Some(map[1 := Order(BUY, 100, 10), 2 := Order(BUY, 101, 5)])
  {
    assert ms[..0] == [];
    assert Fold(SetApply(Apply, map[]), out, ms) == ApplySet(Apply, map[], out, m);
    assert Apply(out.books[7], m) == out.books[7][2 := Order(BUY, 101, 5)];
  }

  /** What is read from a cut synthetic feed is accepted by the book, message by message. */
  lemma CutIsApplicable(ms: seq<Message>, got: seq<Message>)
    requires Clean(ms) && got <= ms && MAX_SHARES * |ms| < TWO32
    ensures AllApplicable(map[], got) && Uncrossed(ApplyAll(map[], got))
  {
    forall i | 0 <= i < |got| ensures Applicable(ApplyAll(map[], got[..i]), got[i]) {
      assert got[..i] == ms[..i] && got[i] == ms[i];
      assert Applicable(After(ms, i), ms[i]);
    }
    assert got == ms[..|got|];
    assert Uncrossed(After(ms, |got|));
  }

  /** The best quotes of the levels that the orders add up to. */
  ghost predicate QuotesOf(os: OrderMap, bid: Quote, ask: Quote) {
    exists bids, asks :: Mirrors(bids, os, true) && Mirrors(asks, os, false) && bid == BestQuote(true, bids) && ask == BestQuote(false, asks)
  }

  /** Generate a synthetic feed from any random stream, cut it at any byte, deframe,
      decode and replay it into a book over any level store: the quotes are those of the
      messages read, and the market they show is never crossed. */
  method SyntheticQuotes(n: nat, rng: nat -> nat, cut: nat, kind: Kind) returns (b: Bytes, bid: Quote, ask: Quote)
    requires MAX_SHARES * n < TWO32
    ensures |Decoded(Bodies(b))| == n && exists ss :: Trace(rng, Decoded(Bodies(b)), ss)
    ensures QuotesOf(ApplyAll(map[], Decoded(Bodies(Take(b, cut)))), bid, ask)
    ensures bid.Quote? && ask.Quote? ==> bid.price < ask.price
  {
    b := MakeSyntheticBook(n, rng);
    ghost var ms := Decoded(Bodies(b));
    var k := if cut < |b| then cut else |b|;
    assert Take(b, cut) == b[..k];
    var got, _ := ForEachFramedMessage(b[..k]);
    CutFeed(ms, k);
    CutIsApplicable(ms, got);
    bid, ask := Quotes(kind, got);
  }

  /** The quotes of a book over any level store after a run that leaves it uncrossed. */
  method Quotes(kind: Kind, ms: seq<Message>) returns (bid: Quote, ask: Quote)
    requires AllApplicable(map[], ms) && Uncrossed(ApplyAll(map[], ms))
    ensures QuotesOf(ApplyAll(map[], ms), bid, ask)
    ensures bid.Quote? && ask.Quote? ==> bid.price < ask.price
  {
    var book := Rebuild(kind, ms);
    bid := book.BestBid();
    ask := book.BestAsk();
    QuotesUncrossed(book.orders, book.bids.Contents(), book.asks.Contents());
  }
}
