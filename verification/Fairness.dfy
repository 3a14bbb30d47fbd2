/** The replay drivers end under every weakly fair schedule: an infinite sequence of
    steps, or of pauses, in which no thread that stays able to move is passed over for
    ever. A producer spinning on a full ring and a consumer spinning on an empty one are
    taking steps, so nothing here assumes that a spin succeeds. */
module Fairness {
  import opened Prelude
  import opened Pipeline
  import opened Sharded
  import opened BookSet
  import opened Messages

  /** A rank that keeps falling until the end brings the end. */
  lemma Descent(rank: nat -> int, fin: nat -> bool, i: nat) returns (n: nat)
    requires forall k: nat :: rank(k) >= 0
    requires forall k: nat :: fin(k) || exists j: nat :: j >= k && (fin(j) || rank(j) < rank(k))
    ensures n >= i && fin(n)
    decreases rank(i)
  {
    if fin(i) {
      n := i;
    } else {
      var j: nat :| j >= i && (fin(j) || rank(j) < rank(i));
      if fin(j) {
        n := j;
      } else {
        n := Descent(rank, fin, j);
      }
    }
  }

  // ---- the two-stage pipeline ------------------------------------------------------------

  /** One tick: a step of some thread, or a pause. */
  ghost predicate Tick<B, T>(apply: (B, T) -> B, ms: seq<T>, s: Pipe<B, T>, o: Option<Step>, s': Pipe<B, T>) {
    match o
    case None => s' == s
    case Some(a) => Can(ms, s, a) && s' == Go(apply, ms, s, a)
  }

  ghost predicate Schedule<B, T>(apply: (B, T) -> B, b: B, ms: seq<T>, ss: nat -> Pipe<B, T>, who: nat -> Option<Step>) {
    Start(b, ss(0)) && forall i: nat :: Tick(apply, ms, ss(i), who(i), ss(i + 1))
  }

  ghost predicate Able<B, T>(ms: seq<T>, s: Pipe<B, T>, t: Thread) {
    exists a :: ThreadOf(a) == t && Can(ms, s, a)
  }

  /** At tick j thread t moves, or has no step to make. */
  ghost predicate Served<B, T>(ms: seq<T>, ss: nat -> Pipe<B, T>, who: nat -> Option<Step>, t: Thread, j: nat) {
    (who(j).Some? && ThreadOf(who(j).value) == t) || !Able(ms, ss(j), t)
  }

  ghost predicate ServedFrom<B, T>(ms: seq<T>, ss: nat -> Pipe<B, T>, who: nat -> Option<Step>, t: Thread, i: nat) {
    exists j: nat :: j >= i && Served(ms, ss, who, t, j)
  }

  /** Weak fairness: again and again, each thread moves or is unable to. */
  ghost predicate Fair<B, T>(ms: seq<T>, ss: nat -> Pipe<B, T>, who: nat -> Option<Step>) {
    forall t, i: nat :: ServedFrom(ms, ss, who, t, i)
  }

  lemma {:induction false} ScheduleInv<B, T>(apply: (B, T) -> B, b: B, ms: seq<T>, ss: nat -> Pipe<B, T>, who: nat -> Option<Step>, i: nat)
    requires Schedule(apply, b, ms, ss, who)
    ensures PipeInv(apply, b, ms, ss(i))
  {
    if i == 0 {
      StartInv(apply, b, ms, ss(0));
    } else {
      ScheduleInv(apply, b, ms, ss, who, i - 1);
      assert Tick(apply, ms, ss(i - 1), who(i - 1), ss(i - 1 + 1));
      if who(i - 1).Some? { MoveInv(apply, b, ms, ss(i - 1), who(i - 1).value); }
    }
  }

  /** Over a stretch of ticks the rank does not rise, and while it does not fall the
      helper stays the same. */
  lemma {:induction false} Stretch<B, T>(apply: (B, T) -> B, b: B, ms: seq<T>, ss: nat -> Pipe<B, T>, who: nat -> Option<Step>, i: nat, j: nat)
    requires Schedule(apply, b, ms, ss, who) && i <= j
    ensures Rank(ms, ss(j)) <= Rank(ms, ss(i))
    ensures Rank(ms, ss(j)) == Rank(ms, ss(i)) ==> Helper(ms, ss(j)) == Helper(ms, ss(i))
    decreases j - i
  {
    if i < j {
      var m := j - 1;
      Stretch(apply, b, ms, ss, who, i, m);
      ScheduleInv(apply, b, ms, ss, who, m);
      assert Tick(apply, ms, ss(m), who(m), ss(m + 1));
      if who(m).Some? {
        RankNeverRises(apply, b, ms, ss(m), who(m).value);
        if Rank(ms, ss(j)) == Rank(ms, ss(m)) { SameHelper(apply, b, ms, ss(m), who(m).value); }
      }
    }
  }

  lemma HelperAble<B, T>(apply: (B, T) -> B, b: B, ms: seq<T>, s: Pipe<B, T>)
    requires PipeInv(apply, b, ms, s) && s.loop != Exit
    ensures Able(ms, s, Helper(ms, s))
  {
    Progress(apply, b, ms, s);
    var a := Useful(ms, s);
    assert ThreadOf(a) == Helper(ms, s) && Can(ms, s, a);
  }

  /** From every tick before the end, the rank falls later on. */
  lemma FallsLater<B, T>(apply: (B, T) -> B, b: B, ms: seq<T>, ss: nat -> Pipe<B, T>, who: nat -> Option<Step>, i: nat) returns (j: nat)
    requires Schedule(apply, b, ms, ss, who) && Fair(ms, ss, who)
    ensures j >= i && (ss(j).loop == Exit || Rank(ms, ss(j)) < Rank(ms, ss(i)))
  {
    var t := Helper(ms, ss(i));
    assert ServedFrom(ms, ss, who, t, i);
    j :| j >= i && Served(ms, ss, who, t, j);
    Stretch(apply, b, ms, ss, who, i, j);
    ScheduleInv(apply, b, ms, ss, who, j);
    if ss(j).loop != Exit && Rank(ms, ss(j)) == Rank(ms, ss(i)) {
      HelperAble(apply, b, ms, ss(j));
      assert Tick(apply, ms, ss(j), who(j), ss(j + 1));
      RankNeverRises(apply, b, ms, ss(j), who(j).value);
      j := j + 1;
    }
  }

  lemma RankNat<B, T>(apply: (B, T) -> B, b: B, ms: seq<T>, s: Pipe<B, T>)
    requires PipeInv(apply, b, ms, s)
    ensures Rank(ms, s) >= 0
  {
    WorkLeft(apply, b, ms, s);
  }

  /** replay_pipelined returns: under every weakly fair schedule the consumer leaves its
      loop, and from then on nothing moves and the book and the count are those of the
      single-threaded replay. */
  lemma PipelineTerminates<B, T>(apply: (B, T) -> B, b: B, ms: seq<T>, ss: nat -> Pipe<B, T>, who: nat -> Option<Step>) returns (n: nat)
    requires Schedule(apply, b, ms, ss, who) && Fair(ms, ss, who)
    ensures ss(n).loop == Exit && ss(n).book == Fold(apply, b, ms) && ss(n).applied == |ms|
    ensures forall j: nat :: j >= n ==> ss(j) == ss(n)
  {
    var rank: nat -> int := (i: nat) => Rank(ms, ss(i));
    var fin: nat -> bool := (i: nat) => ss(i).loop == Exit;
    forall k: nat ensures rank(k) >= 0 {
      ScheduleInv(apply, b, ms, ss, who, k);
      RankNat(apply, b, ms, ss(k));
    }
    forall k: nat ensures fin(k) || exists j: nat :: j >= k && (fin(j) || rank(j) < rank(k)) {
      var j := FallsLater(apply, b, ms, ss, who, k);
      assert fin(j) || rank(j) < rank(k);
    }
    n := Descent(rank, fin, 0);
    ScheduleInv(apply, b, ms, ss, who, n);
    forall j: nat | j >= n ensures ss(j) == ss(n) {
      StaysOut(apply, b, ms, ss, who, n, j);
    }
  }

  lemma {:induction false} StaysOut<B, T>(apply: (B, T) -> B, b: B, ms: seq<T>, ss: nat -> Pipe<B, T>, who: nat -> Option<Step>, n: nat, j: nat)
    requires Schedule(apply, b, ms, ss, who) && n <= j && ss(n).loop == Exit
    ensures ss(j) == ss(n)
    decreases j - n
  {
    if n < j {
      StaysOut(apply, b, ms, ss, who, n, j - 1);
      ScheduleInv(apply, b, ms, ss, who, j - 1);
      assert Tick(apply, ms, ss(j - 1), who(j - 1), ss(j - 1 + 1));
    }
  }

  /** Such schedules exist from every start: run to the end, then pause. */
  lemma FairScheduleExists<B, T(!new)>(apply: (B, T) -> B, b: B, ms: seq<T>, s0: Pipe<B, T>)
    returns (ss: nat -> Pipe<B, T>, who: nat -> Option<Step>)
    requires Start(b, s0)
    ensures Schedule(apply, b, ms, ss, who) && Fair(ms, ss, who) && ss(0) == s0
  {
    StartInv(apply, b, ms, s0);
    var run := Finish(apply, b, ms, s0);
    ss := (i: nat) => At(run, i);
    who := (i: nat) => StepAt(apply, ms, run, i);
    forall i: nat ensures Tick(apply, ms, ss(i), who(i), ss(i + 1)) {
      TickAt(apply, ms, run, i);
    }
    var last := |run| - 1;
    ScheduleInv(apply, b, ms, ss, who, last);
    EndIsStill(apply, b, ms, run[last]);
    forall t, i: nat ensures ServedFrom(ms, ss, who, t, i) {
      var j := if i < last then last else i;
      assert Served(ms, ss, who, t, j);
    }
  }

  /** A finite run, continued for ever by its last state. */
  ghost function At<S>(run: seq<S>, i: nat): S
    requires run != []
  {
    if i < |run| then run[i] else run[|run| - 1]
  }

  ghost function StepAt<B, T(!new)>(apply: (B, T) -> B, ms: seq<T>, run: seq<Pipe<B, T>>, i: nat): Option<Step> {
    if i + 1 < |run| && Move(apply, ms, run[i], run[i + 1]) then
      var a :| Can(ms, run[i], a) && run[i + 1] == Go(apply, ms, run[i], a);
      Some(a)
    else None
  }

  lemma TickAt<B, T(!new)>(apply: (B, T) -> B, ms: seq<T>, run: seq<Pipe<B, T>>, i: nat)
    requires run != [] && forall k :: 0 <= k < |run| - 1 ==> Move(apply, ms, run[k], run[k + 1])
    ensures Tick(apply, ms, At(run, i), StepAt(apply, ms, run, i), At(run, i + 1))
  {
    if i + 1 < |run| {
      assert Move(apply, ms, run[i], run[i + 1]);
    }
  }

  /** Once the consumer is out, nobody has a step left. */
  lemma EndIsStill<B, T>(apply: (B, T) -> B, b: B, ms: seq<T>, s: Pipe<B, T>)
    requires PipeInv(apply, b, ms, s) && s.loop == Exit
    ensures forall t :: !Able(ms, s, t)
  {
  }

  // ---- the sharded replay ------------------------------------------------------------------

  datatype FarmThread = Feeder | Drainer(w: nat)

  function FarmThreadOf(a: FarmStep): FarmThread {
    match a
    case Feed => Feeder
    case FeedStep => Feeder
    case Finished => Feeder
    case Work(w, _) => Drainer(w)
  }

  /** The rank of worker v's pipeline. */
  ghost function RankOf<B, T>(shard: T -> nat, ms: seq<T>, f: Farm<B, T>, v: nat): int
    requires v < |f.workers|
  {
    Rank(OfShard(shard, ms, v), View(f, v))
  }

  /** The step that worker v's pipeline sees, if any. */
  function PipeStep<B, T>(shard: T -> nat, ms: seq<T>, f: Farm<B, T>, a: FarmStep, v: nat): Option<Step>
    requires FarmCan(shard, ms, f, a)
  {
    match a
    case Feed => if shard(ms[f.sent]) == v then Some(PBegin) else None
    case FeedStep => if shard(ms[f.sent]) == v then Some(PStep) else None
    case Finished => Some(PDone)
    case Work(w, step) => if w == v then Some(step) else None
  }

  /** Every step of the farm is, for every worker, a step of its pipeline or none. */
  lemma ViewStep<B, T>(apply: (B, T) -> B, shard: T -> nat, b: B, ms: seq<T>, f: Farm<B, T>, a: FarmStep, v: nat)
    requires FarmInv(apply, shard, b, ms, f) && FarmCan(shard, ms, f, a) && v < |f.workers|
    ensures |FarmGo(apply, shard, ms, f, a).workers| == |f.workers|
    ensures Tick(apply, OfShard(shard, ms, v), View(f, v), PipeStep(shard, ms, f, a, v), View(FarmGo(apply, shard, ms, f, a), v))
  {
    var mine, s := OfShard(shard, ms, v), View(f, v);
    assert WorkerInv(apply, shard, b, ms, f, v);
    if f.sent < |ms| {
      OfShardNext(shard, ms, f.sent, v);
    } else {
      assert ms[..f.sent] == ms;
    }
    if (a.Feed? || a.FeedStep?) && shard(ms[f.sent]) == v {
      assert ms[f.sent] == mine[|s.r.pushed|];
    }
  }

  /** No step raises any worker's rank. */
  lemma RanksFall<B, T>(apply: (B, T) -> B, shard: T -> nat, b: B, ms: seq<T>, f: Farm<B, T>, a: FarmStep, v: nat)
    requires FarmInv(apply, shard, b, ms, f) && FarmCan(shard, ms, f, a) && v < |f.workers|
    ensures |FarmGo(apply, shard, ms, f, a).workers| == |f.workers|
    ensures RankOf(shard, ms, FarmGo(apply, shard, ms, f, a), v) <= RankOf(shard, ms, f, v)
  {
    ViewStep(apply, shard, b, ms, f, a, v);
    assert WorkerInv(apply, shard, b, ms, f, v);
    var o := PipeStep(shard, ms, f, a, v);
    if o.Some? { RankNeverRises(apply, b, OfShard(shard, ms, v), View(f, v), o.value); }
  }

  lemma {:induction false} TotalsFall<B, T>(shard: T -> nat, ms: seq<T>, f: Farm<B, T>, f': Farm<B, T>, n: nat)
    requires n <= |f.workers| == |f'.workers|
    requires forall v :: 0 <= v < n ==> RankOf(shard, ms, f', v) <= RankOf(shard, ms, f, v)
    ensures TotalRank(shard, ms, f', n) <= TotalRank(shard, ms, f, n)
    ensures TotalRank(shard, ms, f', n) == TotalRank(shard, ms, f, n) ==>
              forall v :: 0 <= v < n ==> RankOf(shard, ms, f', v) == RankOf(shard, ms, f, v)
  {
    if n > 0 {
      TotalsFall(shard, ms, f, f', n - 1);
      assert RankOf(shard, ms, f', n - 1) <= RankOf(shard, ms, f, n - 1);
    }
  }

  /** A thread whose next step brings the end nearer: a worker with something to pop or on
      its way out, or the producer when the ring it feeds is empty. */
  ghost predicate Helpful<B, T>(shard: T -> nat, ms: seq<T>, f: Farm<B, T>, t: FarmThread) {
    match t
    case Drainer(w) => w < |f.workers| && f.workers[w].loop != Exit && Helper(OfShard(shard, ms, w), View(f, w)) == Consuming
    case Feeder => !f.done && (f.sent < |ms| ==> Drained(f, shard(ms[f.sent])))
  }

  predicate Drained<B, T>(f: Farm<B, T>, w: nat) {
    w < |f.workers| && |f.workers[w].r.popped| == |f.workers[w].r.pushed|
  }

  lemma SomeHelpful<B, T>(apply: (B, T) -> B, shard: T -> nat, b: B, ms: seq<T>, f: Farm<B, T>) returns (t: FarmThread)
    requires FarmInv(apply, shard, b, ms, f) && !Joined(f)
    ensures Helpful(shard, ms, f, t)
  {
    if w :| 0 <= w < |f.workers| && |f.workers[w].r.popped| < |f.workers[w].r.pushed| {
      assert WorkerInv(apply, shard, b, ms, f, w);
      t := Drainer(w);
    } else if !f.done {
      if f.sent < |ms| {
        assert WorkerInv(apply, shard, b, ms, f, shard(ms[f.sent]));
      }
      t := Feeder;
    } else {
      assert ms[..f.sent] == ms;
      var w :| 0 <= w < |f.workers| && f.workers[w].loop != Exit;
      assert WorkerInv(apply, shard, b, ms, f, w);
      t := Drainer(w);
    }
  }

  ghost predicate FarmAble<B, T>(shard: T -> nat, ms: seq<T>, f: Farm<B, T>, t: FarmThread) {
    exists a :: FarmThreadOf(a) == t && FarmCan(shard, ms, f, a)
  }

  lemma HelpfulAble<B, T>(apply: (B, T) -> B, shard: T -> nat, b: B, ms: seq<T>, f: Farm<B, T>, t: FarmThread)
    requires FarmInv(apply, shard, b, ms, f) && Helpful(shard, ms, f, t)
    ensures FarmAble(shard, ms, f, t)
  {
    match t
    case Drainer(w) =>
      assert WorkerInv(apply, shard, b, ms, f, w);
      Progress(apply, b, OfShard(shard, ms, w), View(f, w));
      var a := FarmStep.Work(w, Useful(OfShard(shard, ms, w), View(f, w)));
      assert FarmThreadOf(a) == t && FarmCan(shard, ms, f, a);
    case Feeder =>
      if f.sent == |ms| {
        assert FarmThreadOf(Finished) == t && FarmCan(shard, ms, f, Finished);
      } else {
        var w := shard(ms[f.sent]);
        assert WorkerInv(apply, shard, b, ms, f, w);
        OfShardNext(shard, ms, f.sent, w);
        Progress(apply, b, OfShard(shard, ms, w), View(f, w));
        var a := if f.workers[w].r.p.PIdle? then Feed else FeedStep;
        assert FarmThreadOf(a) == t && FarmCan(shard, ms, f, a);
      }
  }

  /** When a helpful thread moves, some worker's rank falls. */
  lemma HelpfulFalls<B, T>(apply: (B, T) -> B, shard: T -> nat, b: B, ms: seq<T>, f: Farm<B, T>, a: FarmStep) returns (v: nat)
    requires FarmInv(apply, shard, b, ms, f) && FarmCan(shard, ms, f, a) && Helpful(shard, ms, f, FarmThreadOf(a))
    ensures v < |f.workers| == |FarmGo(apply, shard, ms, f, a).workers|
    ensures RankOf(shard, ms, FarmGo(apply, shard, ms, f, a), v) < RankOf(shard, ms, f, v)
  {
    v := match a
         case Feed => shard(ms[f.sent])
         case FeedStep => shard(ms[f.sent])
         case Finished => 0
         case Work(w, _) => w;
    ViewStep(apply, shard, b, ms, f, a, v);
    assert WorkerInv(apply, shard, b, ms, f, v);
    if f.sent < |ms| { OfShardNext(shard, ms, f.sent, v); }
    RankNeverRises(apply, b, OfShard(shard, ms, v), View(f, v), PipeStep(shard, ms, f, a, v).value);
  }

  /** While no rank falls, a helpful thread stays helpful. */
  lemma StaysHelpful<B, T>(apply: (B, T) -> B, shard: T -> nat, b: B, ms: seq<T>, f: Farm<B, T>, a: FarmStep, t: FarmThread)
    requires FarmInv(apply, shard, b, ms, f) && FarmCan(shard, ms, f, a) && Helpful(shard, ms, f, t) && FarmThreadOf(a) != t
    requires |FarmGo(apply, shard, ms, f, a).workers| == |f.workers|
    requires forall v :: 0 <= v < |f.workers| ==> RankOf(shard, ms, FarmGo(apply, shard, ms, f, a), v) == RankOf(shard, ms, f, v)
    ensures Helpful(shard, ms, FarmGo(apply, shard, ms, f, a), t)
  {
    var f' := FarmGo(apply, shard, ms, f, a);
    match t
    case Drainer(w) => QuietView(apply, shard, b, ms, f, a, w);
    case Feeder =>
      if f.sent < |ms| { QuietView(apply, shard, b, ms, f, a, shard(ms[f.sent])); }
  }

  /** A step that lowers no rank of a worker moves neither counter, nor the flag, nor its
      helper; and its loop only when the helper is the producer. */
  lemma QuietView<B, T>(apply: (B, T) -> B, shard: T -> nat, b: B, ms: seq<T>, f: Farm<B, T>, a: FarmStep, v: nat)
    requires FarmInv(apply, shard, b, ms, f) && FarmCan(shard, ms, f, a)
    requires v < |f.workers| == |FarmGo(apply, shard, ms, f, a).workers|
    requires RankOf(shard, ms, FarmGo(apply, shard, ms, f, a), v) == RankOf(shard, ms, f, v)
    ensures var mine, s, s' := OfShard(shard, ms, v), View(f, v), View(FarmGo(apply, shard, ms, f, a), v);
            && !Gained(s, s') && Helper(mine, s') == Helper(mine, s)
            && (Helper(mine, s) == Consuming ==> s'.loop == s.loop)
  {
    var mine, s := OfShard(shard, ms, v), View(f, v);
    ViewStep(apply, shard, b, ms, f, a, v);
    assert WorkerInv(apply, shard, b, ms, f, v);
    var o := PipeStep(shard, ms, f, a, v);
    if o.Some? {
      RankNeverRises(apply, b, mine, s, o.value);
      WorkFalls(apply, mine, s, o.value);
      SameHelper(apply, b, mine, s, o.value);
    }
  }

  ghost predicate FarmTick<B, T>(apply: (B, T) -> B, shard: T -> nat, ms: seq<T>, f: Farm<B, T>, o: Option<FarmStep>, f': Farm<B, T>) {
    match o
    case None => f' == f
    case Some(a) => FarmCan(shard, ms, f, a) && f' == FarmGo(apply, shard, ms, f, a)
  }

  ghost predicate FarmSchedule<B, T>(apply: (B, T) -> B, shard: T -> nat, b: B, ms: seq<T>,
                                     ff: nat -> Farm<B, T>, who: nat -> Option<FarmStep>) {
    && FarmStart(b, ff(0)) && Routed(shard, ms, |ff(0).workers|)
    && forall i: nat :: FarmTick(apply, shard, ms, ff(i), who(i), ff(i + 1))
  }

  ghost predicate FarmServed<B, T>(shard: T -> nat, ms: seq<T>, ff: nat -> Farm<B, T>, who: nat -> Option<FarmStep>, t: FarmThread, j: nat) {
    (who(j).Some? && FarmThreadOf(who(j).value) == t) || !FarmAble(shard, ms, ff(j), t)
  }

  ghost predicate FarmServedFrom<B, T>(shard: T -> nat, ms: seq<T>, ff: nat -> Farm<B, T>, who: nat -> Option<FarmStep>, t: FarmThread, i: nat) {
    exists j: nat :: j >= i && FarmServed(shard, ms, ff, who, t, j)
  }

  /** Weak fairness towards the producer and each worker. */
  ghost predicate FarmFair<B, T>(shard: T -> nat, ms: seq<T>, ff: nat -> Farm<B, T>, who: nat -> Option<FarmStep>) {
    forall t, i: nat :: FarmServedFrom(shard, ms, ff, who, t, i)
  }

  lemma {:induction false} FarmScheduleInv<B, T>(apply: (B, T) -> B, shard: T -> nat, b: B, ms: seq<T>,
                                                 ff: nat -> Farm<B, T>, who: nat -> Option<FarmStep>, i: nat)
    requires FarmSchedule(apply, shard, b, ms, ff, who)
    ensures FarmInv(apply, shard, b, ms, ff(i)) && |ff(i).workers| == |ff(0).workers|
  {
    if i == 0 {
      FarmStartInv(apply, shard, b, ms, ff(0));
    } else {
      FarmScheduleInv(apply, shard, b, ms, ff, who, i - 1);
      assert FarmTick(apply, shard, ms, ff(i - 1), who(i - 1), ff(i - 1 + 1));
      if who(i - 1).Some? { FarmMoveInv(apply, shard, b, ms, ff(i - 1), who(i - 1).value); }
    }
  }

  ghost function FarmRank<B, T>(shard: T -> nat, ms: seq<T>, f: Farm<B, T>): int {
    TotalRank(shard, ms, f, |f.workers|)
  }

  /** One tick: the rank does not rise, falls when a helpful thread moves, and otherwise
      leaves the helpful threads helpful. */
  lemma OneTick<B, T>(apply: (B, T) -> B, shard: T -> nat, b: B, ms: seq<T>, f: Farm<B, T>, a: FarmStep, t: FarmThread)
    requires FarmInv(apply, shard, b, ms, f) && FarmCan(shard, ms, f, a)
    ensures FarmRank(shard, ms, FarmGo(apply, shard, ms, f, a)) <= FarmRank(shard, ms, f)
    ensures Helpful(shard, ms, f, t) && FarmRank(shard, ms, FarmGo(apply, shard, ms, f, a)) == FarmRank(shard, ms, f) ==>
              FarmThreadOf(a) != t && Helpful(shard, ms, FarmGo(apply, shard, ms, f, a), t)
  {
    var f' := FarmGo(apply, shard, ms, f, a);
    FarmMoveInv(apply, shard, b, ms, f, a);
    forall v | 0 <= v < |f.workers| ensures RankOf(shard, ms, f', v) <= RankOf(shard, ms, f, v) {
      RanksFall(apply, shard, b, ms, f, a, v);
    }
    TotalsFall(shard, ms, f, f', |f.workers|);
    if Helpful(shard, ms, f, t) && FarmRank(shard, ms, f') == FarmRank(shard, ms, f) {
      if FarmThreadOf(a) == t {
        var _ := HelpfulFalls(apply, shard, b, ms, f, a);
      } else {
        StaysHelpful(apply, shard, b, ms, f, a, t);
      }
    }
  }

  lemma {:induction false} FarmStretch<B, T>(apply: (B, T) -> B, shard: T -> nat, b: B, ms: seq<T>,
                                             ff: nat -> Farm<B, T>, who: nat -> Option<FarmStep>, i: nat, j: nat, t: FarmThread)
    requires FarmSchedule(apply, shard, b, ms, ff, who) && i <= j && Helpful(shard, ms, ff(i), t)
    ensures FarmRank(shard, ms, ff(j)) <= FarmRank(shard, ms, ff(i))
    ensures FarmRank(shard, ms, ff(j)) == FarmRank(shard, ms, ff(i)) ==> Helpful(shard, ms, ff(j), t)
    decreases j - i
  {
    if i < j {
      var m := j - 1;
      FarmStretch(apply, shard, b, ms, ff, who, i, m, t);
      FarmScheduleInv(apply, shard, b, ms, ff, who, m);
      assert FarmTick(apply, shard, ms, ff(m), who(m), ff(m + 1));
      if who(m).Some? { OneTick(apply, shard, b, ms, ff(m), who(m).value, t); }
    }
  }

  lemma FarmFallsLater<B, T>(apply: (B, T) -> B, shard: T -> nat, b: B, ms: seq<T>,
                             ff: nat -> Farm<B, T>, who: nat -> Option<FarmStep>, i: nat) returns (j: nat)
    requires FarmSchedule(apply, shard, b, ms, ff, who) && FarmFair(shard, ms, ff, who) && !Joined(ff(i))
    ensures j >= i && FarmRank(shard, ms, ff(j)) < FarmRank(shard, ms, ff(i))
  {
    FarmScheduleInv(apply, shard, b, ms, ff, who, i);
    var t := SomeHelpful(apply, shard, b, ms, ff(i));
    assert FarmServedFrom(shard, ms, ff, who, t, i);
    j :| j >= i && FarmServed(shard, ms, ff, who, t, j);
    FarmStretch(apply, shard, b, ms, ff, who, i, j, t);
    if FarmRank(shard, ms, ff(j)) == FarmRank(shard, ms, ff(i)) {
      FarmScheduleInv(apply, shard, b, ms, ff, who, j);
      HelpfulAble(apply, shard, b, ms, ff(j), t);
      assert FarmTick(apply, shard, ms, ff(j), who(j), ff(j + 1));
      OneTick(apply, shard, b, ms, ff(j), who(j).value, t);
      j := j + 1;
    }
  }

  lemma {:induction false} StaysJoined<B, T>(apply: (B, T) -> B, shard: T -> nat, b: B, ms: seq<T>,
                                             ff: nat -> Farm<B, T>, who: nat -> Option<FarmStep>, n: nat, j: nat)
    requires FarmSchedule(apply, shard, b, ms, ff, who) && n <= j && Joined(ff(n))
    ensures ff(j) == ff(n)
    decreases j - n
  {
    if n < j {
      StaysJoined(apply, shard, b, ms, ff, who, n, j - 1);
      FarmScheduleInv(apply, shard, b, ms, ff, who, j - 1);
      assert FarmTick(apply, shard, ms, ff(j - 1), who(j - 1), ff(j - 1 + 1));
      JoinedIsStill(apply, shard, b, ms, ff(n));
    }
  }

  /** Once all workers are out, nobody has a step left. */
  lemma JoinedIsStill<B, T>(apply: (B, T) -> B, shard: T -> nat, b: B, ms: seq<T>, f: Farm<B, T>)
    requires FarmInv(apply, shard, b, ms, f) && Joined(f)
    ensures forall a :: !FarmCan(shard, ms, f, a)
  {
    assert WorkerInv(apply, shard, b, ms, f, 0) && f.workers[0].loop == Exit;
    forall a ensures !FarmCan(shard, ms, f, a) {
      if a.Work? && a.w < |f.workers| {
        assert WorkerInv(apply, shard, b, ms, f, a.w) && f.workers[a.w].loop == Exit;
      }
    }
  }

  /** Under every weakly fair schedule all workers leave their loops, for good. */
  lemma FarmTerminates<B, T>(apply: (B, T) -> B, shard: T -> nat, b: B, ms: seq<T>,
                             ff: nat -> Farm<B, T>, who: nat -> Option<FarmStep>) returns (n: nat)
    requires FarmSchedule(apply, shard, b, ms, ff, who) && FarmFair(shard, ms, ff, who)
    ensures Joined(ff(n)) && forall j: nat :: j >= n ==> ff(j) == ff(n)
  {
    var rank: nat -> int := (i: nat) => FarmRank(shard, ms, ff(i));
    var fin: nat -> bool := (i: nat) => Joined(ff(i));
    forall k: nat ensures rank(k) >= 0 {
      FarmScheduleInv(apply, shard, b, ms, ff, who, k);
      TotalRankNat(apply, shard, b, ms, ff(k), |ff(k).workers|);
    }
    forall k: nat ensures fin(k) || exists j: nat :: j >= k && (fin(j) || rank(j) < rank(k)) {
      if !fin(k) {
        var j := FarmFallsLater(apply, shard, b, ms, ff, who, k);
        assert rank(j) < rank(k);
      }
    }
    n := Descent(rank, fin, 0);
    forall j: nat | j >= n ensures ff(j) == ff(n) {
      StaysJoined(apply, shard, b, ms, ff, who, n, j);
    }
  }

  /** Such schedules exist too. */
  lemma FairFarmScheduleExists<B, T(!new)>(apply: (B, T) -> B, shard: T -> nat, b: B, ms: seq<T>, f0: Farm<B, T>)
    returns (ff: nat -> Farm<B, T>, who: nat -> Option<FarmStep>)
    requires FarmStart(b, f0) && Routed(shard, ms, |f0.workers|)
    ensures FarmSchedule(apply, shard, b, ms, ff, who) && FarmFair(shard, ms, ff, who) && ff(0) == f0
  {
    FarmStartInv(apply, shard, b, ms, f0);
    var run := FarmCanFinish(apply, shard, b, ms, f0);
    ff := (i: nat) => At(run, i);
    who := (i: nat) => FarmStepAt(apply, shard, ms, run, i);
    forall i: nat ensures FarmTick(apply, shard, ms, ff(i), who(i), ff(i + 1)) {
      FarmTickAt(apply, shard, ms, run, i);
    }
    var last := |run| - 1;
    FarmScheduleInv(apply, shard, b, ms, ff, who, last);
    JoinedIsStill(apply, shard, b, ms, run[last]);
    forall t, i: nat ensures FarmServedFrom(shard, ms, ff, who, t, i) {
      var j := if i < last then last else i;
      assert FarmServed(shard, ms, ff, who, t, j);
    }
  }

  ghost function FarmStepAt<B, T(!new)>(apply: (B, T) -> B, shard: T -> nat, ms: seq<T>, run: seq<Farm<B, T>>, i: nat): Option<FarmStep> {
    if i + 1 < |run| && FarmMove(apply, shard, ms, run[i], run[i + 1]) then
      var a :| FarmCan(shard, ms, run[i], a) && run[i + 1] == FarmGo(apply, shard, ms, run[i], a);
      Some(a)
    else None
  }

  lemma FarmTickAt<B, T(!new)>(apply: (B, T) -> B, shard: T -> nat, ms: seq<T>, run: seq<Farm<B, T>>, i: nat)
    requires run != [] && forall k :: 0 <= k < |run| - 1 ==> FarmMove(apply, shard, ms, run[k], run[k + 1])
    ensures FarmTick(apply, shard, ms, At(run, i), FarmStepAt(apply, shard, ms, run, i), At(run, i + 1))
  {
    if i + 1 < |run| {
      assert FarmMove(apply, shard, ms, run[i], run[i + 1]);
    }
  }

  /** replay_sharded returns: under every weakly fair schedule of the producer and the
      workers, the threads can be joined, every message was pushed, and the shard books
      merged into an empty set are the sequential replay. */
  lemma ShardedTerminates<B(!new)>(apply: (B, Message) -> B, blank: B, ms: seq<Message>,
                                   ff: nat -> Farm<Books<B>, Message>, who: nat -> Option<FarmStep>) returns (n: nat)
    requires |ff(0).workers| > 0
    requires FarmSchedule(SetApply(apply, blank), Shard(|ff(0).workers|), Empty(), ms, ff, who)
    requires FarmFair(Shard(|ff(0).workers|), ms, ff, who)
    ensures Joined(ff(n)) && ff(n).sent == |ms| && (forall j: nat :: j >= n ==> ff(j) == ff(n))
    ensures MergeAll(Empty(), ShardBooks(ff(n))) == Fold(SetApply(apply, blank), Empty(), ms)
  {
    var w := |ff(0).workers|;
    n := FarmTerminates(SetApply(apply, blank), Shard(w), Empty(), ms, ff, who);
    FarmScheduleInv(SetApply(apply, blank), Shard(w), Empty(), ms, ff, who, n);
    JoinedMerge(apply, blank, Empty(), ms, ff(n));
    IntoDisjoint(apply, blank, Empty(), ms);
  }
}
