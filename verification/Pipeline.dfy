/** The two-stage replay: a producer thread pushes the decoded messages into a
    ring and then clears a flag; a consumer thread pops and applies them, and
    leaves its loop by the "flag down, then one more failed pop" protocol. */
module Pipeline {
  import opened SpscRing

  /** Replaying in order, whatever the book and its apply are. */
  function Fold<B, T>(apply: (B, T) -> B, b: B, ms: seq<T>): B {
    if ms == [] then b else apply(Fold(apply, b, ms[..|ms| - 1]), ms[|ms| - 1])
  }

  /** One message is one apply, and a feed may be replayed in two parts: with the empty feed,
      which changes nothing, this is all that replaying in order means. */
  lemma {:induction false} FoldSplits<B, T>(apply: (B, T) -> B, b: B, ms: seq<T>, more: seq<T>, m: T)
    ensures Fold(apply, b, []) == b && Fold(apply, b, [m]) == apply(b, m)
    ensures Fold(apply, b, ms + more) == Fold(apply, Fold(apply, b, ms), more)
    decreases |more|
  {
    assert [m][..0] == [];
    if more == [] {
      assert ms + more == ms;
    } else {
      var n := |more| - 1;
      FoldSplits(apply, b, ms, more[..n], m);
      assert (ms + more)[..|ms + more| - 1] == ms + more[..n];
    }
  }

  /** The reference path: apply on the calling thread. */
  method ReplaySingleThreaded<B, T>(apply: (B, T) -> B, b: B, ms: seq<T>) returns (book: B, n: nat)
    ensures book == Fold(apply, b, ms) && n == |ms|
  {
    book, n := b, 0;
    while n < |ms|
      invariant 0 <= n <= |ms| && book == Fold(apply, b, ms[..n])
    {
      assert ms[..n + 1][..n] == ms[..n];
      book := apply(book, ms[n]);
      n := n + 1;
    }
    assert ms[..n] == ms;
  }

  /** Where the consumer's loop stands: about to pop or popping, about to load the
      flag after a failed pop, making the last pop, or out of the loop. */
  datatype Loop = Top | Check | Last | Exit

  datatype Pipe<B, T> = Pipe(r: Ring<T>, producing: bool, loop: Loop, book: B, applied: nat)

  datatype Step = PBegin | PStep | PDone | CBegin | CStep | CCheck

  predicate Can<B, T>(ms: seq<T>, s: Pipe<B, T>, a: Step) {
    match a
    case PBegin => s.producing && s.r.p.PIdle? && |s.r.pushed| < |ms|
    case PStep => Enabled(s.r, Produce)
    case PDone => s.producing && s.r.p.PIdle? && |s.r.pushed| == |ms|
    case CBegin => s.loop in {Top, Last} && s.r.c.CIdle?
    case CStep => Enabled(s.r, Consume)
    case CCheck => s.loop == Check
  }

  function Go<B, T>(apply: (B, T) -> B, ms: seq<T>, s: Pipe<B, T>, a: Step): Pipe<B, T>
    requires Can(ms, s, a)
  {
    match a
    case PBegin => s.(r := Do(s.r, BeginPush(ms[|s.r.pushed|])))
    case PStep => s.(r := Do(s.r, Produce))
    case PDone => s.(producing := false)
    case CBegin => s.(r := Do(s.r, BeginPop))
    case CStep =>
      var r' := Do(s.r, Consume);
      if s.r.c.CRelease? then
        Pipe(r', s.producing, Top, apply(s.book, s.r.c.item), s.applied + 1)
      else if r'.c.CIdle? then
        s.(r := r', loop := if s.loop == Top then Check else Exit)
      else
        s.(r := r')
    case CCheck => s.(loop := if s.producing then Top else Last)
  }

  ghost predicate Move<B, T(!new)>(apply: (B, T) -> B, ms: seq<T>, s: Pipe<B, T>, s': Pipe<B, T>) {
    exists a :: Can(ms, s, a) && s' == Go(apply, ms, s, a)
  }

  ghost predicate Start<B, T>(b: B, s: Pipe<B, T>) {
    Init(s.r) && s.producing && s.loop == Top && s.book == b && s.applied == 0
  }

  ghost predicate PipeRun<B, T(!new)>(apply: (B, T) -> B, b: B, ms: seq<T>, ss: seq<Pipe<B, T>>) {
    && |ss| > 0 && Start(b, ss[0])
    && forall i :: 0 <= i < |ss| - 1 ==> Move(apply, ms, ss[i], ss[i + 1])
  }

  ghost predicate PipeInv<B, T>(apply: (B, T) -> B, b: B, ms: seq<T>, s: Pipe<B, T>) {
    && Inv(s.r)
    && s.r.pushed <= ms
    && (!s.r.p.PIdle? ==> s.producing && |s.r.pushed| < |ms| && s.r.p.item == ms[|s.r.pushed|])
    && (!s.producing ==> s.r.pushed == ms)
    && (s.loop in {Check, Exit} ==> s.r.c.CIdle?)
    && (s.loop in {Last, Exit} ==> !s.producing)
    && (s.loop == Exit ==> s.r.popped == ms)
    && s.book == Fold(apply, b, s.r.popped)
    && s.applied == |s.r.popped|
  }

  lemma ConsumerMoveInv<B, T>(apply: (B, T) -> B, b: B, ms: seq<T>, s: Pipe<B, T>)
    requires PipeInv(apply, b, ms, s) && Can(ms, s, CStep)
    ensures PipeInv(apply, b, ms, Go(apply, ms, s, CStep))
  {
    ConsumeInv(s.r);
    GenuineRefusals(s.r);
    if s.r.c.CRelease? {
      var r' := Do(s.r, Consume);
      assert r'.popped[..|r'.popped| - 1] == s.r.popped;
    }
  }

  lemma MoveInv<B, T>(apply: (B, T) -> B, b: B, ms: seq<T>, s: Pipe<B, T>, a: Step)
    requires PipeInv(apply, b, ms, s) && Can(ms, s, a)
    ensures PipeInv(apply, b, ms, Go(apply, ms, s, a))
  {
    match a
    case PBegin => PushStepInv(s.r, ms[|s.r.pushed|]);
    case PStep => ProduceInv(s.r);
    case PDone =>
    case CBegin => PopStepInv(s.r);
    case CStep => ConsumerMoveInv(apply, b, ms, s);
    case CCheck =>
  }

  lemma StartInv<B, T>(apply: (B, T) -> B, b: B, ms: seq<T>, s: Pipe<B, T>)
    requires Start(b, s)
    ensures PipeInv(apply, b, ms, s)
  {
    InitInv(s.r);
  }

  lemma {:induction false} PipeRunInv<B, T(!new)>(apply: (B, T) -> B, b: B, ms: seq<T>, ss: seq<Pipe<B, T>>, i: nat)
    requires PipeRun(apply, b, ms, ss) && i < |ss|
    ensures PipeInv(apply, b, ms, ss[i])
  {
    if i == 0 {
      StartInv(apply, b, ms, ss[0]);
    } else {
      PipeRunInv(apply, b, ms, ss, i - 1);
      assert Move(apply, ms, ss[i - 1], ss[i - 1 + 1]);
      var a :| Can(ms, ss[i - 1], a) && ss[i] == Go(apply, ms, ss[i - 1], a);
      MoveInv(apply, b, ms, ss[i - 1], a);
    }
  }

  /** No last message is lost: in any run, once the consumer has left its loop it has
      applied every message exactly once and in order, the producer is finished, and
      book and count are those of the single-threaded replay. Before that, what has
      been applied is a prefix. */
  lemma PipelineIsSequential<B, T(!new)>(apply: (B, T) -> B, b: B, ms: seq<T>, ss: seq<Pipe<B, T>>, i: nat)
    requires PipeRun(apply, b, ms, ss) && i < |ss|
    ensures ss[i].r.popped <= ms && ss[i].applied <= |ms| && ss[i].book == Fold(apply, b, ms[..ss[i].applied])
    ensures ss[i].loop == Exit ==>
              && ss[i].book == Fold(apply, b, ms) && ss[i].applied == |ms|
              && !ss[i].producing && ss[i].r.p.PIdle?
  {
    PipeRunInv(apply, b, ms, ss, i);
    var s := ss[i];
    assert ms[..|s.r.popped|] == s.r.popped;
    assert s.loop == Exit ==> ms[..|ms|] == ms;
  }

  // ---- progress -----------------------------------------------------------------

  /** The messages still to push and to pop, and the flag still to clear. */
  function Work<B, T>(ms: seq<T>, s: Pipe<B, T>): int {
    2 * |ms| - |s.r.pushed| - |s.r.popped| + (if s.producing then 1 else 0)
  }

  function ConsumerSteps<B, T>(s: Pipe<B, T>): nat {
    match s.r.c
    case CRelease(_, _) => 1
    case CRead(_) => 2
    case CReload(_) => 3
    case CIdle => if s.loop == Check then 5 else 4
  }

  function ProducerSteps<T>(p: Producer<T>): nat {
    match p
    case PPublish(_, _) => 1
    case PWrite(_, _) => 2
    case PReload(_, _) => 3
    case PIdle => 4
  }

  function ExitSteps<B, T>(s: Pipe<B, T>): nat {
    match s.loop
    case Top => if s.r.c.CIdle? then 8 else 7
    case Check => 6
    case Last => if s.r.c.CIdle? then 5 else 4
    case Exit => 0
  }

  /** Steps to the next progress of the thread that can make it: the consumer while
      the ring holds something, else the producer while it has something left, else
      the consumer on its way out. */
  function Local<B, T>(ms: seq<T>, s: Pipe<B, T>): nat {
    if |s.r.popped| < |s.r.pushed| then ConsumerSteps(s)
    else if |s.r.pushed| < |ms| then ProducerSteps(s.r.p)
    else if s.producing then 0
    else ExitSteps(s)
  }

  function Rank<B, T>(ms: seq<T>, s: Pipe<B, T>): int {
    16 * Work(ms, s) + Local(ms, s)
  }

  /** A step that publishes a message, releases one or clears the flag. */
  predicate Gainful<B, T>(s: Pipe<B, T>, a: Step) {
    (a == PStep && s.r.p.PPublish?) || (a == CStep && s.r.c.CRelease?) || a == PDone
  }

  /** Under any schedule, every successful push or pop and the clearing of the flag take
      exactly one off the work left, and no other step changes it. */
  lemma WorkFalls<B, T>(apply: (B, T) -> B, ms: seq<T>, s: Pipe<B, T>, a: Step)
    requires Can(ms, s, a)
    ensures Work(ms, Go(apply, ms, s, a)) == Work(ms, s) - (if Gainful(s, a) then 1 else 0)
    ensures Gained(s, Go(apply, ms, s, a)) <==> Gainful(s, a)
  {
  }

  /** What a step has achieved, read off the two states. */
  predicate Gained<B, T>(s: Pipe<B, T>, s': Pipe<B, T>) {
    |s'.r.pushed| != |s.r.pushed| || |s'.r.popped| != |s.r.popped| || s'.producing != s.producing
  }

  function Gains<B, T>(ss: seq<Pipe<B, T>>): nat {
    if |ss| <= 1 then 0
    else
      var n := |ss| - 1;
      Gains(ss[..n]) + (if Gained(ss[n - 1], ss[n]) then 1 else 0)
  }

  /** Any run, however long, holds at most 2|ms| + 1 such steps; the rest is spinning. A
      run that has ended holds exactly that many. */
  lemma {:induction false} GainsBounded<B, T(!new)>(apply: (B, T) -> B, b: B, ms: seq<T>, ss: seq<Pipe<B, T>>)
    requires PipeRun(apply, b, ms, ss)
    ensures Gains(ss) + Work(ms, ss[|ss| - 1]) == 2 * |ms| + 1
    ensures Gains(ss) <= 2 * |ms| + 1
    ensures ss[|ss| - 1].loop == Exit ==> Gains(ss) == 2 * |ms| + 1
  {
    var n := |ss| - 1;
    PipeRunInv(apply, b, ms, ss, n);
    WorkLeft(apply, b, ms, ss[n]);
    if n > 0 {
      ShorterRun(apply, b, ms, ss);
      GainsBounded(apply, b, ms, ss[..n]);
      assert Move(apply, ms, ss[n - 1], ss[n - 1 + 1]);
      MoveWork(apply, ms, ss[n - 1], ss[n]);
    }
  }

  lemma ShorterRun<B, T(!new)>(apply: (B, T) -> B, b: B, ms: seq<T>, ss: seq<Pipe<B, T>>)
    requires PipeRun(apply, b, ms, ss) && |ss| > 1
    ensures PipeRun(apply, b, ms, ss[..|ss| - 1])
  {
    var t := ss[..|ss| - 1];
    forall i | 0 <= i < |t| - 1 ensures Move(apply, ms, t[i], t[i + 1]) {
      assert t[i] == ss[i] && t[i + 1] == ss[i + 1];
    }
  }

  lemma MoveWork<B, T(!new)>(apply: (B, T) -> B, ms: seq<T>, s: Pipe<B, T>, s': Pipe<B, T>)
    requires Move(apply, ms, s, s')
    ensures Work(ms, s') == Work(ms, s) - (if Gained(s, s') then 1 else 0)
  {
    var a :| Can(ms, s, a) && s' == Go(apply, ms, s, a);
    WorkFalls(apply, ms, s, a);
  }

  lemma WorkLeft<B, T>(apply: (B, T) -> B, b: B, ms: seq<T>, s: Pipe<B, T>)
    requires PipeInv(apply, b, ms, s)
    ensures Work(ms, s) >= 0 && (s.loop == Exit ==> Work(ms, s) == 0)
  {
  }

  /** The thread that can make progress takes its next step. */
  function Useful<B, T>(ms: seq<T>, s: Pipe<B, T>): Step {
    if |s.r.popped| < |s.r.pushed| || (|s.r.pushed| == |ms| && !s.producing) then
      if s.loop == Check then CCheck else if s.r.c.CIdle? then CBegin else CStep
    else if |s.r.pushed| < |ms| then
      if s.r.p.PIdle? then PBegin else PStep
    else PDone
  }

  /** Never stuck: in every reachable state before the end, some thread has a step
      that brings the end nearer; a full ring never blocks both threads. */
  lemma Progress<B, T>(apply: (B, T) -> B, b: B, ms: seq<T>, s: Pipe<B, T>)
    requires PipeInv(apply, b, ms, s) && s.loop != Exit
    ensures Can(ms, s, Useful(ms, s))
    ensures 0 <= Rank(ms, Go(apply, ms, s, Useful(ms, s))) < Rank(ms, s)
  {
    WrapInvisible(s.r);
    GenuineRefusals(s.r);
    var a := Useful(ms, s);
    assert Can(ms, s, a);
    MoveInv(apply, b, ms, s, a);
    assert |s.r.pushed| <= |ms|;
  }

  /** From every reachable state some continuation ends with the consumer out of its loop. */
  ghost function Finish<B, T(!new)>(apply: (B, T) -> B, b: B, ms: seq<T>, s: Pipe<B, T>): (ss: seq<Pipe<B, T>>)
    requires PipeInv(apply, b, ms, s)
    ensures |ss| > 0 && ss[0] == s && ss[|ss| - 1].loop == Exit
    ensures forall i :: 0 <= i < |ss| - 1 ==> Move(apply, ms, ss[i], ss[i + 1])
    decreases Rank(ms, s)
  {
    if s.loop == Exit then [s]
    else
      Progress(apply, b, ms, s);
      var a := Useful(ms, s);
      var s' := Go(apply, ms, s, a);
      MoveInv(apply, b, ms, s, a);
      var rest := Finish(apply, b, ms, s');
      assert Move(apply, ms, s, s');
      assert forall i :: 1 <= i < |rest| ==> ([s] + rest)[i] == rest[i - 1];
      [s] + rest
  }

  // ---- termination under a fair schedule -----------------------------------------------

  datatype Thread = Producing | Consuming

  function ThreadOf(a: Step): Thread {
    match a
    case PBegin => Producing
    case PStep => Producing
    case PDone => Producing
    case CBegin => Consuming
    case CStep => Consuming
    case CCheck => Consuming
  }

  /** The thread whose next step brings the end nearer. */
  function Helper<B, T>(ms: seq<T>, s: Pipe<B, T>): Thread {
    if |s.r.popped| < |s.r.pushed| || (|s.r.pushed| == |ms| && !s.producing) then Consuming else Producing
  }

  /** Whoever moves, the rank does not rise; when the helper moves, it falls. */
  lemma RankNeverRises<B, T>(apply: (B, T) -> B, b: B, ms: seq<T>, s: Pipe<B, T>, a: Step)
    requires PipeInv(apply, b, ms, s) && Can(ms, s, a)
    ensures 0 <= Rank(ms, Go(apply, ms, s, a)) <= Rank(ms, s)
    ensures ThreadOf(a) == Helper(ms, s) || Gainful(s, a) ==> Rank(ms, Go(apply, ms, s, a)) < Rank(ms, s)
  {
    WrapInvisible(s.r);
    GenuineRefusals(s.r);
    MoveInv(apply, b, ms, s, a);
    WorkFalls(apply, ms, s, a);
  }

  /** A rank that has not fallen leaves the helper the same. */
  lemma SameHelper<B, T>(apply: (B, T) -> B, b: B, ms: seq<T>, s: Pipe<B, T>, a: Step)
    requires PipeInv(apply, b, ms, s) && Can(ms, s, a)
    requires Rank(ms, Go(apply, ms, s, a)) == Rank(ms, s)
    ensures Helper(ms, Go(apply, ms, s, a)) == Helper(ms, s)
  {
    WorkFalls(apply, ms, s, a);
  }
}
