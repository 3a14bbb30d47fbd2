/** BinaryFILE framing: every message preceded by its 2-byte big-endian length. */
module Framing {
  import opened Prelude
  import opened Messages
  import opened Itch
  import opened Seqs

  type Bytes = seq<byte>

  /** A body that a 2-byte length can frame and that does not read as end of file. */
  predicate Framable(b: Bytes) {
    1 <= |b| < 0x1_0000
  }

  function Frame(b: Bytes): Bytes {
    BE(|b|, 2) + b
  }

  function FrameAll(bs: seq<Bytes>): Bytes {
    if bs == [] then [] else Frame(bs[0]) + FrameAll(bs[1..])
  }

  /** A whole, non-empty frame starts the bytes. */
  predicate HasFrame(s: Bytes) {
    |s| >= 2 && Rd16(s, 0) != 0 && 2 + Rd16(s, 0) <= |s|
  }

  /** The framed bodies, up to a zero length or a truncated tail. */
  function Bodies(s: Bytes): seq<Bytes> {
    if HasFrame(s) then
      var n: int := Rd16(s, 0);
      [s[2..2 + n]] + Bodies(s[2 + n..])
    else []
  }

  /** The bytes those frames take. */
  function Consumed(s: Bytes): (n: nat)
    ensures n <= |s|
  {
    if HasFrame(s) then
      var n: int := Rd16(s, 0);
      2 + n + Consumed(s[2 + n..])
    else 0
  }

  /** What a partial function makes of a list, leaving out its failures. */
  function Collect<X, Y>(f: X -> Option<Y>, xs: seq<X>): seq<Y> {
    if xs == [] then []
    else Found(f(xs[0])) + Collect(f, xs[1..])
  }

  function Found<Y>(y: Option<Y>): seq<Y> {
    if y.Some? then [y.value] else []
  }

  /** The messages among the bodies, in order. */
  function Decoded(bs: seq<Bytes>): seq<Message> {
    Collect(Decode, bs)
  }

  /** Failures are left out and nothing else: each body on its own, and part by part. */
  lemma {:induction false} CollectSplits<X, Y>(f: X -> Option<Y>, xs: seq<X>, ys: seq<X>, x: X)
    ensures Collect(f, [x]) == if f(x).Some? then [f(x).value] else []
    ensures Collect(f, xs + ys) == Collect(f, xs) + Collect(f, ys)
    decreases |xs|
  {
    assert [x][1..] == [];
    if xs == [] {
      assert xs + ys == ys;
    } else {
      CollectSplits(f, xs[1..], ys, x);
      TailOfConcat(xs, ys);
      Assoc(Found(f(xs[0])), Collect(f, xs[1..]), Collect(f, ys));
    }
  }

  /** Byte by byte: a zero length, a length that runs past the end, or fewer than two bytes
      stop the walk; otherwise the body is delivered and the walk goes on after it. */
  lemma BodiesByByte(s: Bytes)
    ensures |s| < 2 ==> Bodies(s) == [] && Consumed(s) == 0
    ensures |s| >= 2 ==>
              var hi: int := s[0];
              var n := hi * 256 + s[1];
              if n == 0 || n > |s| - 2 then Bodies(s) == [] && Consumed(s) == 0
              else Bodies(s) == [s[2..2 + n]] + Bodies(s[2 + n..]) && Consumed(s) == 2 + n + Consumed(s[2 + n..])
  {
  }

  /** Walk the stream with any decoder: what is handed to the sink, and the offset
      returned. Every access is in bounds. */
  method Walk<Y>(decode: Bytes -> Option<Y>, buf: Bytes) returns (ys: seq<Y>, off: nat)
    ensures ys == Collect(decode, Bodies(buf))
    ensures off == Consumed(buf)
  {
    ys, off := [], 0;
    assert buf[0..] == buf;
    ghost var later := Collect(decode, Bodies(buf));
    while off + 2 <= |buf|
      invariant off <= |buf| && later == Collect(decode, Bodies(buf[off..]))
      invariant ys + later == Collect(decode, Bodies(buf))
      invariant off + Consumed(buf[off..]) == Consumed(buf)
      decreases |buf| - off
    {
      var mlen: int := Rd16(buf, off);
      assert Rd16(buf[off..], 0) == mlen;
      if mlen == 0 { break; }
      if off + 2 + mlen > |buf| { break; }
      var off' := off + 2 + mlen;
      var y := decode(buf[off + 2..off']);
      Advance(decode, buf, off, mlen, off');
      later := Collect(decode, Bodies(buf[off'..]));
      Assoc(ys, Found(y), later);
      if y.Some? {
        ys := ys + [y.value];
      } else {
        assert ys + [] == ys;
      }
      off := off';
    }
    AtEnd(decode, buf[off..]);
  }

  lemma AtEnd<Y>(decode: Bytes -> Option<Y>, s: Bytes)
    requires !HasFrame(s)
    ensures Collect(decode, Bodies(s)) == [] && Consumed(s) == 0
  {
  }

  lemma Advance<Y>(decode: Bytes -> Option<Y>, buf: Bytes, off: nat, mlen: nat, off': nat)
    requires off <= |buf| && HasFrame(buf[off..]) && Rd16(buf[off..], 0) == mlen && off' == off + 2 + mlen
    ensures off' <= |buf|
    ensures Collect(decode, Bodies(buf[off..])) == Found(decode(buf[off + 2..off'])) + Collect(decode, Bodies(buf[off'..]))
    ensures Consumed(buf[off..]) == 2 + mlen + Consumed(buf[off'..])
  {
    var rest := buf[off..];
    assert rest[2..2 + mlen] == buf[off + 2..off'] && rest[2 + mlen..] == buf[off'..];
    var bs := Bodies(rest);
    assert bs[0] == buf[off + 2..off'] && bs[1..] == Bodies(rest[2 + mlen..]);
  }

  method ForEachFramedMessage(buf: Bytes) returns (ms: seq<Message>, off: nat)
    ensures ms == Decoded(Bodies(buf))
    ensures off == Consumed(buf) <= |buf|
  {
    ms, off := Walk(Decode, buf);
  }

  // ---- framing and deframing are inverse ------------------------------------------

  lemma FrameHead(b: Bytes, rest: Bytes)
    requires Framable(b)
    ensures var s := Frame(b) + rest;
            HasFrame(s) && Rd16(s, 0) == |b| && s[2..2 + |b|] == b && s[2 + |b|..] == rest
  {
    var s := Frame(b) + rest;
    assert BE(|b|, 2) == [|b| / 256 % 256, |b| % 256];
    assert s[0] == |b| / 256 && s[1] == |b| % 256;
  }

  lemma BodiesCons(b: Bytes, rest: Bytes)
    requires Framable(b)
    ensures Bodies(Frame(b) + rest) == [b] + Bodies(rest)
    ensures Consumed(Frame(b) + rest) == 2 + |b| + Consumed(rest)
  {
    FrameHead(b, rest);
  }

  ghost predicate AllFramable(bs: seq<Bytes>) {
    forall i :: 0 <= i < |bs| ==> Framable(bs[i])
  }

  lemma FrameAllCons(b: Bytes, bs: seq<Bytes>)
    ensures FrameAll([b] + bs) == Frame(b) + FrameAll(bs)
  {
    assert ([b] + bs)[1..] == bs;
  }

  lemma {:induction false} FrameAllSnoc(bs: seq<Bytes>, b: Bytes)
    ensures FrameAll(bs + [b]) == FrameAll(bs) + Frame(b)
  {
    if bs == [] {
      assert bs + [b] == [b];
    } else {
      FrameAllSnoc(bs[1..], b);
      assert (bs + [b])[1..] == bs[1..] + [b];
    }
  }

  /** Deframing a framed list, whatever follows it. */
  lemma {:induction false} BodiesOfFrames(bs: seq<Bytes>, rest: Bytes)
    requires AllFramable(bs)
    ensures Bodies(FrameAll(bs) + rest) == bs + Bodies(rest)
    ensures Consumed(FrameAll(bs) + rest) == |FrameAll(bs)| + Consumed(rest)
  {
    if bs == [] {
      assert FrameAll(bs) + rest == rest;
    } else {
      var b, t := bs[0], bs[1..];
      var f := FrameAll(t);
      BodiesOfFrames(t, rest);
      BodiesCons(b, f + rest);
      Assoc(Frame(b), f, rest);
      Assoc([b], t, Bodies(rest));
      HeadTail(bs);
    }
  }

  lemma SplitFrame(s: Bytes)
    requires HasFrame(s)
    ensures var n := Rd16(s, 0);
            Framable(s[2..2 + n]) && s == Frame(s[2..2 + n]) + s[2 + n..]
  {
    var n: int := Rd16(s, 0);
    assert BE(n, 2) == [n / 256 % 256, n % 256];
    assert s[..2] == BE(n, 2);
    assert s == s[..2] + s[2..2 + n] + s[2 + n..];
  }

  /** Framing the bodies of any stream gives back exactly the bytes consumed, and
      what is left starts no further frame. */
  lemma {:induction false} FramesOfBodies(s: Bytes)
    ensures FrameAll(Bodies(s)) + s[Consumed(s)..] == s
    ensures !HasFrame(s[Consumed(s)..])
  {
    if HasFrame(s) {
      var n: int := Rd16(s, 0);
      var b, rest := s[2..2 + n], s[2 + n..];
      SplitFrame(s);
      FramesOfBodies(rest);
      var c := Consumed(rest);
      FrameAllCons(b, Bodies(rest));
      assert s[2 + n + c..] == rest[c..];
      RejoinFrames(Frame(b), FrameAll(Bodies(rest)), rest[c..], rest);
    } else {
      assert s[0..] == s;
    }
  }

  lemma RejoinFrames(a: Bytes, b: Bytes, c: Bytes, bc: Bytes)
    requires b + c == bc
    ensures (a + b) + c == a + bc
  {
  }

  lemma {:induction false} BodiesFramable(s: Bytes)
    ensures AllFramable(Bodies(s))
  {
    if HasFrame(s) {
      BodiesFramable(s[2 + Rd16(s, 0)..]);
    }
  }

  /** Cutting the stream anywhere loses bodies only from the end. */
  lemma {:induction false} CutBodies(s: Bytes, k: nat)
    requires k <= |s|
    ensures Bodies(s[..k]) <= Bodies(s)
  {
    var cut := s[..k];
    if HasFrame(cut) {
      var n := Rd16(cut, 0);
      assert Rd16(s, 0) == n;
      CutBodies(s[2 + n..], k - 2 - n);
      assert cut[2 + n..] == s[2 + n..][..k - 2 - n];
      assert cut[2..2 + n] == s[2..2 + n];
    }
  }

  lemma {:induction false} CollectPrefix<X, Y>(f: X -> Option<Y>, a: seq<X>, b: seq<X>)
    requires a <= b
    ensures Collect(f, a) <= Collect(f, b)
  {
    if a != [] {
      CollectPrefix(f, a[1..], b[1..]);
    }
  }

  // ---- whole feeds ------------------------------------------------------------------

  ghost predicate AllWire(ms: seq<Message>) {
    forall i :: 0 <= i < |ms| ==> WireOk(ms[i])
  }

  ghost function EncodeAll(ms: seq<Message>): seq<Bytes>
    requires AllWire(ms)
  {
    if ms == [] then [] else [Encode(ms[0])] + EncodeAll(ms[1..])
  }

  lemma {:induction false} EncodeAllSnoc(ms: seq<Message>, m: Message)
    requires AllWire(ms) && WireOk(m)
    ensures AllWire(ms + [m]) && EncodeAll(ms + [m]) == EncodeAll(ms) + [Encode(m)]
  {
    if ms == [] {
      assert ms + [m] == [m];
    } else {
      EncodeAllSnoc(ms[1..], m);
      assert (ms + [m])[1..] == ms[1..] + [m];
    }
  }

  /** A left inverse collects back what it encoded. */
  lemma DecodedCons(m: Message, bs: seq<Bytes>)
    requires WireOk(m)
    ensures Decoded([Encode(m)] + bs) == [m] + Decoded(bs)
    ensures Framable(Encode(m))
  {
    DecodeEncode(m);
    assert ([Encode(m)] + bs)[1..] == bs;
  }

  lemma {:induction false} DecodedEncodeAll(ms: seq<Message>)
    requires AllWire(ms)
    ensures Decoded(EncodeAll(ms)) == ms
    ensures AllFramable(EncodeAll(ms))
  {
    if ms != [] {
      DecodedEncodeAll(ms[1..]);
      DecodedCons(ms[0], EncodeAll(ms[1..]));
      assert ms == [ms[0]] + ms[1..];
    }
  }

  /** Laying messages out, framing them and walking the stream gives back exactly the
      messages and consumes the whole buffer. */
  lemma FeedRoundTrip(ms: seq<Message>)
    requires AllWire(ms)
    ensures var s := FrameAll(EncodeAll(ms));
            Decoded(Bodies(s)) == ms && Consumed(s) == |s|
  {
    DecodedEncodeAll(ms);
    var s := FrameAll(EncodeAll(ms));
    BodiesOfFrames(EncodeAll(ms), []);
    assert s + [] == s;
    assert EncodeAll(ms) + Bodies([]) == EncodeAll(ms);
  }

  /** However the stream is cut, the messages read are a prefix of the feed. */
  lemma CutFeed(ms: seq<Message>, k: nat)
    requires AllWire(ms)
    requires k <= |FrameAll(EncodeAll(ms))|
    ensures Decoded(Bodies(FrameAll(EncodeAll(ms))[..k])) <= ms
  {
    var s := FrameAll(EncodeAll(ms));
    FeedRoundTrip(ms);
    CutBodies(s, k);
    CollectPrefix(Decode, Bodies(s[..k]), Bodies(s));
  }
}
