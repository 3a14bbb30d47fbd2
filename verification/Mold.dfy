/** MoldUDP64: datagrams of a 20-byte header (session, first sequence number,
    message count) and that many framed messages; packetising a framed stream, and
    the receiver's gap accounting. Sequence numbers and counters wrap at 2^64. */
module Mold {
  import opened Prelude
  import opened Messages
  import opened Itch
  import opened Framing
  import opened Seqs

  const END_OF_SESSION: U16 := 0xFFFF

  datatype Header = Header(session: Bytes, seq': U64, count: U16)

  function ParseHeader(buf: Bytes): Option<Header> {
    if |buf| < 20 then None else Some(Header(buf[..10], Rd64(buf, 10), Rd16(buf, 18)))
  }

  /** The session name cut or padded with spaces to 10 bytes. */
  function Pad10(session: Bytes): (s: Bytes)
    ensures |s| == 10 && forall i :: 0 <= i < 10 ==> s[i] == if i < |session| then session[i] else ' ' as int
  {
    seq(10, i requires 0 <= i < 10 => if i < |session| then session[i] else 32)
  }

  function Packet(session: Bytes, first: U64, count: U16, blocks: Bytes): Bytes {
    Pad10(session) + BE(first, 8) + BE(count, 2) + blocks
  }

  lemma HeaderRoundTrip(session: Bytes, first: U64, count: U16, blocks: Bytes)
    ensures var p := Packet(session, first, count, blocks);
            |p| == 20 + |blocks| && ParseHeader(p) == Some(Header(Pad10(session), first, count)) && p[20..] == blocks
  {
    var p := Packet(session, first, count, blocks);
    assert p[10..18] == BE(first, 8);
    ReadField(p, 10, first, 8);
    assert BE(count, 2) == [count / 256 % 256, count % 256];
    assert p[18] == BE(count, 2)[0] && p[19] == BE(count, 2)[1];
    assert p[..10] == Pad10(session);
  }

  // ---- the sender -----------------------------------------------------------------

  /** The datagrams of a list of bodies: k to a datagram, numbered from `first`. */
  function Packets(session: Bytes, bs: seq<Bytes>, k: U16, first: nat): seq<Bytes>
    requires first + |bs| < TWO64
  {
    if bs == [] || k == 0 then []
    else
      var c := Min(k, |bs|);
      [Packet(session, first, c, FrameAll(bs[..c]))] + Packets(session, bs[c..], k, first + c)
  }

  /** What has been output, followed by the datagrams of the bodies left, is `all`. */
  ghost predicate PacketsLeft(session: Bytes, bs: seq<Bytes>, k: U16, first: nat, out: seq<Bytes>, all: seq<Bytes>) {
    first + |bs| < TWO64 && out + Packets(session, bs, k, first) == all
  }

  lemma PacketsStep(session: Bytes, bs: seq<Bytes>, k: U16, first: nat, c: U16, blocks: Bytes, out: seq<Bytes>, all: seq<Bytes>,
                    bs': seq<Bytes>, first': nat)
    requires PacketsLeft(session, bs, k, first, out, all) && c == Min(k, |bs|) && blocks == FrameAll(bs[..c])
    requires bs' == bs[c..] && first' == first + c
    ensures c == 0 ==> out == all
    ensures c > 0 ==> PacketsLeft(session, bs', k, first', out + [Packet(session, first, c, blocks)], all)
  {
    if c > 0 {
      var p, t := [Packet(session, first, c, blocks)], Packets(session, bs', k, first');
      assert out + (p + t) == (out + p) + t;
    }
  }

  /** packetize_mold: cut a framed stream into datagrams of up to k messages. */
  method Packetize(session: Bytes, framed: Bytes, k: U16) returns (out: seq<Bytes>)
    requires |framed| < TWO64 - 1
    ensures |Bodies(framed)| <= |framed|
    ensures out == Packets(session, Bodies(framed), k, 1)
  {
    FewBodies(framed);
    out := [];
    var first: nat := 1;
    var off := 0;
    ghost var all := Packets(session, Bodies(framed), k, 1);
    assert framed[0..] == framed;
    while off < |framed|
      invariant off <= |framed| && first >= 1
      invariant PacketsLeft(session, Bodies(framed[off..]), k, first, out, all)
      decreases |framed| - off
    {
      var start := off;
      var cnt;
      off, cnt := TakeFrames(framed, off, k);
      var first' := first + cnt;
      PacketsStep(session, Bodies(framed[start..]), k, first, cnt, framed[start..off], out, all, Bodies(framed[off..]), first');
      if cnt == 0 { break; }
      out := out + [Packet(session, first, cnt, framed[start..off])];
      first := first';
    }
  }

  lemma {:induction false} FewBodies(s: Bytes)
    ensures |Bodies(s)| <= |s|
  {
    if HasFrame(s) { FewBodies(s[2 + Rd16(s, 0)..]); }
  }

  /** Step over up to k whole frames. */
  method TakeFrames(framed: Bytes, start: nat, k: U16) returns (off: nat, cnt: U16)
    requires start <= |framed|
    ensures start <= off <= |framed|
    ensures cnt == Min(k, |Bodies(framed[start..])|)
    ensures framed[start..off] == FrameAll(Bodies(framed[start..])[..cnt])
    ensures Bodies(framed[off..]) == Bodies(framed[start..])[cnt..]
    ensures cnt > 0 ==> off > start
  {
    off, cnt := start, 0;
    ghost var bs := Bodies(framed[start..]);
    while off + 2 <= |framed| && cnt < k
      invariant start <= off <= |framed| && cnt <= k && cnt <= |bs|
      invariant framed[start..off] == FrameAll(bs[..cnt])
      invariant Bodies(framed[off..]) == bs[cnt..]
      invariant cnt > 0 ==> off > start
      decreases |framed| - off
    {
      var mlen: int := Rd16(framed, off);
      assert Rd16(framed[off..], 0) == mlen;
      if mlen == 0 || off + 2 + mlen > |framed| { break; }
      var off' := off + 2 + mlen;
      OneMore(framed, start, off, mlen, bs, cnt, off');
      off := off';
      cnt := cnt + 1;
    }
  }

  lemma OneMore(framed: Bytes, start: nat, off: nat, mlen: nat, bs: seq<Bytes>, cnt: nat, off': nat)
    requires start <= off <= |framed| && cnt <= |bs| && off' == off + 2 + mlen
    requires framed[start..off] == FrameAll(bs[..cnt]) && Bodies(framed[off..]) == bs[cnt..]
    requires HasFrame(framed[off..]) && Rd16(framed[off..], 0) == mlen
    ensures off' <= |framed| && cnt < |bs|
    ensures framed[start..off'] == FrameAll(bs[..cnt + 1])
    ensures Bodies(framed[off'..]) == bs[cnt + 1..]
  {
    var rest := framed[off..];
    SplitFrame(rest);
    var b := rest[2..2 + mlen];
    assert rest[2 + mlen..] == framed[off + 2 + mlen..];
    assert bs[cnt..][0] == b && bs[cnt..][1..] == bs[cnt + 1..];
    assert framed[start..off + 2 + mlen] == framed[start..off] + framed[off..off + 2 + mlen];
    assert framed[off..off + 2 + mlen] == rest[..2 + mlen] == Frame(b);
    FrameAllSnoc(bs[..cnt], b);
    assert bs[..cnt + 1] == bs[..cnt] + [b];
  }

  // ---- the receiver -----------------------------------------------------------------

  /** Up to `count` framed blocks; unlike a file, an empty block does not end them. */
  function Blocks(s: Bytes, count: nat): seq<Bytes> {
    if count == 0 || |s| < 2 then []
    else
      var n: int := Rd16(s, 0);
      if 2 + n > |s| then [] else [s[2..2 + n]] + Blocks(s[2 + n..], count - 1)
  }

  /** Byte by byte: the count, fewer than two bytes left, or a length that runs past the end
      stop the walk; an empty block does not. */
  lemma BlocksByByte(s: Bytes, count: nat)
    ensures count == 0 || |s| < 2 ==> Blocks(s, count) == []
    ensures count > 0 && |s| >= 2 ==>
              var hi: int := s[0];
              var n := hi * 256 + s[1];
              if n > |s| - 2 then Blocks(s, count) == []
              else Blocks(s, count) == [s[2..2 + n]] + Blocks(s[2 + n..], count - 1)
  {
  }

  /** The decodable bodies, each with its sequence number. */
  function Numbered<Y>(decode: Bytes -> Option<Y>, first: nat, bs: seq<Bytes>): seq<(nat, Y)>
    decreases bs
  {
    if bs == [] then []
    else NumberedHead(decode, first, bs[0]) + Numbered(decode, Plus(first, 1), bs[1..])
  }

  function NumberedHead<Y>(decode: Bytes -> Option<Y>, seqno: nat, body: Bytes): seq<(nat, Y)> {
    if decode(body).Some? then [(seqno, decode(body).value)] else []
  }

  /** One body takes the next number whether or not it decodes. */
  lemma NumberedOne<Y>(decode: Bytes -> Option<Y>, first: nat, body: Bytes)
    ensures Numbered(decode, first, [body]) == if decode(body).Some? then [(first, decode(body).value)] else []
  {
    assert [body][1..] == [];
  }

  datatype Session = Session(expected: nat, gaps: nat, packets: nat, messages: nat, started: bool, ended: bool)

  const FRESH: Session := Session(0, 0, 0, 0, false, false)

  datatype Received<Y> = Received(st: Session, out: seq<(nat, Y)>)

  function GapsAfter(st: Session, first: nat): nat {
    if st.started && first > st.expected then (st.gaps + (first - st.expected)) % TWO64 else st.gaps
  }

  function Receive<Y>(decode: Bytes -> Option<Y>, st: Session, buf: Bytes): Received<Y> {
    var h := ParseHeader(buf);
    if h.None? then Received(st, [])
    else
      var st1 := st.(packets := (st.packets + 1) % TWO64);
      if h.value.count == END_OF_SESSION then Received(st1.(ended := true), [])
      else
        var first := h.value.seq';
        var bs := Blocks(buf[20..], h.value.count);
        var out := Numbered(decode, first, bs);
        Received(Session(Plus(first, |bs|), GapsAfter(st, first), st1.packets, (st.messages + |out|) % TWO64,
                         true, st.ended),
                 out)
  }

  function ReceiveAll<Y>(decode: Bytes -> Option<Y>, st: Session, ps: seq<Bytes>): Received<Y>
    decreases ps
  {
    if ps == [] then Received(st, [])
    else
      var r := Receive(decode, st, ps[0]);
      var rest := ReceiveAll(decode, r.st, ps[1..]);
      Received(rest.st, r.out + rest.out)
  }

  /** The datagrams with a whole header. */
  function Headed(ps: seq<Bytes>): nat {
    if ps == [] then 0 else (if |ps[0]| >= 20 then 1 else 0) + Headed(ps[1..])
  }

  /** Over every run of datagrams, messages() counts what was handed to the sink and
      packets() the datagrams of 20 bytes or more, end-of-session ones included. */
  lemma CountersCount<Y>(decode: Bytes -> Option<Y>, st: Session, ps: seq<Bytes>)
    requires st.messages < TWO64 && st.packets < TWO64
    ensures var r := ReceiveAll(decode, st, ps);
            && r.st.messages == (st.messages + |r.out|) % TWO64
            && r.st.packets == (st.packets + Headed(ps)) % TWO64
  {
    MessagesCount(decode, st, ps);
    PacketsCount(decode, st, ps);
  }

  lemma {:induction false} MessagesCount<Y>(decode: Bytes -> Option<Y>, st: Session, ps: seq<Bytes>)
    requires st.messages < TWO64
    ensures var r := ReceiveAll(decode, st, ps); r.st.messages == (st.messages + |r.out|) % TWO64
    decreases ps
  {
    if ps != [] {
      var mid, n := OneMessages(decode, st, ps[0]);
      var rest := ReceiveAll(decode, mid, ps[1..]);
      MessagesCount(decode, mid, ps[1..]);
      AddTwice(st.messages, n, |rest.out|);
    }
  }

  lemma {:induction false} PacketsCount<Y>(decode: Bytes -> Option<Y>, st: Session, ps: seq<Bytes>)
    requires st.packets < TWO64
    ensures ReceiveAll(decode, st, ps).st.packets == (st.packets + Headed(ps)) % TWO64
    decreases ps
  {
    if ps != [] {
      var mid, n := OnePackets(decode, st, ps[0]);
      PacketsCount(decode, mid, ps[1..]);
      AddTwice(st.packets, n, Headed(ps[1..]));
    }
  }

  lemma OneMessages<Y>(decode: Bytes -> Option<Y>, st: Session, p: Bytes) returns (mid: Session, n: nat)
    requires st.messages < TWO64
    ensures mid == Receive(decode, st, p).st && n == |Receive(decode, st, p).out| && mid.messages == (st.messages + n) % TWO64
  {
    mid, n := Receive(decode, st, p).st, |Receive(decode, st, p).out|;
  }

  lemma OnePackets<Y>(decode: Bytes -> Option<Y>, st: Session, p: Bytes) returns (mid: Session, n: nat)
    requires st.packets < TWO64
    ensures mid == Receive(decode, st, p).st && n == (if |p| >= 20 then 1 else 0) && mid.packets == (st.packets + n) % TWO64
  {
    mid, n := Receive(decode, st, p).st, if |p| >= 20 then 1 else 0;
  }

  lemma AddTwice(a: nat, b: nat, c: nat)
    ensures ((a + b) % TWO64 + c) % TWO64 == (a + (b + c)) % TWO64
  {
  }

  /** From a fresh session the counts are exact. */
  lemma FreshCounters<Y>(decode: Bytes -> Option<Y>, ps: seq<Bytes>)
    ensures var r := ReceiveAll(decode, FRESH, ps);
            r.st.messages == |r.out| % TWO64 && r.st.packets == Headed(ps) % TWO64
  {
    CountersCount(decode, FRESH, ps);
  }

  /** One datagram: a short one changes nothing; an end of session only ends the session; any
      other one starts it, moves the expected number past its blocks and delivers them. */
  lemma ReceiveCases<Y>(decode: Bytes -> Option<Y>, st: Session, buf: Bytes)
    ensures var r := Receive(decode, st, buf);
            && (|buf| < 20 ==> r == Received(st, []))
            && (|buf| >= 20 && Rd16(buf, 18) == 0xFFFF ==>
                  r.out == [] && r.st == st.(packets := (st.packets + 1) % TWO64, ended := true))
            && (|buf| >= 20 && Rd16(buf, 18) != 0xFFFF ==>
                  var bs := Blocks(buf[20..], Rd16(buf, 18));
                  && r.out == Numbered(decode, Rd64(buf, 10), bs) && r.st.started && r.st.ended == st.ended
                  && r.st.expected == (Rd64(buf, 10) + |bs|) % TWO64)
  {
  }

  class MoldSession<Y> {
    const decode: Bytes -> Option<Y>
    var expected: nat
    var gaps: nat
    var packets: nat
    var messages: nat
    var started: bool
    var ended: bool

    function View(): Session reads this {
      Session(expected, gaps, packets, messages, started, ended)
    }

    constructor (decode: Bytes -> Option<Y>)
      ensures this.decode == decode && View() == FRESH
    {
      this.decode := decode;
      expected, gaps, packets, messages, started, ended := 0, 0, 0, 0, false, false;
    }

    /** Process one datagram; the calls made to the sink are returned in order. */
    method OnPacket(buf: Bytes) returns (out: seq<(nat, Y)>)
      requires expected < TWO64 && messages < TWO64
      modifies this
      ensures Received(View(), out) == Receive(decode, old(View()), buf)
      ensures expected < TWO64 && messages < TWO64
    {
      out := [];
      var h := ParseHeader(buf);
      if h.None? { return; }
      packets := (packets + 1) % TWO64;
      if h.value.count == END_OF_SESSION { ended := true; return; }
      if started && h.value.seq' > expected { gaps := (gaps + (h.value.seq' - expected)) % TWO64; }
      started := true;
      var n;
      expected, out, n := WalkBlocks(decode, buf, h.value.seq', h.value.count);
      messages := (messages + n) % TWO64;
    }
  }

  /** The body loop of on_packet. */
  method WalkBlocks<Y>(decode: Bytes -> Option<Y>, buf: Bytes, first: nat, count: nat)
    returns (next: nat, out: seq<(nat, Y)>, n: nat)
    requires |buf| >= 20 && first < TWO64
    ensures var bs := Blocks(buf[20..], count);
            next == Plus(first, |bs|) && out == Numbered(decode, first, bs) && n == |out|
  {
    next, out, n := first, [], 0;
    var off := 20;
    ghost var bs := Blocks(buf[20..], count);
    var left := count;
    while left > 0
      invariant 0 <= left <= count && 20 <= off <= |buf| && n == |out|
      invariant WalkInv(decode, first, bs, Blocks(buf[off..], left), next, out)
      decreases left
    {
      if off + 2 > |buf| { break; }
      var mlen: int := Rd16(buf, off);
      assert Rd16(buf[off..], 0) == mlen;
      var off' := off + 2 + mlen;
      if off' > |buf| { break; }
      var body := buf[off + 2..off'];
      var left' := left - 1;
      BlocksStep(buf, off, off', left, left');
      WalkStep(decode, first, bs, body, Blocks(buf[off'..], left'), next, out);
      if decode(body).Some? {
        out := out + [(next, decode(body).value)];
        n := n + 1;
      }
      next, off, left := Plus(next, 1), off', left';
    }
  }

  /** What has been handed out, followed by what the remaining blocks give, is what
      all the blocks give. */
  ghost predicate WalkInv<Y>(decode: Bytes -> Option<Y>, first: nat, bs: seq<Bytes>, rest: seq<Bytes>,
                             next: nat, out: seq<(nat, Y)>) {
    && |rest| <= |bs| && next == Plus(first, |bs| - |rest|)
    && out + Numbered(decode, next, rest) == Numbered(decode, first, bs)
  }

  lemma WalkStep<Y>(decode: Bytes -> Option<Y>, first: nat, bs: seq<Bytes>, body: Bytes, later: seq<Bytes>,
                    next: nat, out: seq<(nat, Y)>)
    requires WalkInv(decode, first, bs, [body] + later, next, out)
    ensures decode(body).Some? ==>
              WalkInv(decode, first, bs, later, Plus(next, 1), out + [(next, decode(body).value)])
    ensures decode(body).None? ==> WalkInv(decode, first, bs, later, Plus(next, 1), out)
  {
    NumberedStep(decode, next, body, later);
    PlusOne(first, |bs| - |later| - 1);
    if decode(body).Some? {
      var x := [(next, decode(body).value)];
      var t := Numbered(decode, Plus(next, 1), later);
      assert out + (x + t) == (out + x) + t;
    }
  }

  /** Sequence number arithmetic in 64 bits. */
  function Plus(a: nat, b: nat): nat {
    (a + b) % TWO64
  }

  lemma PlusOne(a: nat, b: nat)
    ensures Plus(Plus(a, b), 1) == Plus(a, b + 1)
  {
  }

  lemma BlocksStep(buf: Bytes, off: nat, off': nat, count: nat, count': nat)
    requires off + 2 <= off' <= |buf| && Rd16(buf[off..], 0) == off' - off - 2 && count == count' + 1
    ensures Blocks(buf[off..], count) == [buf[off + 2..off']] + Blocks(buf[off'..], count')
  {
    var rest := buf[off..];
    assert rest[2..off' - off] == buf[off + 2..off'] && rest[off' - off..] == buf[off'..];
  }

  lemma NumberedStep<Y>(decode: Bytes -> Option<Y>, next: nat, body: Bytes, later: seq<Bytes>)
    ensures decode(body).Some? ==>
              Numbered(decode, next, [body] + later) == [(next, decode(body).value)] + Numbered(decode, Plus(next, 1), later)
    ensures decode(body).None? ==>
              Numbered(decode, next, [body] + later) == Numbered(decode, Plus(next, 1), later)
  {
    assert ([body] + later)[1..] == later;
  }

  // ---- sending and receiving ----------------------------------------------------------

  lemma {:induction false} BlocksOfFrames(bs: seq<Bytes>)
    requires AllFramable(bs)
    ensures Blocks(FrameAll(bs), |bs|) == bs
  {
    if bs != [] {
      var b, t := bs[0], bs[1..];
      BlocksOfFrames(t);
      FrameHead(b, FrameAll(t));
      HeadTail(bs);
    }
  }

  lemma {:induction false} NumberedConcat<Y>(decode: Bytes -> Option<Y>, first: nat, a: seq<Bytes>, b: seq<Bytes>, mid: nat)
    requires mid == first + |a| < TWO64
    ensures Numbered(decode, first, a + b) == Numbered(decode, first, a) + Numbered(decode, mid, b)
    decreases a
  {
    if a == [] {
      assert a + b == b;
    } else {
      var next, t := Plus(first, 1), a[1..];
      assert next == first + 1;
      NumberedConcat(decode, next, t, b, mid);
      TailOfConcat(a, b);
      Assoc(NumberedHead(decode, first, a[0]), Numbered(decode, next, t), Numbered(decode, mid, b));
    }
  }

  /** A datagram that carries exactly the bodies `bs`, numbered from `first`. */
  ghost predicate Carries(p: Bytes, first: nat, bs: seq<Bytes>) {
    var h := ParseHeader(p);
    h.Some? && h.value.seq' == first && h.value.count == |bs| && Blocks(p[20..], |bs|) == bs
  }

  lemma PacketCarries(session: Bytes, first: U64, bs: seq<Bytes>)
    requires AllFramable(bs) && |bs| < 0x1_0000
    ensures Carries(Packet(session, first, |bs|, FrameAll(bs)), first, bs)
  {
    HeaderRoundTrip(session, first, |bs|, FrameAll(bs));
    BlocksOfFrames(bs);
  }

  /** Receiving such a datagram. */
  lemma ReceiveCarried<Y>(decode: Bytes -> Option<Y>, st: Session, p: Bytes, first: nat, bs: seq<Bytes>)
    requires Carries(p, first, bs) && first + |bs| < TWO64
    ensures var r := Receive(decode, st, p);
            if |bs| == END_OF_SESSION then
              r.st.ended && r.st.started == st.started && r.st.expected == st.expected && r.st.gaps == st.gaps && r.out == []
            else && r.st.started && r.st.ended == st.ended && r.st.expected == first + |bs|
                 && r.st.gaps == GapsAfter(st, first) && r.out == Numbered(decode, first, bs)
  {
  }

  /** Datagrams that carry the bodies `bs`, k to a datagram, numbered from `first`. */
  ghost predicate Carrying(ps: seq<Bytes>, bs: seq<Bytes>, k: nat, first: nat) {
    if bs == [] || k == 0 then ps == []
    else
      var c := Min(k, |bs|);
      ps != [] && Carries(ps[0], first, bs[..c]) && Carrying(ps[1..], bs[c..], k, first + c)
  }

  lemma {:induction false} PacketsCarry(session: Bytes, bs: seq<Bytes>, k: U16, first: nat)
    requires AllFramable(bs) && first + |bs| < TWO64
    ensures Carrying(Packets(session, bs, k, first), bs, k, first)
    decreases |bs|
  {
    if bs != [] && k != 0 {
      var c := Min(k, |bs|);
      PacketCarries(session, first, bs[..c]);
      PacketsCarry(session, bs[c..], k, first + c);
      var p, t := Packet(session, first, c, FrameAll(bs[..c])), Packets(session, bs[c..], k, first + c);
      assert ([p] + t)[1..] == t;
    }
  }

  /** Without a full 65535-message datagram, which would read as end of session. */
  ghost predicate Sendable(n: nat, k: nat) {
    1 <= k <= 0xFFFF && (k < 0xFFFF || n < 0xFFFF)
  }

  lemma {:induction false} DeliverAll<Y>(decode: Bytes -> Option<Y>, st: Session, ps: seq<Bytes>, bs: seq<Bytes>, k: nat, first: nat)
    requires Carrying(ps, bs, k, first) && Sendable(|bs|, k) && first + |bs| < TWO64
    requires st.started ==> st.expected == first
    ensures var r := ReceiveAll(decode, st, ps);
            && r.out == Numbered(decode, first, bs) && r.st.gaps == st.gaps && r.st.ended == st.ended
            && (bs != [] ==> r.st.started && r.st.expected == first + |bs|)
            && (bs == [] ==> r.st == st)
    decreases |bs|
  {
    if bs != [] {
      var c := Min(k, |bs|);
      var chunk, rest, next := bs[..c], bs[c..], first + c;
      ReceiveCarried(decode, st, ps[0], first, chunk);
      DeliverAll(decode, Receive(decode, st, ps[0]).st, ps[1..], rest, k, next);
      NumberedConcat(decode, first, chunk, rest, next);
      assert bs == chunk + rest;
    }
  }

  function Seconds<Y>(s: seq<(nat, Y)>): seq<Y> {
    if s == [] then [] else [s[0].1] + Seconds(s[1..])
  }

  /** Without their numbers, the bodies delivered are the bodies decoded. */
  lemma {:induction false} NumberedMessages<Y>(decode: Bytes -> Option<Y>, first: nat, bs: seq<Bytes>)
    ensures Seconds(Numbered(decode, first, bs)) == Collect(decode, bs)
    decreases bs
  {
    if bs != [] {
      var next := Plus(first, 1);
      NumberedMessages(decode, next, bs[1..]);
      var t := Numbered(decode, next, bs[1..]);
      if decode(bs[0]).Some? {
        var x := (first, decode(bs[0]).value);
        assert ([x] + t)[1..] == t;
      } else {
        assert [] + t == t;
      }
    }
  }

  /** The whole path: packetise any framed stream with any message limit that does not
      collide with the end-of-session marker, feed every datagram to a fresh session,
      and exactly the messages of the stream come out, in order, each with its 1-based
      frame number, with no gap. */
  lemma PacketizedStreamIsDelivered(session: Bytes, framed: Bytes, k: U16)
    requires |framed| < TWO64 - 1 && Sendable(|Bodies(framed)|, k)
    ensures |Bodies(framed)| <= |framed|
    ensures var bs := Bodies(framed);
            var r := ReceiveAll(Decode, FRESH, Packets(session, bs, k, 1));
            && r.out == Numbered(Decode, 1, bs)
            && Seconds(r.out) == Decoded(bs)
            && r.st.gaps == 0 && !r.st.ended && (bs != [] ==> r.st.expected == |bs| + 1)
  {
    FewBodies(framed);
    BodiesFramable(framed);
    PacketsCarry(session, Bodies(framed), k, 1);
    DeliverAll(Decode, FRESH, Packets(session, Bodies(framed), k, 1), Bodies(framed), k, 1);
    NumberedMessages(Decode, 1, Bodies(framed));
  }

  /** Every body was delivered under its number, without gap or early end. */
  ghost predicate Delivered<Y>(decode: Bytes -> Option<Y>, bs: seq<Bytes>, r: Received<Y>) {
    && r.out == Numbered(decode, 1, bs) && r.st.gaps == 0 && !r.st.ended
    && (bs != [] ==> r.st.started && r.st.expected == |bs| + 1)
  }

  /** The bodies at the front of a stream that no limit-k session gets to see: all of
      them when the limit is 0, and those of the full datagrams when it is 65535, since
      their count reads as the end-of-session marker. */
  function Unseen(n: nat, k: nat): nat {
    if k == 0 then n else if k == 0xFFFF then n - n % 0xFFFF else 0
  }

  /** Everything after the first u bodies was delivered, numbered as sent. */
  ghost predicate RestDelivered<Y>(decode: Bytes -> Option<Y>, st: Session, bs: seq<Bytes>, first: nat, u: nat, r: Received<Y>) {
    && u <= |bs| && r.out == Numbered(decode, Plus(first, u), bs[u..]) && r.st.gaps == st.gaps
    && (r.st.started <==> u < |bs|) && (u < |bs| ==> r.st.expected == first + |bs|)
  }

  /** What comes out of a fresh session, for every limit: everything after the unseen
      bodies, numbered as sent; and the session is taken to have ended exactly when a
      datagram filled up to 65535. */
  lemma {:induction false} DeliversRest<Y>(decode: Bytes -> Option<Y>, st: Session, ps: seq<Bytes>, bs: seq<Bytes>, k: nat, first: nat)
    requires Carrying(ps, bs, k, first) && k <= 0xFFFF && first + |bs| < TWO64 && !st.started
    ensures var r := ReceiveAll(decode, st, ps);
            && RestDelivered(decode, st, bs, first, Unseen(|bs|, k), r)
            && (r.st.ended <==> st.ended || (k == 0xFFFF && Unseen(|bs|, k) > 0))
    decreases |bs|
  {
    if k == 0 || bs == [] {
      NoneDelivered(decode, st, bs, first);
    } else if k == 0xFFFF && |bs| >= 0xFFFF {
      var rest, next := bs[k..], first + k;
      var mid := FullFirst(decode, st, ps, bs, k, first);
      DeliversRest(decode, mid, ps[1..], rest, k, next);
      UnseenStep(|bs|, |rest|);
      var u, v, r := Unseen(|bs|, k), Unseen(|rest|, k), ReceiveAll(decode, mid, ps[1..]);
      SkipFull(decode, st, mid, bs, first, k, v, u, r);
    } else {
      DeliverAll(decode, st, ps, bs, k, first);
      UnseenNone(|bs|, k);
      AllDelivered(decode, st, bs, first, ReceiveAll(decode, st, ps));
    }
  }

  lemma NoneDelivered<Y>(decode: Bytes -> Option<Y>, st: Session, bs: seq<Bytes>, first: nat)
    requires !st.started
    ensures RestDelivered(decode, st, bs, first, |bs|, Received(st, []))
  {
    assert bs[|bs|..] == [];
  }

  lemma AllDelivered<Y>(decode: Bytes -> Option<Y>, st: Session, bs: seq<Bytes>, first: nat, r: Received<Y>)
    requires first < TWO64 && bs != [] && r.out == Numbered(decode, first, bs) && r.st.gaps == st.gaps
    requires r.st.started && r.st.expected == first + |bs|
    ensures RestDelivered(decode, st, bs, first, 0, r)
  {
    assert bs[0..] == bs && Plus(first, 0) == first;
  }

  /** A full first datagram only ends the session. */
  lemma FullFirst<Y>(decode: Bytes -> Option<Y>, st: Session, ps: seq<Bytes>, bs: seq<Bytes>, k: nat, first: nat) returns (mid: Session)
    requires Carrying(ps, bs, k, first) && k == 0xFFFF <= |bs| && first + |bs| < TWO64
    ensures ps != [] && Carrying(ps[1..], bs[k..], k, first + k)
    ensures mid.ended && mid.started == st.started && mid.gaps == st.gaps
    ensures ReceiveAll(decode, st, ps) == ReceiveAll(decode, mid, ps[1..])
  {
    mid := Receive(decode, st, ps[0]).st;
    ReceiveCarried(decode, st, ps[0], first, bs[..k]);
    var r := ReceiveAll(decode, mid, ps[1..]);
    assert [] + r.out == r.out;
  }

  lemma SkipFull<Y>(decode: Bytes -> Option<Y>, st: Session, mid: Session, bs: seq<Bytes>, first: nat, k: nat, v: nat, u: nat, r: Received<Y>)
    requires k <= |bs| && u == k + v && first + |bs| < TWO64 && mid.gaps == st.gaps
    requires RestDelivered(decode, mid, bs[k..], first + k, v, r)
    ensures RestDelivered(decode, st, bs, first, u, r)
  {
    DropBoth(bs, k, v, u);
  }

  lemma UnseenNone(n: nat, k: nat)
    requires 0 < k <= 0xFFFF && (k < 0xFFFF || n < 0xFFFF)
    ensures Unseen(n, k) == 0
  {
  }

  lemma UnseenStep(n: nat, m: nat)
    requires n == m + 0xFFFF
    ensures Unseen(n, 0xFFFF) == Unseen(m, 0xFFFF) + 0xFFFF
  {
  }

  lemma DropBoth(bs: seq<Bytes>, k: nat, v: nat, u: nat)
    requires u == k + v <= |bs|
    ensures bs[k..][v..] == bs[u..]
  {
  }

  /** The exact condition for a stream to arrive whole, over every limit a caller may
      pass: the limit is not 0, and no datagram fills up to 65535 messages. */
  lemma DeliveredIff<Y>(decode: Bytes -> Option<Y>, ps: seq<Bytes>, bs: seq<Bytes>, k: nat)
    requires Carrying(ps, bs, k, 1) && k <= 0xFFFF && 1 + |bs| < TWO64
    ensures Delivered(decode, bs, ReceiveAll(decode, FRESH, ps)) <==> bs == [] || Sendable(|bs|, k)
  {
    if Sendable(|bs|, k) {
      DeliverAll(decode, FRESH, ps, bs, k, 1);
    } else {
      DeliversRest(decode, FRESH, ps, bs, k, 1);
      if k == 0xFFFF { UnseenStep(|bs|, |bs| - 0xFFFF); }
    }
  }

  /** The same of packetize_mold itself. */
  lemma PacketizedDeliveredIff(session: Bytes, framed: Bytes, k: U16)
    requires |framed| < TWO64 - 1
    ensures |Bodies(framed)| <= |framed|
    ensures var bs := Bodies(framed);
            Delivered(Decode, bs, ReceiveAll(Decode, FRESH, Packets(session, bs, k, 1))) <==> bs == [] || Sendable(|bs|, k)
  {
    FewBodies(framed);
    BodiesFramable(framed);
    PacketsCarry(session, Bodies(framed), k, 1);
    DeliveredIff(Decode, Packets(session, Bodies(framed), k, 1), Bodies(framed), k);
  }

  // ---- gap accounting -------------------------------------------------------------------

  /** A datagram that takes part in the numbering. */
  predicate Counted(p: Bytes) {
    ParseHeader(p).Some? && ParseHeader(p).value.count != END_OF_SESSION
  }

  function FirstOf(p: Bytes): nat
    requires Counted(p)
  {
    ParseHeader(p).value.seq'
  }

  function WalkedIn(p: Bytes): nat {
    if Counted(p) then |Blocks(p[20..], ParseHeader(p).value.count)| else 0
  }

  /** Messages walked over a run of datagrams. */
  function Walked(ps: seq<Bytes>): nat {
    if ps == [] then 0 else WalkedIn(ps[0]) + Walked(ps[1..])
  }

  /** How far below the expected number a datagram starts. */
  function BackJump(st: Session, p: Bytes): nat {
    if Counted(p) && st.started && FirstOf(p) < st.expected then st.expected - FirstOf(p) else 0
  }

  function Back<Y>(decode: Bytes -> Option<Y>, st: Session, ps: seq<Bytes>): nat
    decreases ps
  {
    if ps == [] then 0 else BackJump(st, ps[0]) + Back(decode, Receive(decode, st, ps[0]).st, ps[1..])
  }

  predicate AnyCounted(ps: seq<Bytes>) {
    ps != [] && (Counted(ps[0]) || AnyCounted(ps[1..]))
  }

  function FirstSeq(ps: seq<Bytes>): nat
    requires AnyCounted(ps)
  {
    if Counted(ps[0]) then FirstOf(ps[0]) else FirstSeq(ps[1..])
  }

  predicate Same64(a: int, b: int) {
    (a - b) % TWO64 == 0
  }

  lemma ReceiveOne<Y>(decode: Bytes -> Option<Y>, st: Session, p: Bytes)
    ensures var st' := Receive(decode, st, p).st;
            && (!Counted(p) ==> st'.expected == st.expected && st'.gaps == st.gaps && st'.started == st.started)
            && (Counted(p) ==> st'.started && st'.expected == Plus(FirstOf(p), WalkedIn(p)))
            && (Counted(p) ==> st'.gaps == GapsAfter(st, FirstOf(p)))
  {
  }

  /** One datagram's share of the ledger. */
  lemma LedgerStep<Y>(decode: Bytes -> Option<Y>, st: Session, p: Bytes)
    requires Counted(p)
    ensures var st' := Receive(decode, st, p).st;
            && (st.started ==> Same64(st'.expected, st.expected + WalkedIn(p) + (st'.gaps - st.gaps) - BackJump(st, p)))
            && (!st.started ==> Same64(st'.expected, FirstOf(p) + WalkedIn(p)) && st'.gaps == st.gaps && BackJump(st, p) == 0)
  {
    ReceiveOne(decode, st, p);
  }

  lemma Chain64(a: int, b: int, c: int, x: int)
    requires Same64(a, b + x) && Same64(b, c)
    ensures Same64(a, c + x)
  {
  }

  /** The ledger of any run of datagrams, duplicates, reorderings and malformed ones
      included: modulo 2^64, the expected number is the first number seen, plus the
      messages walked, plus the gaps, minus the backward jumps. */
  lemma {:induction false} Ledger<Y>(decode: Bytes -> Option<Y>, st: Session, ps: seq<Bytes>)
    requires st.started || AnyCounted(ps)
    ensures var st' := ReceiveAll(decode, st, ps).st;
            && st'.started
            && Same64(st'.expected, (if st.started then st.expected else FirstSeq(ps)) + Walked(ps)
                                    + (st'.gaps - st.gaps) - Back(decode, st, ps))
    decreases ps
  {
    if ps != [] {
      var p := ps[0];
      var mid := Receive(decode, st, p).st;
      ReceiveOne(decode, st, p);
      Ledger(decode, mid, ps[1..]);
      if Counted(p) {
        LedgerStep(decode, st, p);
        var end := ReceiveAll(decode, mid, ps[1..]).st;
        var later := Walked(ps[1..]) + (end.gaps - mid.gaps) - Back(decode, mid, ps[1..]);
        var start := if st.started then st.expected else FirstOf(p);
        Chain64(end.expected, mid.expected, start + WalkedIn(p) + (mid.gaps - st.gaps) - BackJump(st, p), later);
      }
    }
  }

  /** Keep only the datagrams the mask lets through. */
  function Select<X>(ps: seq<X>, keep: seq<bool>): seq<X>
    requires |ps| == |keep|
  {
    if ps == [] then [] else (if keep[0] then [ps[0]] else []) + Select(ps[1..], keep[1..])
  }

  lemma ReceiveSelect<Y>(decode: Bytes -> Option<Y>, st: Session, ps: seq<Bytes>, keep: seq<bool>)
    requires |ps| == |keep| > 0
    ensures keep[0] ==> ReceiveAll(decode, st, Select(ps, keep)).st
                        == ReceiveAll(decode, Receive(decode, st, ps[0]).st, Select(ps[1..], keep[1..])).st
    ensures !keep[0] ==> Select(ps, keep) == Select(ps[1..], keep[1..])
  {
    var t := Select(ps[1..], keep[1..]);
    assert ([ps[0]] + t)[1..] == t;
  }

  /** The number of bodies in each datagram. */
  function Counts(n: nat, k: nat): seq<nat>
    decreases n
  {
    if n == 0 || k == 0 then [] else [Min(k, n)] + Counts(n - Min(k, n), k)
  }

  /** The messages in dropped datagrams that come before some later kept one. */
  function LostBefore(cs: seq<nat>, keep: seq<bool>): nat
    requires |cs| == |keep|
  {
    if true !in keep then 0
    else (if keep[0] then 0 else cs[0]) + LostBefore(cs[1..], keep[1..])
  }

  /** The messages in dropped datagrams between the first and the last kept one. */
  function Lost(cs: seq<nat>, keep: seq<bool>): nat
    requires |cs| == |keep|
  {
    if cs == [] then 0
    else if keep[0] then LostBefore(cs[1..], keep[1..])
    else Lost(cs[1..], keep[1..])
  }

  lemma {:induction false} CarryingCounts(ps: seq<Bytes>, bs: seq<Bytes>, k: nat, first: nat)
    requires Carrying(ps, bs, k, first)
    ensures |ps| == |Counts(|bs|, k)|
    decreases |bs|
  {
    if bs != [] && k != 0 {
      var c := Min(k, |bs|);
      CarryingCounts(ps[1..], bs[c..], k, first + c);
    }
  }

  /** Which datagrams the receiver counts: those kept whose count is not the
      end-of-session marker. */
  function Counting(cs: seq<nat>, keep: seq<bool>): (r: seq<bool>)
    requires |cs| == |keep|
    ensures |r| == |keep|
  {
    if cs == [] then [] else [keep[0] && cs[0] != 0xFFFF] + Counting(cs[1..], keep[1..])
  }

  /** After the first delivery, with `pending` messages missed since the last one. */
  lemma {:induction false} GapsFrom<Y>(decode: Bytes -> Option<Y>, st: Session, ps: seq<Bytes>, keep: seq<bool>,
                                       bs: seq<Bytes>, k: nat, first: nat, pending: nat)
    requires Carrying(ps, bs, k, first) && |keep| == |ps| && first + |bs| < TWO64
    requires st.started && st.expected + pending == first && st.gaps + pending + |bs| < TWO64
    ensures |ps| == |Counts(|bs|, k)|
    ensures var cs := Counts(|bs|, k);
            var got := Counting(cs, keep);
            ReceiveAll(decode, st, Select(ps, keep)).st.gaps
            == st.gaps + if true in got then pending + LostBefore(cs, got) else 0
    decreases |bs|
  {
    CarryingCounts(ps, bs, k, first);
    if bs != [] && k != 0 {
      ReceiveSelect(decode, st, ps, keep);
      var c := Min(k, |bs|);
      var rest, next, cs := bs[c..], first + c, Counts(|bs|, k);
      var got := Counting(cs, keep);
      LostStep(cs, got);
      assert cs[0] == c && cs[1..] == Counts(|rest|, k);
      assert got[0] == (keep[0] && c != 0xFFFF) && got[1..] == Counting(cs[1..], keep[1..]);
      ReceiveCarried(decode, st, ps[0], first, bs[..c]);
      var st' := if keep[0] then Receive(decode, st, ps[0]).st else st;
      if got[0] {
        GapsAfterIs(st, first, pending);
        GapsFrom(decode, st', ps[1..], keep[1..], rest, k, next, 0);
        NoneLost(cs[1..], got[1..]);
      } else {
        GapsFrom(decode, st', ps[1..], keep[1..], rest, k, next, pending + c);
      }
    }
  }

  lemma GapsAfterIs(st: Session, first: nat, pending: nat)
    requires st.started && st.expected + pending == first && st.gaps + pending < TWO64
    ensures GapsAfter(st, first) == st.gaps + pending
  {
  }

  lemma LostStep(cs: seq<nat>, keep: seq<bool>)
    requires |cs| == |keep| > 0
    ensures keep[0] ==> true in keep && LostBefore(cs, keep) == LostBefore(cs[1..], keep[1..])
    ensures !keep[0] ==> (true in keep <==> true in keep[1..])
    ensures !keep[0] && true in keep ==> LostBefore(cs, keep) == cs[0] + LostBefore(cs[1..], keep[1..])
  {
    assert keep == [keep[0]] + keep[1..];
  }

  lemma NoneLost(cs: seq<nat>, keep: seq<bool>)
    requires |cs| == |keep|
    ensures true !in keep ==> LostBefore(cs, keep) == 0
  {
  }

  /** Drop any datagrams of a packetised stream, with any limit: gaps() is exactly the
      number of messages in the missed datagrams between the first and the last counted,
      where a full 65535-message datagram is as good as missed. */
  lemma {:induction false} GapsAreMisses<Y>(decode: Bytes -> Option<Y>, st: Session, ps: seq<Bytes>, keep: seq<bool>,
                                            bs: seq<Bytes>, k: nat, first: nat)
    requires Carrying(ps, bs, k, first) && |keep| == |ps| && first + |bs| < TWO64
    requires !st.started && st.gaps == 0
    ensures |ps| == |Counts(|bs|, k)|
    ensures var cs := Counts(|bs|, k);
            ReceiveAll(decode, st, Select(ps, keep)).st.gaps == Lost(cs, Counting(cs, keep))
    decreases |bs|
  {
    CarryingCounts(ps, bs, k, first);
    if bs != [] && k != 0 {
      ReceiveSelect(decode, st, ps, keep);
      var c := Min(k, |bs|);
      var rest, next, cs := bs[c..], first + c, Counts(|bs|, k);
      var got := Counting(cs, keep);
      assert cs[0] == c && cs[1..] == Counts(|rest|, k);
      assert got[0] == (keep[0] && c != 0xFFFF) && got[1..] == Counting(cs[1..], keep[1..]);
      ReceiveCarried(decode, st, ps[0], first, bs[..c]);
      var st' := if keep[0] then Receive(decode, st, ps[0]).st else st;
      if got[0] {
        GapsFrom(decode, st', ps[1..], keep[1..], rest, k, next, 0);
        NoneLost(cs[1..], got[1..]);
      } else {
        GapsAreMisses(decode, st', ps[1..], keep[1..], rest, k, next);
      }
    }
  }

  /** Without a full datagram, then, gaps() is exactly the messages in the dropped
      datagrams between the first and the last delivered. */
  lemma GapsAreLosses<Y>(decode: Bytes -> Option<Y>, st: Session, ps: seq<Bytes>, keep: seq<bool>,
                         bs: seq<Bytes>, k: nat, first: nat)
    requires Carrying(ps, bs, k, first) && |keep| == |ps| && Sendable(|bs|, k) && first + |bs| < TWO64
    requires !st.started && st.gaps == 0
    ensures |ps| == |Counts(|bs|, k)|
    ensures ReceiveAll(decode, st, Select(ps, keep)).st.gaps == Lost(Counts(|bs|, k), keep)
  {
    GapsAreMisses(decode, st, ps, keep, bs, k, first);
    AllCount(|bs|, k, keep);
  }

  lemma {:induction false} AllCount(n: nat, k: nat, keep: seq<bool>)
    requires Sendable(n, k) && |keep| == |Counts(n, k)|
    ensures Counting(Counts(n, k), keep) == keep
    decreases n
  {
    if n != 0 {
      var c, cs := Min(k, n), Counts(n, k);
      assert cs[0] == c && cs[1..] == Counts(n - c, k);
      AllCount(n - c, k, keep[1..]);
      HeadTail(keep);
    }
  }
}
