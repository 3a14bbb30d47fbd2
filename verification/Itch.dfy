/** ITCH 5.0 on the wire: big-endian fields, the decoder, and the message layouts
    the generators write. */
module Itch {
  import opened Prelude
  import opened Levels
  import opened Messages

  // ---- big-endian fields --------------------------------------------------------

  /** The low n bytes of v, most significant first. */
  function BE(v: nat, n: nat): (s: seq<byte>)
    ensures |s| == n
  {
    if n == 0 then [] else BE(v / 256, n - 1) + [v % 256]
  }

  /** The number a byte string spells, most significant byte first. */
  function RdBE(s: seq<byte>): nat {
    if s == [] then 0 else RdBE(s[..|s| - 1]) * 256 + s[|s| - 1]
  }

  function Pow256(n: nat): nat {
    if n == 0 then 1 else 256 * Pow256(n - 1)
  }

  /** Reading back what was written, for a value that fits. */
  lemma {:induction false} ReadWritten(v: nat, n: nat)
    requires v < Pow256(n)
    ensures RdBE(BE(v, n)) == v
  {
    if n > 0 {
      ReadWritten(v / 256, n - 1);
      assert BE(v, n)[..n - 1] == BE(v / 256, n - 1);
    }
  }

  /** Writing back what was read. */
  lemma {:induction false} WriteRead(s: seq<byte>)
    ensures BE(RdBE(s), |s|) == s
    ensures RdBE(s) < Pow256(|s|)
  {
    if s != [] {
      var n := |s| - 1;
      WriteRead(s[..n]);
      assert RdBE(s) / 256 == RdBE(s[..n]);
      assert s == s[..n] + [s[n]];
    }
  }

  lemma {:induction false} DivPow(v: nat, k: nat)
    ensures Pow256(k) > 0 && (v / Pow256(k)) / 256 == v / Pow256(k + 1)
  {
    if k > 0 {
      DivPow(v, k - 1);
      DivPow(v / 256, k - 1);
      DivSwap(v, k);
      DivSwap(v, k + 1);
    }
  }

  lemma {:induction false} DivSwap(v: nat, k: nat)
    requires k > 0
    ensures Pow256(k) > 0 && Pow256(k - 1) > 0 && v / Pow256(k) == (v / 256) / Pow256(k - 1)
  {
    if k > 1 { DivSwap(v, k - 1); }
    DivTwice(v, v / 256, v % 256, Pow256(k - 1));
  }

  lemma DivTwice(v: nat, w: nat, x: nat, d: nat)
    requires d > 0 && v == 256 * w + x && x < 256
    ensures v / (256 * d) == w / d
  {
    var q, r := w / d, w % d;
    assert w == q * d + r;
    Spread(q, d, r, x);
    QuotientIs(v, 256 * d, q, 256 * r + x);
  }

  lemma Spread(q: nat, d: nat, r: nat, x: nat)
    ensures 256 * (q * d + r) + x == q * (256 * d) + (256 * r + x)
  {
    var p := q * d;
    assert q * (256 * d) == 256 * p;
  }

  lemma QuotientIs(v: nat, d: nat, q: nat, r: nat)
    requires d > 0 && r < d && v == q * d + r
    ensures v / d == q
  {
    var q', r' := v / d, v % d;
    assert v == q' * d + r';
    if q < q' { MulGap(q, q', d); }
    if q' < q { MulGap(q', q, d); }
  }

  lemma MulGap(a: nat, b: nat, d: nat)
    requires a < b
    ensures b * d >= a * d + d
  {
    assert b * d == a * d + (b - a) * d;
    assert (b - a) * d == d + (b - a - 1) * d;
  }

  /** be_n: append v most significant byte first. */
  method AppendBE(b: seq<byte>, v: nat, n: nat) returns (out: seq<byte>)
    ensures out == b + BE(v, n)
  {
    out := b;
    var k := n;
    while k > 0
      invariant 0 <= k <= n
      invariant out == b + BE(Shr(v, k), n - k)
    {
      k := k - 1;
      DivPow(v, k);
      out := out + [Shr(v, k) % 256];
    }
    assert Shr(v, 0) == v;
  }

  /** v >> 8k */
  function Shr(v: nat, k: nat): nat {
    DivPow(v, k);
    v / Pow256(k)
  }

  /** rd_be: assemble n bytes, most significant first. */
  method ReadBE(s: seq<byte>) returns (v: nat)
    requires |s| <= 8
    ensures v == RdBE(s)
  {
    v := 0;
    var i := 0;
    while i < |s|
      invariant 0 <= i <= |s| && v == RdBE(s[..i])
    {
      assert s[..i + 1][..i] == s[..i];
      v := v * 256 + s[i];
      i := i + 1;
    }
    assert s[..i] == s;
  }

  // ---- the decoder ----------------------------------------------------------------

  function Rd(buf: seq<byte>, at: nat, n: nat): nat
    requires at + n <= |buf|
  {
    RdBE(buf[at..at + n])
  }

  function Rd16(buf: seq<byte>, at: nat): U16
    requires at + 2 <= |buf|
  {
    var hi: int := buf[at];
    hi * 256 + buf[at + 1]
  }

  lemma RdRange(buf: seq<byte>, at: nat, n: nat)
    requires at + n <= |buf|
    ensures Rd(buf, at, n) < Pow256(n)
  {
    WriteRead(buf[at..at + n]);
  }

  function Rd32(buf: seq<byte>, at: nat): Qty
    requires at + 4 <= |buf|
  {
    RdRange(buf, at, 4);
    Rd(buf, at, 4)
  }

  function Rd48(buf: seq<byte>, at: nat): U64
    requires at + 6 <= |buf|
  {
    RdRange(buf, at, 6);
    Rd(buf, at, 6)
  }

  function Rd64(buf: seq<byte>, at: nat): U64
    requires at + 8 <= |buf|
  {
    RdRange(buf, at, 8);
    Rd(buf, at, 8)
  }

  /** On-the-wire length by type byte; 0 for an unknown type. */
  function MessageLength(t: byte): nat {
    match t as int
    case 83 => 12  // S
    case 82 => 39  // R
    case 72 => 25  // H
    case 89 => 20  // Y
    case 76 => 26  // L
    case 86 => 35  // V
    case 87 => 12  // W
    case 75 => 28  // K
    case 74 => 35  // J
    case 104 => 21 // h
    case 65 => 36  // A
    case 70 => 40  // F
    case 69 => 31  // E
    case 67 => 36  // C
    case 88 => 23  // X
    case 68 => 19  // D
    case 85 => 35  // U
    case 80 => 44  // P
    case 81 => 40  // Q
    case 66 => 19  // B
    case 73 => 50  // I
    case 78 => 20  // N
    case 79 => 48  // O
    case _ => 0
  }

  function Decode(buf: seq<byte>): Option<Message> {
    if |buf| < 11 then None
    else
      var m := BLANK.(locate := Rd16(buf, 1), timestamp := Rd48(buf, 5));
      match buf[0] as int
      case 83 =>
        if |buf| < 12 then None else Some(m.(typ := SystemEvent, eventCode := buf[11]))
      case 82 =>
        if |buf| < 39 then None else Some(m.(typ := StockDirectory, stock := buf[11..19]))
      case 65 =>
        if |buf| < 36 then None else
        Some(m.(typ := AddOrder, ref := Rd64(buf, 11), side := buf[19], shares := Rd32(buf, 20),
                stock := buf[24..32], price := Rd32(buf, 32)))
      case 70 =>
        if |buf| < 40 then None else
        Some(m.(typ := AddOrderMpid, ref := Rd64(buf, 11), side := buf[19], shares := Rd32(buf, 20),
                stock := buf[24..32], price := Rd32(buf, 32)))
      case 69 =>
        if |buf| < 31 then None else
        Some(m.(typ := OrderExecuted, ref := Rd64(buf, 11), shares := Rd32(buf, 19), matchNumber := Rd64(buf, 23)))
      case 67 =>
        if |buf| < 36 then None else
        Some(m.(typ := OrderExecutedWithPrice, ref := Rd64(buf, 11), shares := Rd32(buf, 19),
                matchNumber := Rd64(buf, 23), price := Rd32(buf, 32)))
      case 88 =>
        if |buf| < 23 then None else
        Some(m.(typ := OrderCancel, ref := Rd64(buf, 11), shares := Rd32(buf, 19)))
      case 68 =>
        if |buf| < 19 then None else Some(m.(typ := OrderDelete, ref := Rd64(buf, 11)))
      case 85 =>
        if |buf| < 35 then None else
        Some(m.(typ := OrderReplace, ref := Rd64(buf, 11), newRef := Rd64(buf, 19), shares := Rd32(buf, 27),
                price := Rd32(buf, 31)))
      case 80 =>
        if |buf| < 44 then None else
        Some(m.(typ := Trade, ref := Rd64(buf, 11), side := buf[19], shares := Rd32(buf, 20),
                stock := buf[24..32], price := Rd32(buf, 32), matchNumber := Rd64(buf, 36)))
      case 81 =>
        if |buf| < 40 then None else
        Some(m.(typ := CrossTrade, stock := buf[19..27], price := Rd32(buf, 27), matchNumber := Rd64(buf, 31)))
      case _ => None
  }

  /** The types the decoder handles, by their byte. */
  predicate Handled(t: byte) {
    t in {83, 82, 65, 70, 69, 67, 88, 68, 85, 80, 81}
  }

  /** decode() accepts exactly the handled types given at least their wire length,
      and every field it yields is in range. */
  lemma DecodeAccepts(buf: seq<byte>)
    ensures Decode(buf).Some? <==> buf != [] && Handled(buf[0]) && |buf| >= MessageLength(buf[0])
    ensures Decode(buf).Some? ==>
              var m := Decode(buf).value;
              m.typ != Unknown && 0 <= m.price < TWO32 && |m.stock| == 8 && m.timestamp < Pow256(6)
  {
    if |buf| >= 11 { RdRange(buf, 5, 6); }
  }

  /** A field of n bytes sits at `at`. */
  predicate FieldAt(buf: seq<byte>, at: nat, f: seq<byte>) {
    at + |f| <= |buf| && buf[at..at + |f|] == f
  }

  /** What is read big-endian from a place is what stands there. */
  lemma FieldRead(buf: seq<byte>, at: nat, n: nat)
    requires at + n <= |buf|
    ensures FieldAt(buf, at, BE(Rd(buf, at, n), n))
  {
    WriteRead(buf[at..at + n]);
  }

  /** Every decoded message has its locate at byte 1 and its timestamp at byte 5. */
  lemma DecodedHeader(buf: seq<byte>)
    requires Decode(buf).Some?
    ensures var m := Decode(buf).value; FieldAt(buf, 1, BE(m.locate, 2)) && FieldAt(buf, 5, BE(m.timestamp, 6))
  {
    FieldRead(buf, 5, 6);
    var n: int := Rd16(buf, 1);
    assert BE(n, 2) == [n / 256 % 256, n % 256];
  }

  /** The fields every message has. */
  function Common(m: Message, t: MsgType): Message {
    BLANK.(typ := t, locate := m.locate, timestamp := m.timestamp)
  }

  lemma DecodedEvent(buf: seq<byte>)
    requires Decode(buf).Some? && buf[0] == 'S' as int
    ensures var m := Decode(buf).value;
            m == Common(m, SystemEvent).(eventCode := m.eventCode) && buf[11] == m.eventCode
  {
  }

  lemma DecodedDirectory(buf: seq<byte>)
    requires Decode(buf).Some? && buf[0] == 'R' as int
    ensures var m := Decode(buf).value;
            m == Common(m, StockDirectory).(stock := m.stock) && FieldAt(buf, 11, m.stock) && |m.stock| == 8
  {
  }

  /** Adds with and without attribution share their layout. */
  lemma DecodedAdd(buf: seq<byte>)
    requires Decode(buf).Some? && buf[0] in {'A' as int, 'F' as int}
    ensures var m := Decode(buf).value;
            && m == Common(m, if buf[0] == 'A' as int then AddOrder else AddOrderMpid).(ref := m.ref, side := m.side, shares := m.shares,
                                                                                     stock := m.stock, price := m.price)
            && FieldAt(buf, 11, BE(m.ref, 8)) && buf[19] == m.side && (m.side == BUY <==> buf[19] == 'B' as int)
            && FieldAt(buf, 20, BE(m.shares, 4)) && FieldAt(buf, 24, m.stock) && |m.stock| == 8 && FieldAt(buf, 32, BE(m.price, 4))
  {
    FieldRead(buf, 11, 8);
    FieldRead(buf, 20, 4);
    FieldRead(buf, 32, 4);
  }

  lemma DecodedExecution(buf: seq<byte>)
    requires Decode(buf).Some? && buf[0] in {'E' as int, 'C' as int}
    ensures var m := Decode(buf).value;
            && FieldAt(buf, 11, BE(m.ref, 8)) && FieldAt(buf, 19, BE(m.shares, 4)) && FieldAt(buf, 23, BE(m.matchNumber, 8))
            && (buf[0] == 'E' as int ==> m == Common(m, OrderExecuted).(ref := m.ref, shares := m.shares, matchNumber := m.matchNumber))
            && (buf[0] == 'C' as int ==> FieldAt(buf, 32, BE(m.price, 4)))
            && (buf[0] == 'C' as int ==> m == Common(m, OrderExecutedWithPrice).(ref := m.ref, shares := m.shares, matchNumber := m.matchNumber, price := m.price))
  {
    FieldRead(buf, 11, 8);
    FieldRead(buf, 19, 4);
    FieldRead(buf, 23, 8);
    if buf[0] == 'C' as int { FieldRead(buf, 32, 4); }
  }

  lemma DecodedCancel(buf: seq<byte>)
    requires Decode(buf).Some? && buf[0] in {'X' as int, 'D' as int}
    ensures var m := Decode(buf).value;
            && FieldAt(buf, 11, BE(m.ref, 8))
            && (buf[0] == 'X' as int ==> FieldAt(buf, 19, BE(m.shares, 4)) && m == Common(m, OrderCancel).(ref := m.ref, shares := m.shares))
            && (buf[0] == 'D' as int ==> m == Common(m, OrderDelete).(ref := m.ref))
  {
    FieldRead(buf, 11, 8);
    if buf[0] == 'X' as int { FieldRead(buf, 19, 4); }
  }

  lemma DecodedReplace(buf: seq<byte>)
    requires Decode(buf).Some? && buf[0] == 'U' as int
    ensures var m := Decode(buf).value;
            && m == Common(m, OrderReplace).(ref := m.ref, newRef := m.newRef, shares := m.shares, price := m.price)
            && FieldAt(buf, 11, BE(m.ref, 8)) && FieldAt(buf, 19, BE(m.newRef, 8))
            && FieldAt(buf, 27, BE(m.shares, 4)) && FieldAt(buf, 31, BE(m.price, 4))
  {
    FieldRead(buf, 11, 8);
    FieldRead(buf, 19, 8);
    FieldRead(buf, 27, 4);
    FieldRead(buf, 31, 4);
  }

  lemma DecodedTrade(buf: seq<byte>)
    requires Decode(buf).Some? && buf[0] == 'P' as int
    ensures var m := Decode(buf).value;
            && m == Common(m, Trade).(ref := m.ref, side := m.side, shares := m.shares, stock := m.stock, price := m.price,
                                      matchNumber := m.matchNumber)
            && FieldAt(buf, 11, BE(m.ref, 8)) && buf[19] == m.side && FieldAt(buf, 20, BE(m.shares, 4)) && FieldAt(buf, 24, m.stock)
            && |m.stock| == 8 && FieldAt(buf, 32, BE(m.price, 4)) && FieldAt(buf, 36, BE(m.matchNumber, 8))
  {
    FieldRead(buf, 11, 8);
    FieldRead(buf, 20, 4);
    FieldRead(buf, 32, 4);
    FieldRead(buf, 36, 8);
  }

  lemma DecodedCross(buf: seq<byte>)
    requires Decode(buf).Some? && buf[0] == 'Q' as int
    ensures var m := Decode(buf).value;
            && m == Common(m, CrossTrade).(stock := m.stock, price := m.price, matchNumber := m.matchNumber)
            && FieldAt(buf, 19, m.stock) && |m.stock| == 8 && FieldAt(buf, 27, BE(m.price, 4)) && FieldAt(buf, 31, BE(m.matchNumber, 8))
  {
    FieldRead(buf, 27, 4);
    FieldRead(buf, 31, 8);
  }

  /** The length table by letter; every other type is unknown. */
  lemma WireLengths(t: byte)
    ensures var c := t as char;
            MessageLength(t) ==
            if c in {'S', 'W'} then 12 else if c in {'D', 'B'} then 19 else if c in {'Y', 'N'} then 20 else if c == 'h' then 21
            else if c == 'X' then 23 else if c == 'H' then 25 else if c == 'L' then 26 else if c == 'K' then 28 else if c == 'E' then 31
            else if c in {'V', 'J', 'U'} then 35 else if c in {'A', 'C'} then 36 else if c == 'R' then 39 else if c in {'F', 'Q'} then 40
            else if c == 'P' then 44 else if c == 'O' then 48 else if c == 'I' then 50 else 0
  {
  }

  /** Byte i of a big-endian number. */
  lemma {:induction false} BEDigit(v: nat, n: nat, i: nat)
    requires i < n
    ensures Pow256(n - 1 - i) > 0 && BE(v, n)[i] == v / Pow256(n - 1 - i) % 256
  {
    DivPow(v, n - 1 - i);
    if i < n - 1 {
      BEDigit(v / 256, n - 1, i);
      DivSwap(v, n - 1 - i);
    }
  }

  // ---- the layouts the generators write ---------------------------------------------

  function Hdr(t: byte, locate: U16, ts: U64): (s: seq<byte>)
    ensures |s| == 11
  {
    [t] + BE(locate, 2) + BE(0, 2) + BE(ts, 6)
  }

  /** Zero bytes pad a StockDirectory to its 39 bytes. */
  const R_PADDING: seq<byte> := [0, 0, 0, 0, 0, 0, 0, 0, 0, 0, 0, 0, 0, 0, 0, 0, 0, 0, 0, 0]

  predicate Emitted(t: MsgType) {
    t in {AddOrder, OrderExecuted, OrderCancel, OrderDelete, OrderReplace, Trade, StockDirectory}
  }

  /** Fields in wire range, and the fields the type does not carry left blank. */
  predicate WireOk(m: Message) {
    && Emitted(m.typ) && m.timestamp < 0x1_0000_0000_0000 && 0 <= m.price < TWO32 && |m.stock| == 8
    && m == (match m.typ
             case AddOrder => m.(newRef := 0, matchNumber := 0, eventCode := 0)
             case OrderExecuted => m.(newRef := 0, side := NO_SIDE, price := 0, stock := BLANK_STOCK, eventCode := 0)
             case OrderCancel =>
               m.(newRef := 0, matchNumber := 0, side := NO_SIDE, price := 0, stock := BLANK_STOCK, eventCode := 0)
             case OrderDelete =>
               m.(newRef := 0, matchNumber := 0, side := NO_SIDE, shares := 0, price := 0, stock := BLANK_STOCK, eventCode := 0)
             case OrderReplace => m.(matchNumber := 0, side := NO_SIDE, stock := BLANK_STOCK, eventCode := 0)
             case Trade => m.(newRef := 0, eventCode := 0)
             case _ => BLANK.(typ := StockDirectory, locate := m.locate, timestamp := m.timestamp, stock := m.stock))
  }

  function TypeByte(t: MsgType): byte
    requires Emitted(t)
  {
    match t
    case AddOrder => 65
    case OrderExecuted => 69
    case OrderCancel => 88
    case OrderDelete => 68
    case OrderReplace => 85
    case Trade => 80
    case _ => 82
  }

  /** The bytes after the 11-byte header. */
  function Body(m: Message): seq<byte>
    requires Emitted(m.typ) && 0 <= m.price
  {
    match m.typ
    case AddOrder => BE(m.ref, 8) + [m.side] + BE(m.shares, 4) + m.stock + BE(m.price, 4)
    case OrderExecuted => BE(m.ref, 8) + BE(m.shares, 4) + BE(m.matchNumber, 8)
    case OrderCancel => BE(m.ref, 8) + BE(m.shares, 4)
    case OrderDelete => BE(m.ref, 8)
    case OrderReplace => BE(m.ref, 8) + BE(m.newRef, 8) + BE(m.shares, 4) + BE(m.price, 4)
    case Trade => BE(m.ref, 8) + [m.side] + BE(m.shares, 4) + m.stock + BE(m.price, 4) + BE(m.matchNumber, 8)
    case _ => m.stock + R_PADDING
  }

  function Encode(m: Message): seq<byte>
    requires Emitted(m.typ) && 0 <= m.price
  {
    Hdr(TypeByte(m.typ), m.locate, m.timestamp) + Body(m)
  }

  lemma ReadField(buf: seq<byte>, at: nat, v: nat, n: nat)
    requires FieldAt(buf, at, BE(v, n)) && v < Pow256(n)
    ensures at + n <= |buf| && Rd(buf, at, n) == v
  {
    ReadWritten(v, n);
  }

  lemma HeaderRoundTrip(m: Message)
    requires WireOk(m)
    ensures var buf := Encode(m);
            |buf| >= 11 && buf[0] == TypeByte(m.typ) && Rd16(buf, 1) == m.locate && Rd48(buf, 5) == m.timestamp
    ensures Encode(m)[11..] == Body(m)
  {
    var buf := Encode(m);
    var h := Hdr(TypeByte(m.typ), m.locate, m.timestamp);
    assert buf[..11] == h;
    assert FieldAt(h, 1, BE(m.locate, 2)) && FieldAt(h, 5, BE(m.timestamp, 6));
    assert buf[1..3] == h[1..3] && buf[5..11] == h[5..11];
    assert BE(m.locate, 2) == [m.locate / 256 % 256, m.locate % 256];
    assert buf[1] == h[1] && buf[2] == h[2];
    ReadField(buf, 5, m.timestamp, 6);
  }

  /** The bytes that decoding passes over: the tracking number, and a directory entry past
      its symbol, are zero. */
  lemma FillerIsZero(m: Message)
    requires WireOk(m)
    ensures |Encode(m)| >= 11 && Encode(m)[3] == 0 && Encode(m)[4] == 0
    ensures m.typ == StockDirectory ==> |Encode(m)| == 39 && forall i :: 19 <= i < 39 ==> Encode(m)[i] == 0
  {
    var h := Hdr(TypeByte(m.typ), m.locate, m.timestamp);
    assert FieldAt(h, 3, BE(0, 2)) && BE(0, 2) == [0, 0];
    assert h[3] == h[3..5][0] && h[4] == h[3..5][1];
    if m.typ == StockDirectory {
      assert forall i :: 19 <= i < 39 ==> Encode(m)[i] == R_PADDING[i - 19];
    }
  }

  /** Read a field of the body through the whole message. */
  lemma BodyField(m: Message, at: nat, v: nat, n: nat)
    requires Emitted(m.typ) && 0 <= m.price && FieldAt(Body(m), at, BE(v, n)) && v < Pow256(n)
    ensures 11 + at + n <= |Encode(m)| && Rd(Encode(m), 11 + at, n) == v
  {
    var buf := Encode(m);
    assert buf[11 + at..11 + at + n] == Body(m)[at..at + n];
    ReadField(buf, 11 + at, v, n);
  }

  /** decode() of the layout of a message is the message, for every message in range. */
  lemma DecodeEncode(m: Message)
    requires WireOk(m)
    ensures |Encode(m)| == MessageLength(TypeByte(m.typ))
    ensures Decode(Encode(m)) == Some(m)
  {
    EveryType(m);
  }

  ghost predicate Returns(m: Message)
    requires WireOk(m)
  {
    |Encode(m)| == MessageLength(TypeByte(m.typ)) && Decode(Encode(m)) == Some(m)
  }

  lemma EveryType(m: Message)
    requires WireOk(m)
    ensures Returns(m)
  {
    match m.typ
    case AddOrder => AddRoundTrip(m);
    case Trade => TradeRoundTrip(m);
    case OrderExecuted => ExecutedRoundTrip(m);
    case OrderCancel => CancelRoundTrip(m);
    case OrderDelete => CancelRoundTrip(m);
    case OrderReplace => ReplaceRoundTrip(m);
    case StockDirectory => DirectoryRoundTrip(m);
  }

  lemma DirectoryRoundTrip(m: Message)
    requires WireOk(m) && m.typ == StockDirectory
    ensures Returns(m)
  {
    HeaderRoundTrip(m);
    assert Encode(m)[11..19] == m.stock;
  }

  lemma ExecutedRoundTrip(m: Message)
    requires WireOk(m) && m.typ == OrderExecuted
    ensures Returns(m)
  {
    HeaderRoundTrip(m);
    var b := Body(m);
    assert FieldAt(b, 0, BE(m.ref, 8)) && FieldAt(b, 8, BE(m.shares, 4)) && FieldAt(b, 12, BE(m.matchNumber, 8));
    BodyField(m, 0, m.ref, 8);
    BodyField(m, 8, m.shares, 4);
    BodyField(m, 12, m.matchNumber, 8);
  }

  lemma CancelRoundTrip(m: Message)
    requires WireOk(m) && m.typ in {OrderCancel, OrderDelete}
    ensures Returns(m)
  {
    HeaderRoundTrip(m);
    var b := Body(m);
    assert FieldAt(b, 0, BE(m.ref, 8));
    BodyField(m, 0, m.ref, 8);
    if m.typ == OrderCancel {
      assert FieldAt(b, 8, BE(m.shares, 4));
      BodyField(m, 8, m.shares, 4);
    }
  }

  lemma ReplaceRoundTrip(m: Message)
    requires WireOk(m) && m.typ == OrderReplace
    ensures Returns(m)
  {
    HeaderRoundTrip(m);
    ReplaceFields(m);
  }

  lemma ReplaceFields(m: Message)
    requires WireOk(m) && m.typ == OrderReplace
    ensures var buf := Encode(m);
            && |buf| == 35 && Rd(buf, 11, 8) == m.ref && Rd(buf, 19, 8) == m.newRef
            && Rd(buf, 27, 4) == m.shares && Rd(buf, 31, 4) == m.price
  {
    var b := Body(m);
    FourFields(BE(m.ref, 8), BE(m.newRef, 8), BE(m.shares, 4), BE(m.price, 4));
    BodyField(m, 0, m.ref, 8);
    BodyField(m, 8, m.newRef, 8);
    BodyField(m, 16, m.shares, 4);
    BodyField(m, 20, m.price, 4);
  }

  lemma FourFields(a: seq<byte>, b: seq<byte>, c: seq<byte>, d: seq<byte>)
    ensures var s := a + b + c + d;
            FieldAt(s, 0, a) && FieldAt(s, |a|, b) && FieldAt(s, |a| + |b|, c) && FieldAt(s, |a| + |b| + |c|, d)
  {
  }

  /** The fields that AddOrder and Trade share. */
  lemma AddFields(m: Message)
    requires WireOk(m) && m.typ in {AddOrder, Trade}
    ensures var buf := Encode(m);
            && |buf| >= 36 && Rd(buf, 11, 8) == m.ref && buf[19] == m.side && Rd(buf, 20, 4) == m.shares
            && buf[24..32] == m.stock && Rd(buf, 32, 4) == m.price
  {
    var b := Body(m);
    var buf := Encode(m);
    assert FieldAt(b, 0, BE(m.ref, 8));
    BodyField(m, 0, m.ref, 8);
    assert FieldAt(b, 9, BE(m.shares, 4));
    BodyField(m, 9, m.shares, 4);
    assert FieldAt(b, 21, BE(m.price, 4));
    BodyField(m, 21, m.price, 4);
    assert b[8] == m.side && b[13..21] == m.stock;
    assert buf[11..] == b;
    assert buf[19] == b[8] && buf[24..32] == b[13..21];
  }

  lemma AddRoundTrip(m: Message)
    requires WireOk(m) && m.typ == AddOrder
    ensures Returns(m)
  {
    HeaderRoundTrip(m);
    AddFields(m);
  }

  lemma TradeRoundTrip(m: Message)
    requires WireOk(m) && m.typ == Trade
    ensures Returns(m)
  {
    HeaderRoundTrip(m);
    AddFields(m);
    assert FieldAt(Body(m), 25, BE(m.matchNumber, 8));
    BodyField(m, 25, m.matchNumber, 8);
  }
}
