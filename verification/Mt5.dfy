/** The MT5 bridge messages that carry state: orders and acks. A
    double is kept as its decimal text. */
module Mt5 {
  import opened Prelude
  import opened Decimal
  import opened Json
  import opened JsonLine

  datatype Side = Buy | Sell | NoSide

  datatype Order = Order(id: nat, symbol: string, side: Side, volume: string, price: string, kind: string)

  datatype Ack = Ack(id: nat, ok: bool, retcode: int, message: string)

  // ---- encoders -----------------------------------------------------------------------

  ghost predicate Lower(kind: string) {
    forall i :: 0 <= i < |kind| ==> 'a' <= kind[i] <= 'z'
  }

  /** The opening that every message shares: its type and the protocol version. */
  method Start(kind: string, ghost fs: seq<Field>) returns (s: string)
    requires |fs| > 2 && fs[0] == Text("t", kind) && fs[1] == Raw("v", IntStr(1)) && Lower(kind)
    ensures s == Open(fs[..2])
  {
    s := "{\"t\":\"" + kind + "\",\"v\":" + NatStr(1);
    EscPlain(kind);
    Opening(kind, NatStr(1));
    Two(fs);
  }

  lemma Two(fs: seq<Field>)
    requires |fs| > 2
    ensures Open(fs[..2]) == "{" + FieldText(fs[0]) + "," + FieldText(fs[1])
  {
    assert fs[..2][..1] == [fs[0]];
  }

  lemma Opening(kind: string, v: string)
    ensures "{\"t\":\"" + kind + "\",\"v\":" + v
            == "{" + ("\"" + "t" + "\"" + ":" + ("\"" + kind + "\"")) + "," + ("\"" + "v" + "\"" + ":" + v)
  {
  }

  /** Append a comma, the quoted key, a colon and the text: field i is written. */
  method AddRaw(s: string, key: string, text: string, ghost fs: seq<Field>, ghost i: nat) returns (s': string)
    requires 0 < i < |fs| && s == Open(fs[..i]) && fs[i] == Raw(key, text)
    ensures s' == Open(fs[..i + 1])
  {
    var lit := ",\"" + key + "\":";
    PutRaw(fs[..i], key, lit, text);
    Extend(fs, i);
    s' := s + lit + text;
  }

  /** Likewise for a string, escaped and quoted. */
  method AddText(s: string, key: string, value: string, ghost fs: seq<Field>, ghost i: nat) returns (s': string)
    requires 0 < i < |fs| && s == Open(fs[..i]) && fs[i] == Text(key, value)
    ensures s' == Open(fs[..i + 1])
  {
    var lit := ",\"" + key + "\":\"";
    PutText(fs[..i], key, lit, value);
    Extend(fs, i);
    var e := Escape(value);
    s' := s + lit + e + "\"";
  }

  lemma Extend(fs: seq<Field>, i: nat)
    requires i < |fs|
    ensures fs[..i + 1] == fs[..i] + [fs[i]]
  {
  }

  method EncodeOrder(o: Order) returns (s: string)
    ensures s == Line(OrderFields(o))
  {
    s := OrderHead(o, OrderFields(o));
    s := OrderTail(o, s, OrderFields(o));
  }

  method OrderHead(o: Order, ghost fs: seq<Field>) returns (s: string)
    requires |fs| == 8 && fs[0] == Text("t", "order") && fs[1] == Raw("v", IntStr(1)) && fs[2] == Raw("id", NatStr(o.id))
    requires fs[3] == Text("symbol", o.symbol) && fs[4] == Text("side", if o.side == Buy then "B" else "S")
    ensures s == Open(fs[..5])
  {
    s := Start("order", fs);
    s := AddRaw(s, "id", NatStr(o.id), fs, 2);
    s := AddText(s, "symbol", o.symbol, fs, 3);
    s := AddText(s, "side", if o.side == Buy then "B" else "S", fs, 4);
  }

  method OrderTail(o: Order, start: string, ghost fs: seq<Field>) returns (s: string)
    requires |fs| == 8 && fs[5] == Raw("volume", o.volume) && fs[6] == Raw("price", o.price) && fs[7] == Text("kind", o.kind)
    requires start == Open(fs[..5])
    ensures s == Line(fs)
  {
    s := AddRaw(start, "volume", o.volume, fs, 5);
    s := AddRaw(s, "price", o.price, fs, 6);
    s := AddText(s, "kind", o.kind, fs, 7);
    s := End(s, fs);
  }

  method End(start: string, ghost fs: seq<Field>) returns (s: string)
    requires fs != [] && start == Open(fs[..|fs|])
    ensures s == Line(fs)
  {
    assert fs[..|fs|] == fs;
    LineIsOpen(fs);
    s := start + "}\n";
  }

  method EncodeAck(a: Ack) returns (s: string)
    ensures s == Line(AckFields(a))
  {
    s := AckHead(a, AckFields(a));
    s := AckTail(a, s, AckFields(a));
  }

  method AckHead(a: Ack, ghost fs: seq<Field>) returns (s: string)
    requires fs == AckFields(a)
    ensures s == Open(fs[..4])
  {
    s := Start("ack", fs);
    s := AddRaw(s, "id", NatStr(a.id), fs, 2);
    s := AddRaw(s, "ok", if a.ok then "true" else "false", fs, 3);
  }

  method AckTail(a: Ack, start: string, ghost fs: seq<Field>) returns (s: string)
    requires |fs| == 6 && fs[4] == Raw("retcode", IntStr(a.retcode)) && fs[5] == Text("message", a.message) && start == Open(fs[..4])
    ensures s == Line(fs)
  {
    s := AddRaw(start, "retcode", IntStr(a.retcode), fs, 4);
    s := AddText(s, "message", a.message, fs, 5);
    s := End(s, fs);
  }

  // ---- parsers -----------------------------------------------------------------------------

  /** static_cast<std::uint64_t> of a long long. */
  function AsU64(v: int): nat {
    v % TWO64
  }

  /** static_cast<int> of a long long. */
  function AsInt(v: int): int {
    var u := v % 0x1_0000_0000;
    if u < 0x8000_0000 then u else u - 0x1_0000_0000
  }

  /** parse_order into a struct that held `was`: the required fields id, symbol and a
      non-empty side, then the optional ones. */
  function ParseOrder(line: string, was: Order): Option<Order> {
    BuildOrder(GetInt(line, "id"), GetStr(line, "symbol"), GetStr(line, "side"), GetNum(line, "volume"),
               GetNum(line, "price"), GetStr(line, "kind"), was)
  }

  function BuildOrder(id: Option<int>, symbol: Option<string>, side: Option<string>, volume: Option<string>,
                      price: Option<string>, kind: Option<string>, was: Order): Option<Order> {
    if id.None? || symbol.None? || side.None? || side.value == [] then None
    else Some(Order(AsU64(id.value), symbol.value, if side.value[0] == 'B' then Buy else Sell,
                    volume.ValueOr(was.volume), price.ValueOr(was.price), kind.ValueOr(was.kind)))
  }

  function ParseAck(line: string, was: Ack): Option<Ack> {
    BuildAck(GetInt(line, "id"), GetBool(line, "ok"), GetInt(line, "retcode"), GetStr(line, "message"), was)
  }

  function BuildAck(id: Option<int>, ok: Option<bool>, rc: Option<int>, message: Option<string>, was: Ack): Option<Ack> {
    if id.None? then None
    else Some(Ack(AsU64(id.value), ok.ValueOr(was.ok), if rc.Some? then AsInt(rc.value) else was.retcode,
                  message.ValueOr(was.message)))
  }

  /** A 64-bit id through to_string, strtoll and back. */
  lemma IdReads(id: nat)
    ensures AsU64(Clamp(id)) == if id <= LL_MAX then id else LL_MAX
  {
  }

  lemma RetcodeReads(rc: int)
    requires -0x8000_0000 <= rc < 0x8000_0000
    ensures AsInt(Clamp(rc)) == rc
  {
  }

  // ---- orders ----------------------------------------------------------------------------------

  function OrderFields(o: Order): seq<Field> {
    [Text("t", "order"), Raw("v", IntStr(1)), Raw("id", IntStr(o.id)), Text("symbol", o.symbol),
     Text("side", if o.side == Buy then "B" else "S"), Raw("volume", o.volume), Raw("price", o.price),
     Text("kind", o.kind)]
  }

  function AckFields(a: Ack): seq<Field> {
    [Text("t", "ack"), Raw("v", IntStr(1)), Raw("id", IntStr(a.id)), Raw("ok", if a.ok then "true" else "false"),
     Raw("retcode", IntStr(a.retcode)), Text("message", a.message)]
  }

  lemma NumTextPlain(t: string)
    requires NumText(t)
    ensures PlainRaw(t)
  {
  }

  lemma IntStrNum(v: int)
    ensures NumText(IntStr(v))
  {
    NatStrDigits(if v < 0 then -v else v);
  }

  lemma IntStrPlain(v: int)
    ensures PlainRaw(IntStr(v))
  {
    IntStrNum(v);
    NumTextPlain(IntStr(v));
  }

  lemma OrderFieldsOk(o: Order)
    requires NumText(o.volume) && NumText(o.price)
    ensures FieldsOk(OrderFields(o))
    ensures forall j :: 0 <= j < 8 ==> First(OrderFields(o), j)
  {
    IntStrPlain(1);
    IntStrPlain(o.id);
    NumTextPlain(o.volume);
    NumTextPlain(o.price);
    DistinctKeys(OrderFields(o));
  }

  /** Keys told apart by their length or their first two characters. */
  ghost predicate ToldApart(a: string, b: string) {
    |a| != |b| || (a != [] && a[0] != b[0]) || (|a| > 1 && a[1] != b[1])
  }

  lemma DistinctKeys(fs: seq<Field>)
    requires FieldsOk(fs) && forall i, j :: 0 <= i < j < |fs| ==> ToldApart(fs[i].key, fs[j].key)
    ensures forall j :: 0 <= j < |fs| ==> First(fs, j)
  {
  }

  /** The order that parsing reads: ids saturate at 2^63 - 1, and a side that is not Buy
      was sent as a sell. */
  function Sent(o: Order): Order {
    o.(id := if o.id <= LL_MAX then o.id else LL_MAX, side := if o.side == Buy then Buy else Sell)
  }

  /** Parsing an encoded order, whatever its strings contain and whatever the struct
      held before. */
  lemma OrderRoundTrip(o: Order, was: Order)
    requires NumText(o.volume) && NumText(o.price)
    ensures ParseOrder(Line(OrderFields(o)), was) == Some(Sent(o))
  {
    OrderFieldsOk(o);
    OrderNumbers(OrderFields(o), o);
    OrderTexts(OrderFields(o), o);
    BuildsOrder(o, was);
  }

  lemma OrderNumbers(fs: seq<Field>, o: Order)
    requires |fs| == 8 && (forall j :: 0 <= j < 8 ==> First(fs, j))
    requires fs[2] == Raw("id", IntStr(o.id)) && fs[5] == Raw("volume", o.volume) && fs[6] == Raw("price", o.price)
    requires NumText(o.volume) && NumText(o.price)
    ensures GetInt(Line(fs), "id") == Some(Clamp(o.id))
    ensures GetNum(Line(fs), "volume") == Some(o.volume) && GetNum(Line(fs), "price") == Some(o.price)
  {
    GetsInt(fs, 2, o.id);
    GetsNum(fs, 5);
    GetsNum(fs, 6);
  }

  lemma OrderTexts(fs: seq<Field>, o: Order)
    requires |fs| == 8 && (forall j :: 0 <= j < 8 ==> First(fs, j))
    requires fs[3] == Text("symbol", o.symbol) && fs[4] == Text("side", if o.side == Buy then "B" else "S") && fs[7] == Text("kind", o.kind)
    ensures GetStr(Line(fs), "symbol") == Some(o.symbol)
    ensures GetStr(Line(fs), "side") == Some(if o.side == Buy then "B" else "S")
    ensures GetStr(Line(fs), "kind") == Some(o.kind)
  {
    GetsText(fs, 3);
    GetsText(fs, 4);
    GetsText(fs, 7);
  }

  lemma BuildsOrder(o: Order, was: Order)
    ensures BuildOrder(Some(Clamp(o.id)), Some(o.symbol), Some(if o.side == Buy then "B" else "S"), Some(o.volume),
                       Some(o.price), Some(o.kind), was) == Some(Sent(o))
  {
    IdReads(o.id);
  }

  /** ...so the order itself comes back exactly when its id is below 2^63 and it has a side. */
  lemma OrderReturnsIff(o: Order, was: Order)
    requires NumText(o.volume) && NumText(o.price)
    ensures ParseOrder(Line(OrderFields(o)), was) == Some(o) <==> o.id < 0x8000_0000_0000_0000 && o.side != NoSide
  {
    OrderRoundTrip(o, was);
  }

  lemma AckFieldsOk(a: Ack)
    ensures FieldsOk(AckFields(a))
    ensures forall j :: 0 <= j < 6 ==> First(AckFields(a), j)
  {
    IntStrPlain(1);
    IntStrPlain(a.id);
    IntStrPlain(a.retcode);
    DistinctKeys(AckFields(a));
  }

  /** An ack comes back exactly when its id is below 2^63, for every 32-bit retcode and
      every message text. */
  lemma AckReturnsIff(a: Ack, was: Ack)
    requires -0x8000_0000 <= a.retcode < 0x8000_0000
    ensures ParseAck(Line(AckFields(a)), was) == Some(a.(id := if a.id <= LL_MAX then a.id else LL_MAX))
    ensures ParseAck(Line(AckFields(a)), was) == Some(a) <==> a.id < 0x8000_0000_0000_0000
  {
    AckFieldsOk(a);
    AckValues(AckFields(a), a);
    BuildsAck(a, was);
  }

  lemma AckValues(fs: seq<Field>, a: Ack)
    requires |fs| == 6 && (forall j :: 0 <= j < 6 ==> First(fs, j))
    requires fs[2] == Raw("id", IntStr(a.id)) && fs[3] == Raw("ok", if a.ok then "true" else "false")
    requires fs[4] == Raw("retcode", IntStr(a.retcode)) && fs[5] == Text("message", a.message)
    ensures GetInt(Line(fs), "id") == Some(Clamp(a.id)) && GetBool(Line(fs), "ok") == Some(a.ok)
    ensures GetInt(Line(fs), "retcode") == Some(Clamp(a.retcode)) && GetStr(Line(fs), "message") == Some(a.message)
  {
    GetsInt(fs, 2, a.id);
    GetsBool(fs, 3, a.ok);
    GetsInt(fs, 4, a.retcode);
    GetsText(fs, 5);
  }

  lemma BuildsAck(a: Ack, was: Ack)
    requires -0x8000_0000 <= a.retcode < 0x8000_0000
    ensures BuildAck(Some(Clamp(a.id)), Some(a.ok), Some(Clamp(a.retcode)), Some(a.message), was)
            == Some(a.(id := if a.id <= LL_MAX then a.id else LL_MAX))
  {
    IdReads(a.id);
    RetcodeReads(a.retcode);
  }

  /** Encoded orders and acks are single lines. */
  lemma EncodedOnOneLine(o: Order, a: Ack)
    requires NumText(o.volume) && NumText(o.price)
    ensures OneLine(Line(OrderFields(o))) && OneLine(Line(AckFields(a)))
  {
    OrderFieldsOk(o);
    AckFieldsOk(a);
    LineIsOneLine(OrderFields(o));
    LineIsOneLine(AckFields(a));
  }

  // ---- the lines, character by character ---------------------------------------------------

  lemma OpenStep(kind: string, s: string, fs: seq<Field>)
    requires |fs| > 2 && fs[0] == Text("t", kind) && fs[1] == Raw("v", IntStr(1)) && Lower(kind)
    requires s == "{\"t\":\"" + kind + "\",\"v\":" + "1"
    ensures s == Open(fs[..2])
  {
    assert NatStr(1) == "1";
    EscPlain(kind);
    Opening(kind, "1");
    Two(fs);
  }

  lemma RawStep(s: string, lit: string, text: string, key: string, fs: seq<Field>, i: nat)
    requires 0 < i < |fs| && s == Open(fs[..i]) && fs[i] == Raw(key, text) && lit == ",\"" + key + "\":"
    ensures s + lit + text == Open(fs[..i + 1])
  {
    PutRaw(fs[..i], key, lit, text);
    Extend(fs, i);
  }

  lemma TextStep(s: string, lit: string, e: string, value: string, key: string, fs: seq<Field>, i: nat)
    requires 0 < i < |fs| && s == Open(fs[..i]) && fs[i] == Text(key, value) && lit == ",\"" + key + "\":\"" && e == Esc(value)
    ensures s + lit + e + "\"" == Open(fs[..i + 1])
  {
    PutText(fs[..i], key, lit, value);
    Extend(fs, i);
  }

  lemma EndStep(s: string, fs: seq<Field>)
    requires fs != [] && s == Open(fs[..|fs|])
    ensures s + "}\n" == Line(fs)
  {
    assert fs[..|fs|] == fs;
    LineIsOpen(fs);
  }

  lemma IdStep(s: string, text: string, fs: seq<Field>, i: nat)
    requires 0 < i < |fs| && s == Open(fs[..i]) && fs[i] == Raw("id", text)
    ensures s + ",\"id\":" + text == Open(fs[..i + 1])
  {
    RawStep(s, ",\"id\":", text, "id", fs, i);
  }

  lemma VolumeStep(s: string, text: string, fs: seq<Field>, i: nat)
    requires 0 < i < |fs| && s == Open(fs[..i]) && fs[i] == Raw("volume", text)
    ensures s + ",\"volume\":" + text == Open(fs[..i + 1])
  {
    RawStep(s, ",\"volume\":", text, "volume", fs, i);
  }

  lemma PriceStep(s: string, text: string, fs: seq<Field>, i: nat)
    requires 0 < i < |fs| && s == Open(fs[..i]) && fs[i] == Raw("price", text)
    ensures s + ",\"price\":" + text == Open(fs[..i + 1])
  {
    RawStep(s, ",\"price\":", text, "price", fs, i);
  }

  lemma OkStep(s: string, text: string, fs: seq<Field>, i: nat)
    requires 0 < i < |fs| && s == Open(fs[..i]) && fs[i] == Raw("ok", text)
    ensures s + ",\"ok\":" + text == Open(fs[..i + 1])
  {
    RawStep(s, ",\"ok\":", text, "ok", fs, i);
  }

  lemma RetcodeStep(s: string, text: string, fs: seq<Field>, i: nat)
    requires 0 < i < |fs| && s == Open(fs[..i]) && fs[i] == Raw("retcode", text)
    ensures s + ",\"retcode\":" + text == Open(fs[..i + 1])
  {
    RawStep(s, ",\"retcode\":", text, "retcode", fs, i);
  }

  lemma SymbolStep(s: string, e: string, value: string, fs: seq<Field>, i: nat)
    requires 0 < i < |fs| && s == Open(fs[..i]) && fs[i] == Text("symbol", value) && e == Esc(value)
    ensures s + ",\"symbol\":\"" + e + "\"" == Open(fs[..i + 1])
  {
    TextStep(s, ",\"symbol\":\"", e, value, "symbol", fs, i);
  }

  lemma SideStep(s: string, e: string, value: string, fs: seq<Field>, i: nat)
    requires 0 < i < |fs| && s == Open(fs[..i]) && fs[i] == Text("side", value) && e == Esc(value)
    ensures s + ",\"side\":\"" + e + "\"" == Open(fs[..i + 1])
  {
    TextStep(s, ",\"side\":\"", e, value, "side", fs, i);
  }

  lemma KindStep(s: string, e: string, value: string, fs: seq<Field>, i: nat)
    requires 0 < i < |fs| && s == Open(fs[..i]) && fs[i] == Text("kind", value) && e == Esc(value)
    ensures s + ",\"kind\":\"" + e + "\"" == Open(fs[..i + 1])
  {
    TextStep(s, ",\"kind\":\"", e, value, "kind", fs, i);
  }

  lemma MessageStep(s: string, e: string, value: string, fs: seq<Field>, i: nat)
    requires 0 < i < |fs| && s == Open(fs[..i]) && fs[i] == Text("message", value) && e == Esc(value)
    ensures s + ",\"message\":\"" + e + "\"" == Open(fs[..i + 1])
  {
    TextStep(s, ",\"message\":\"", e, value, "message", fs, i);
  }

  /** The side letter. */
  function SideText(o: Order): string {
    if o.side == Buy then "B" else "S"
  }

  /** An order's line, spelled out. */
  lemma OrderLine(o: Order)
    ensures Line(OrderFields(o)) ==
            "{\"t\":\"order\",\"v\":1" + ",\"id\":" + NatStr(o.id) + ",\"symbol\":\"" + Esc(o.symbol) + "\""
            + ",\"side\":\"" + SideText(o) + "\"" + ",\"volume\":" + o.volume + ",\"price\":" + o.price
            + ",\"kind\":\"" + Esc(o.kind) + "\"" + "}\n"
  {
    var fs := OrderFields(o);
    var a := OrderLineHead(o, fs);
    OrderLineTail(a, o, fs);
  }

  lemma OrderLineTail(a: string, o: Order, fs: seq<Field>)
    requires |fs| == 8 && fs[5] == Raw("volume", o.volume) && fs[6] == Raw("price", o.price) && fs[7] == Text("kind", o.kind)
    requires a == Open(fs[..5])
    ensures Line(fs) == a + ",\"volume\":" + o.volume + ",\"price\":" + o.price + ",\"kind\":\"" + Esc(o.kind) + "\"" + "}\n"
  {
    var b := a + ",\"volume\":" + o.volume;
    VolumeStep(a, o.volume, fs, 5);
    var c := b + ",\"price\":" + o.price;
    PriceStep(b, o.price, fs, 6);
    KindStep(c, Esc(o.kind), o.kind, fs, 7);
    EndStep(c + ",\"kind\":\"" + Esc(o.kind) + "\"", fs);
  }

  lemma OrderLineHead(o: Order, fs: seq<Field>) returns (s: string)
    requires |fs| == 8 && fs[0] == Text("t", "order") && fs[1] == Raw("v", IntStr(1)) && fs[2] == Raw("id", NatStr(o.id))
    requires fs[3] == Text("symbol", o.symbol) && fs[4] == Text("side", SideText(o))
    ensures s == "{\"t\":\"order\",\"v\":1" + ",\"id\":" + NatStr(o.id) + ",\"symbol\":\"" + Esc(o.symbol) + "\""
                 + ",\"side\":\"" + SideText(o) + "\""
    ensures s == Open(fs[..5])
  {
    var a := "{\"t\":\"order\",\"v\":1";
    OpenStep("order", a, fs);
    OrderLineMiddle(a, o, fs);
    s := a + ",\"id\":" + NatStr(o.id) + ",\"symbol\":\"" + Esc(o.symbol) + "\"" + ",\"side\":\"" + SideText(o) + "\"";
  }

  lemma OrderLineMiddle(a: string, o: Order, fs: seq<Field>)
    requires |fs| == 8 && fs[2] == Raw("id", NatStr(o.id)) && fs[3] == Text("symbol", o.symbol) && fs[4] == Text("side", SideText(o))
    requires a == Open(fs[..2])
    ensures a + ",\"id\":" + NatStr(o.id) + ",\"symbol\":\"" + Esc(o.symbol) + "\"" + ",\"side\":\"" + SideText(o) + "\"" == Open(fs[..5])
  {
    var b := a + ",\"id\":" + NatStr(o.id);
    IdStep(a, NatStr(o.id), fs, 2);
    var c := b + ",\"symbol\":\"" + Esc(o.symbol) + "\"";
    SymbolStep(b, Esc(o.symbol), o.symbol, fs, 3);
    EscPlain(SideText(o));
    SideStep(c, SideText(o), SideText(o), fs, 4);
  }

  /** An ack's line, spelled out. */
  lemma AckLine(a: Ack)
    ensures Line(AckFields(a)) ==
            "{\"t\":\"ack\",\"v\":1" + ",\"id\":" + NatStr(a.id) + ",\"ok\":" + (if a.ok then "true" else "false")
            + ",\"retcode\":" + IntStr(a.retcode) + ",\"message\":\"" + Esc(a.message) + "\"" + "}\n"
  {
    AckLineOf(a, AckFields(a), if a.ok then "true" else "false");
  }

  lemma AckLineOf(a: Ack, fs: seq<Field>, ok: string)
    requires |fs| == 6 && fs[0] == Text("t", "ack") && fs[1] == Raw("v", IntStr(1)) && fs[2] == Raw("id", NatStr(a.id))
    requires fs[3] == Raw("ok", ok) && fs[4] == Raw("retcode", IntStr(a.retcode)) && fs[5] == Text("message", a.message)
    ensures Line(fs) == "{\"t\":\"ack\",\"v\":1" + ",\"id\":" + NatStr(a.id) + ",\"ok\":" + ok
                        + ",\"retcode\":" + IntStr(a.retcode) + ",\"message\":\"" + Esc(a.message) + "\"" + "}\n"
  {
    var u := AckLineHead(a, fs, ok);
    var v := u + ",\"retcode\":" + IntStr(a.retcode);
    RetcodeStep(u, IntStr(a.retcode), fs, 4);
    MessageStep(v, Esc(a.message), a.message, fs, 5);
    EndStep(v + ",\"message\":\"" + Esc(a.message) + "\"", fs);
  }

  lemma AckLineHead(a: Ack, fs: seq<Field>, ok: string) returns (s: string)
    requires |fs| == 6 && fs[0] == Text("t", "ack") && fs[1] == Raw("v", IntStr(1)) && fs[2] == Raw("id", NatStr(a.id))
    requires fs[3] == Raw("ok", ok)
    ensures s == "{\"t\":\"ack\",\"v\":1" + ",\"id\":" + NatStr(a.id) + ",\"ok\":" + ok
    ensures s == Open(fs[..4])
  {
    var t := "{\"t\":\"ack\",\"v\":1";
    OpenStep("ack", t, fs);
    var u := t + ",\"id\":" + NatStr(a.id);
    IdStep(t, NatStr(a.id), fs, 2);
    OkStep(u, ok, fs, 3);
    s := u + ",\"ok\":" + ok;
  }

  // ---- what a receiver dispatches on ---------------------------------------------------------

  /** Every order and ack announces its own type, which is what kind_of() reads, and
      protocol version 1. */
  lemma KindsRead(o: Order, a: Ack)
    requires NumText(o.volume) && NumText(o.price)
    ensures GetStr(Line(OrderFields(o)), "t") == Some("order") && GetInt(Line(OrderFields(o)), "v") == Some(1)
    ensures GetStr(Line(AckFields(a)), "t") == Some("ack") && GetInt(Line(AckFields(a)), "v") == Some(1)
  {
    OrderFieldsOk(o);
    AckFieldsOk(a);
    KindOf(OrderFields(o), "order");
    KindOf(AckFields(a), "ack");
  }

  lemma KindOf(fs: seq<Field>, kind: string)
    requires |fs| > 1 && First(fs, 0) && First(fs, 1) && fs[0] == Text("t", kind) && fs[1] == Raw("v", IntStr(1))
    ensures GetStr(Line(fs), "t") == Some(kind) && GetInt(Line(fs), "v") == Some(1)
  {
    GetsText(fs, 0);
    GetsInt(fs, 1, 1);
  }

  // ---- the parsers on any line ---------------------------------------------------------------

  /** parse_order accepts a line exactly when it has an id, a symbol and a non-empty side;
      'B' first means Buy, anything else Sell; an absent optional field keeps what was there. */
  lemma ParseOrderIs(line: string, was: Order)
    ensures var r := ParseOrder(line, was);
            var side := GetStr(line, "side");
            && (r.Some? <==> GetInt(line, "id").Some? && GetStr(line, "symbol").Some? && side.Some? && side.value != "")
            && (r.Some? ==>
                  && r.value.id == GetInt(line, "id").value % 0x1_0000_0000_0000_0000 && r.value.symbol == GetStr(line, "symbol").value
                  && (r.value.side == Buy <==> side.value[0] == 'B') && (r.value.side == Sell <==> side.value[0] != 'B')
                  && r.value.volume == GetNum(line, "volume").ValueOr(was.volume)
                  && r.value.price == GetNum(line, "price").ValueOr(was.price)
                  && r.value.kind == GetStr(line, "kind").ValueOr(was.kind))
  {
  }

  /** parse_ack accepts a line exactly when it has an id. */
  lemma ParseAckIs(line: string, was: Ack)
    ensures var r := ParseAck(line, was);
            && (r.Some? <==> GetInt(line, "id").Some?)
            && (r.Some? ==>
                  && r.value.id == GetInt(line, "id").value % 0x1_0000_0000_0000_0000
                  && r.value.ok == GetBool(line, "ok").ValueOr(was.ok)
                  && r.value.message == GetStr(line, "message").ValueOr(was.message)
                  && (GetInt(line, "retcode").None? ==> r.value.retcode == was.retcode)
                  && (GetInt(line, "retcode").Some? ==> IsInt32Of(r.value.retcode, GetInt(line, "retcode").value)))
  {
    var rc := GetInt(line, "retcode");
    if rc.Some? { AsIntIs(rc.value); }
  }

  /** The 32-bit int congruent to a value. */
  predicate IsInt32Of(r: int, v: int) {
    -0x8000_0000 <= r < 0x8000_0000 && (v - r) % 0x1_0000_0000 == 0
  }

  lemma AsIntIs(v: int)
    ensures IsInt32Of(AsInt(v), v)
  {
  }
}
