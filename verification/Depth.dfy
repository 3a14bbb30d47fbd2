/** Depth snapshots of the MT5 bridge: "[[price,qty],...]" ladders and the nested
    bracket-scanning loop that reads them. */
module Depth {
  import opened Prelude
  import opened Levels
  import opened Decimal
  import opened Json
  import opened JsonLine
  import opened Seqs
  import opened Mt5

  // ---- ladder text ---------------------------------------------------------------------

  function RowText(r: (Price, Qty)): string {
    "[" + IntStr(r.0) + "," + NatStr(r.1) + "]"
  }

  function CommaRow(r: (Price, Qty)): string {
    "," + RowText(r)
  }

  function RowsText(rows: Rows): string {
    if rows == [] then "" else RowText(rows[0]) + Join(CommaRow, rows[1..])
  }

  function LadderText(rows: Rows): string {
    "[" + RowsText(rows) + "]"
  }

  /** The bracketed text of a ladder, spelled out row by row. */
  lemma LadderTextIs(rows: Rows, p: Price, q: Qty)
    ensures LadderText(rows) == "[" + RowsText(rows) + "]" && RowsText([]) == ""
    ensures RowsText([(p, q)]) == RowSpelled(IntStr(p), NatStr(q))
    ensures rows != [] ==> RowsText(rows + [(p, q)]) == RowsText(rows) + ("," + RowSpelled(IntStr(p), NatStr(q)))
  {
    RowsSnoc(rows, (p, q));
    RowsSnoc([], (p, q));
    assert [] + [(p, q)] == [(p, q)];
    RowIs(p, q);
    assert "" + RowText((p, q)) == RowText((p, q));
  }

  function RowSpelled(p: string, q: string): string {
    ['['] + p + [','] + q + [']']
  }

  lemma RowIs(p: Price, q: Qty)
    ensures RowText((p, q)) == RowSpelled(IntStr(p), NatStr(q))
  {
  }

  lemma RowsSnoc(rows: Rows, r: (Price, Qty))
    ensures RowsText(rows + [r]) == RowsText(rows) + (if rows == [] then RowText(r) else CommaRow(r))
  {
    if rows == [] {
      assert rows + [r] == [r] && [r][1..] == [];
    } else {
      assert (rows + [r])[1..] == rows[1..] + [r];
      JoinConcat(CommaRow, rows[1..], [r]);
      JoinOne(CommaRow, r);
      Assoc(RowText(rows[0]), Join(CommaRow, rows[1..]), CommaRow(r));
    }
  }

  /** The encoder's row loop. */
  method AppendRows(s: string, rows: Rows) returns (out: string)
    ensures out == s + RowsText(rows)
  {
    out := s;
    var i := 0;
    assert rows[..0] == [] && s + RowsText([]) == s;
    while i < |rows|
      invariant 0 <= i <= |rows| && out == s + RowsText(rows[..i])
    {
      RowsStep(s, rows, i);
      if i > 0 { out := out + ","; }
      out := out + RowText(rows[i]);
      i := i + 1;
    }
    assert rows[..i] == rows;
  }

  lemma RowsStep(s: string, rows: Rows, i: nat)
    requires i < |rows|
    ensures i > 0 ==> s + RowsText(rows[..i]) + "," + RowText(rows[i]) == s + RowsText(rows[..i + 1])
    ensures i == 0 ==> s + RowsText(rows[..i]) + RowText(rows[i]) == s + RowsText(rows[..i + 1])
  {
    var base, row := RowsText(rows[..i]), RowText(rows[i]);
    RowsSnoc(rows[..i], rows[i]);
    assert rows[..i + 1] == rows[..i] + [rows[i]];
    if i > 0 {
      AppendComma(s, base, row);
    } else {
      Assoc(s, base, row);
    }
  }

  lemma AppendComma(s: string, base: string, row: string)
    ensures s + base + "," + row == s + (base + ("," + row))
  {
  }

  // ---- reading ----------------------------------------------------------------------------

  /** Leading commas and spaces. */
  function SepSpan(s: string): (n: nat)
    ensures n <= |s|
  {
    if s == [] || !(s[0] == ',' || s[0] == ' ') then 0 else 1 + SepSpan(s[1..])
  }

  /** static_cast<Qty> */
  function AsQty(v: int): Qty {
    v % TWO32
  }

  lemma AsQtyIs(v: int)
    ensures (v - AsQty(v)) % 0x1_0000_0000 == 0
  {
  }

  /** The text past the first ']', or nothing when there is none. */
  function PastBracket(s: string): (r: string)
    ensures |r| <= |s|
  {
    if s == [] then [] else if s[0] == ']' then s[1..] else PastBracket(s[1..])
  }

  datatype Pair = Pair(price: int, qty: Qty, rest: string)

  /** A pair after its '['; None when a number is missing. */
  function ReadPair(t: string): (r: Option<Pair>)
    ensures r.Some? ==> |r.value.rest| < |t|
  {
    var a := StrToLL(t);
    if a.None? then None
    else
      var t1 := t[a.value.1..];
      var t2 := t1[SepSpan(t1)..];
      var b := StrToLL(t2);
      if b.None? then None
      else Some(Pair(a.value.0, AsQty(b.value.0), PastBracket(t2[b.value.1..])))
  }

  datatype Ladder = Ladder(ok: bool, rows: Rows)

  /** The rows after the outer '['; on a malformed pair, those before it. */
  function ReadRows(s: string): Ladder
    decreases |s|
  {
    if s == [] || s[0] == ']' then Ladder(true, [])
    else if s[0] != '[' then ReadRows(s[1..])
    else
      var p := ReadPair(s[1..]);
      if p.None? then Ladder(false, [])
      else
        var more := ReadRows(p.value.rest);
        Ladder(more.ok, [(p.value.price, p.value.qty)] + more.rows)
  }

  /** parse_levels into a vector that held `was`. */
  function GetLevels(line: string, key: string, was: Rows): Ladder {
    var t := JsonLine.At(line, key);
    if t.None? || t.value == [] || t.value[0] != '[' then Ladder(false, was) else ReadRows(t.value[1..])
  }

  /** parse_levels. */
  method ParseLevels(line: string, key: string, was: Rows) returns (ok: bool, out: Rows)
    ensures Ladder(ok, out) == GetLevels(line, key, was)
  {
    var pos := FindValue(line, key);
    if pos.None? || pos.value >= |line| || line[pos.value] != '[' {
      return false, was;
    }
    ghost var t := line[pos.value..];
    assert t[0] == '[' && t[1..] == line[pos.value + 1..];
    ok, out := ScanRows(line, pos.value + 1);
  }

  /** What the outer loop still reads from position i. */
  ghost function Remaining(line: string, i: nat): Ladder
    requires i <= |line|
  {
    ReadRows(line[i..])
  }

  /** The outer loop; it ends because every round moves on, whatever the text. */
  method ScanRows(line: string, start: nat) returns (ok: bool, out: Rows)
    requires start <= |line|
    ensures Ladder(ok, out) == Remaining(line, start)
  {
    ok, out := true, [];
    var i := start;
    ghost var goal, more := Remaining(line, start), Remaining(line, start);
    assert [] + more.rows == more.rows;
    while i < |line| && line[i] != ']'
      invariant i <= |line| && more == Remaining(line, i)
      invariant goal == Ladder(more.ok, out + more.rows)
      decreases |line| - i
    {
      if line[i] != '[' {
        SkipOne(line, i);
        i := i + 1;
        continue;
      }
      var good, row, next := ScanRow(line, i);
      if !good {
        assert out + [] == out;
        return false, out;
      }
      more := Remaining(line, next);
      Shift(out, row, more.rows);
      out := out + [row];
      i := next;
    }
    AtEnd(line, i);
    assert out + [] == out;
  }

  /** One pair, from its '['. */
  method ScanRow(line: string, i: nat) returns (good: bool, row: (Price, Qty), next: nat)
    requires i < |line| && line[i] == '['
    ensures !good ==> Remaining(line, i) == Ladder(false, [])
    ensures good ==> i < next <= |line|
    ensures good ==> var more := Remaining(line, next); Remaining(line, i) == Ladder(more.ok, [row] + more.rows)
  {
    var p, q;
    good, p, q, next := ScanPair(line, i + 1);
    row := (p, q);
    if good { TakePair(line, i, p, q, next); } else { BadPair(line, i); }
  }

  lemma SkipOne(line: string, i: nat)
    requires i < |line| && line[i] != ']' && line[i] != '['
    ensures Remaining(line, i) == Remaining(line, i + 1)
  {
    assert line[i..][1..] == line[i + 1..];
  }

  lemma BadPair(line: string, i: nat)
    requires i < |line| && line[i] == '[' && ReadPair(line[i + 1..]).None?
    ensures Remaining(line, i) == Ladder(false, [])
  {
    assert line[i..][1..] == line[i + 1..];
  }

  lemma TakePair(line: string, i: nat, p: int, q: Qty, next: nat)
    requires i < |line| && line[i] == '[' && next <= |line|
    requires ReadPair(line[i + 1..]) == Some(Pair(p, q, line[next..]))
    ensures var more := Remaining(line, next); Remaining(line, i) == Ladder(more.ok, [(p, q)] + more.rows)
  {
    assert line[i..][1..] == line[i + 1..];
  }

  lemma AtEnd(line: string, i: nat)
    requires i <= |line| && (i == |line| || line[i] == ']')
    ensures Remaining(line, i) == Ladder(true, [])
  {
  }

  lemma Shift(out: Rows, r: (Price, Qty), more: Rows)
    ensures out + ([r] + more) == (out + [r]) + more
  {
  }

  method ScanPair(line: string, start: nat) returns (good: bool, p: int, q: Qty, next: nat)
    requires start <= |line|
    ensures good == ReadPair(line[start..]).Some?
    ensures good ==> start < next <= |line| && ReadPair(line[start..]) == Some(Pair(p, q, line[next..]))
  {
    p, q, next := 0, 0, start;
    var a := StrToLL(line[start..]);
    if a.None? { return false, p, q, next; }
    var i := start + a.value.1;
    DropDrop(line, start, a.value.1, i);
    var j := SkipSeps(line, i);
    var b := StrToLL(line[j..]);
    if b.None? { return false, p, q, next; }
    var k := j + b.value.1;
    DropDrop(line, j, b.value.1, k);
    next := SkipPair(line, k);
    good, p, q := true, a.value.0, AsQty(b.value.0);
  }

  lemma DropDrop(s: string, i: nat, n: nat, j: nat)
    requires i <= |s| && n <= |s| - i && j == i + n
    ensures s[i..][n..] == s[j..]
  {
  }

  method SkipSeps(line: string, start: nat) returns (i: nat)
    requires start <= |line|
    ensures start <= i <= |line| && line[i..] == line[start..][SepSpan(line[start..])..]
  {
    i := start;
    while i < |line| && (line[i] == ',' || line[i] == ' ')
      invariant start <= i <= |line|
      invariant line[i..][SepSpan(line[i..])..] == line[start..][SepSpan(line[start..])..]
    {
      assert line[i..][1..] == line[i + 1..];
      i := i + 1;
    }
  }

  method SkipPair(line: string, start: nat) returns (i: nat)
    requires start <= |line|
    ensures start <= i <= |line| && line[i..] == PastBracket(line[start..])
  {
    i := start;
    while i < |line| && line[i] != ']'
      invariant start <= i <= |line| && PastBracket(line[i..]) == PastBracket(line[start..])
    {
      assert line[i..][1..] == line[i + 1..];
      i := i + 1;
    }
    if i < |line| {
      assert line[i..][1..] == line[i + 1..];
      i := i + 1;
    }
  }

  // ---- a ladder comes back ----------------------------------------------------------------

  /** Prices are 64-bit in the program. */
  ghost predicate Prices64(rows: Rows) {
    forall i :: 0 <= i < |rows| ==> LL_MIN <= rows[i].0 <= LL_MAX
  }

  lemma PriceRead(p: int, rest: string)
    requires LL_MIN <= p <= LL_MAX && rest != [] && !IsDigit(rest[0])
    ensures var t := IntStr(p) + rest;
            var a := StrToLL(t);
            a.Some? && a.value.0 == p && t[a.value.1..] == rest
  {
    ReadBack(p, rest);
  }

  lemma QtyRead(q: Qty, rest: string)
    requires rest != [] && !IsDigit(rest[0])
    ensures var t := NatStr(q) + rest;
            var a := StrToLL(t);
            a.Some? && AsQty(a.value.0) == q && t[a.value.1..] == rest
  {
    PriceRead(q, rest);
  }

  /** The separator between the two numbers. */
  lemma CommaRead(q: Qty, rest: string)
    ensures var t := "," + (NatStr(q) + rest); t[SepSpan(t)..] == NatStr(q) + rest
  {
    NatStrDigits(q);
    OneSep(NatStr(q), rest);
  }

  lemma OneSep(d: string, rest: string)
    requires d != [] && IsDigit(d[0])
    ensures var t := "," + (d + rest); t[SepSpan(t)..] == d + rest
  {
    var u := d + rest;
    var t := "," + u;
    assert u[0] == d[0] && t[1..] == u;
    assert SepSpan(u) == 0;
  }

  /** The text of a pair from its price on. */
  function PairText(r: (Price, Qty), post: string): string {
    IntStr(r.0) + ("," + (NatStr(r.1) + ("]" + post)))
  }

  lemma PairRead(r: (Price, Qty), post: string)
    requires LL_MIN <= r.0 <= LL_MAX
    ensures ReadPair(PairText(r, post)) == Some(Pair(r.0, r.1, post))
  {
    var end := "]" + post;
    PriceRead(r.0, "," + (NatStr(r.1) + end));
    CommaRead(r.1, end);
    QtyRead(r.1, end);
    assert end[1..] == post;
  }

  lemma RowRead(r: (Price, Qty), post: string)
    requires LL_MIN <= r.0 <= LL_MAX
    ensures var more := ReadRows(post);
            ReadRows(RowText(r) + post) == Ladder(more.ok, [r] + more.rows)
  {
    PairRead(r, post);
    RowSplit(IntStr(r.0), NatStr(r.1), post, RowText(r) + post);
  }

  lemma RowSplit(p: string, q: string, post: string, s: string)
    requires s == "[" + p + "," + q + "]" + post
    ensures s[0] == '[' && s[1..] == p + ("," + (q + ("]" + post)))
  {
  }

  lemma {:induction false} MoreRowsRead(rows: Rows, post: string)
    requires Prices64(rows)
    ensures ReadRows(Join(CommaRow, rows) + ("]" + post)) == Ladder(true, rows)
    decreases |rows|
  {
    if rows == [] {
      EndRead(post);
    } else {
      MoreRowsRead(rows[1..], post);
      MoreStep(rows, "]" + post);
    }
  }

  lemma EndRead(post: string)
    ensures ReadRows("" + ("]" + post)) == Ladder(true, [])
  {
    var end := "]" + post;
    assert "" + end == end;
  }

  lemma MoreStep(rows: Rows, end: string)
    requires rows != [] && Prices64(rows)
    requires ReadRows(Join(CommaRow, rows[1..]) + end) == Ladder(true, rows[1..])
    ensures ReadRows(Join(CommaRow, rows) + end) == Ladder(true, rows)
  {
    NextRead(rows[0], Join(CommaRow, rows[1..]), end, rows[1..]);
    HeadTail(rows);
  }

  /** A further row, when the rest reads as `tail`. */
  lemma NextRead(r: (Price, Qty), more: string, end: string, tail: Rows)
    requires LL_MIN <= r.0 <= LL_MAX && ReadRows(more + end) == Ladder(true, tail)
    ensures ReadRows(CommaRow(r) + more + end) == Ladder(true, [r] + tail)
  {
    RowRead(r, more + end);
    CommaSplit(RowText(r), more, end);
  }

  lemma CommaSplit(row: string, more: string, end: string)
    ensures var s := "," + row + more + end;
            s[0] == ',' && s[1..] == row + (more + end)
  {
  }

  lemma FirstRead(r: (Price, Qty), more: string, end: string, tail: Rows)
    requires LL_MIN <= r.0 <= LL_MAX && ReadRows(more + end) == Ladder(true, tail)
    ensures ReadRows(RowText(r) + more + end) == Ladder(true, [r] + tail)
  {
    RowRead(r, more + end);
    Assoc(RowText(r), more, end);
  }

  /** The reader undoes the row loop, whatever follows the ladder. */
  lemma RowsRead(rows: Rows, post: string)
    requires Prices64(rows)
    ensures ReadRows(RowsText(rows) + ("]" + post)) == Ladder(true, rows)
  {
    if rows == [] {
      EndRead(post);
    } else {
      MoreRowsRead(rows[1..], post);
      FirstRead(rows[0], Join(CommaRow, rows[1..]), "]" + post, rows[1..]);
      HeadTail(rows);
    }
  }

  // ---- a ladder is a quote-free value ----------------------------------------------------------

  /** Characters that a JSON string would have to quote or escape. */
  predicate Loud(c: char) {
    c == '"' || c == '\n'
  }

  ghost predicate Quiet(s: string) {
    forall i :: 0 <= i < |s| ==> !Loud(s[i])
  }

  lemma RowQuiet(r: (Price, Qty))
    ensures Quiet(RowText(r)) && Quiet(CommaRow(r))
  {
    IntStrQuiet(r.0);
    IntStrQuiet(r.1);
  }

  lemma IntStrQuiet(v: int)
    ensures Quiet(IntStr(v))
  {
    NatStrDigits(if v < 0 then -v else v);
  }

  lemma {:induction false} RowsQuiet(rows: Rows)
    ensures Quiet(Join(CommaRow, rows))
  {
    if rows != [] {
      RowQuiet(rows[0]);
      RowsQuiet(rows[1..]);
    }
  }

  lemma LadderPlain(rows: Rows)
    ensures PlainRaw(LadderText(rows))
  {
    if rows != [] {
      RowQuiet(rows[0]);
      RowsQuiet(rows[1..]);
    }
    var s := LadderText(rows);
    assert s[0] == '[';
    assert Quiet(RowsText(rows));
    assert Quiet(s);
  }

  // ---- depth messages ----------------------------------------------------------------------------

  function DepthFields(symbol: string, bids: Rows, asks: Rows): seq<Field> {
    [Text("t", "depth"), Raw("v", IntStr(1)), Text("symbol", symbol), Raw("bids", LadderText(bids)),
     Raw("asks", LadderText(asks))]
  }

  lemma DepthFieldsOk(symbol: string, bids: Rows, asks: Rows)
    ensures FieldsOk(DepthFields(symbol, bids, asks))
    ensures forall j :: 0 <= j < 5 ==> First(DepthFields(symbol, bids, asks), j)
  {
    IntStrPlain(1);
    LadderPlain(bids);
    LadderPlain(asks);
    DistinctKeys(DepthFields(symbol, bids, asks));
  }

  /** encode_depth. */
  method EncodeDepth(symbol: string, bids: Rows, asks: Rows) returns (s: string)
    ensures s == Line(DepthFields(symbol, bids, asks))
  {
    s := WriteDepth(symbol, bids, asks, DepthFields(symbol, bids, asks));
  }

  method WriteDepth(symbol: string, bids: Rows, asks: Rows, ghost fs: seq<Field>) returns (s: string)
    requires |fs| == 5 && fs[0] == Text("t", "depth") && fs[1] == Raw("v", IntStr(1)) && fs[2] == Text("symbol", symbol)
    requires fs[3] == Raw("bids", LadderText(bids)) && fs[4] == Raw("asks", LadderText(asks))
    ensures s == Line(fs)
  {
    s := Start("depth", fs);
    s := AddText(s, "symbol", symbol, fs, 2);
    s := AddLadder(s, "bids", bids, fs, 3);
    s := AddLadder(s, "asks", asks, fs, 4);
    s := End(s, fs);
  }

  /** Append a comma, the quoted key, a colon and the bracketed rows. */
  method AddLadder(s: string, key: string, rows: Rows, ghost fs: seq<Field>, ghost i: nat) returns (s': string)
    requires 0 < i < |fs| && s == Open(fs[..i]) && fs[i] == Raw(key, LadderText(rows))
    ensures s' == Open(fs[..i + 1])
  {
    var text := AppendRows("[", rows);
    s' := AddRaw(s, key, text + "]", fs, i);
  }

  datatype DepthMsg = DepthMsg(symbol: string, bids: Rows, asks: Rows)

  /** parse_depth into variables that held `was`: only the symbol is required. */
  function ParseDepth(line: string, was: DepthMsg): Option<DepthMsg> {
    var symbol := GetStr(line, "symbol");
    if symbol.None? then None
    else Some(DepthMsg(symbol.value, GetLevels(line, "bids", was.bids).rows, GetLevels(line, "asks", was.asks).rows))
  }

  /** A ladder field comes back exactly. */
  lemma GetsLadder(fs: seq<Field>, j: nat, rows: Rows, was: Rows)
    requires First(fs, j) && Prices64(rows)
    requires fs[j].Raw? && fs[j].text == LadderText(rows)
    ensures GetLevels(Line(fs), fs[j].key, was) == Ladder(true, rows)
  {
    var post := After(fs[j + 1..]);
    ValueAt(fs, j);
    RowsRead(rows, post);
    LadderSplit(RowsText(rows), post);
  }

  lemma LadderSplit(rows: string, post: string)
    ensures var s := "[" + rows + "]" + post;
            s != [] && s[0] == '[' && s[1..] == rows + ("]" + post)
  {
  }

  /** parse_depth undoes encode_depth for every symbol string and every two ladders,
      empty ones included, whatever the variables held before. */
  lemma DepthRoundTrip(symbol: string, bids: Rows, asks: Rows, was: DepthMsg)
    requires Prices64(bids) && Prices64(asks)
    ensures ParseDepth(Line(DepthFields(symbol, bids, asks)), was) == Some(DepthMsg(symbol, bids, asks))
  {
    var fs := DepthFields(symbol, bids, asks);
    DepthFieldsOk(symbol, bids, asks);
    DepthValues(fs, symbol, bids, asks, was);
  }

  lemma DepthValues(fs: seq<Field>, symbol: string, bids: Rows, asks: Rows, was: DepthMsg)
    requires |fs| == 5 && (forall j :: 0 <= j < 5 ==> First(fs, j)) && Prices64(bids) && Prices64(asks)
    requires fs[2] == Text("symbol", symbol) && fs[3] == Raw("bids", LadderText(bids)) && fs[4] == Raw("asks", LadderText(asks))
    ensures GetStr(Line(fs), "symbol") == Some(symbol)
    ensures GetLevels(Line(fs), "bids", was.bids) == Ladder(true, bids)
    ensures GetLevels(Line(fs), "asks", was.asks) == Ladder(true, asks)
  {
    GetsText(fs, 2);
    GetsLadder(fs, 3, bids, was.bids);
    GetsLadder(fs, 4, asks, was.asks);
  }

  lemma DepthOnOneLine(symbol: string, bids: Rows, asks: Rows)
    ensures OneLine(Line(DepthFields(symbol, bids, asks)))
  {
    DepthFieldsOk(symbol, bids, asks);
    LineIsOneLine(DepthFields(symbol, bids, asks));
  }

  /** A snapshot's line, spelled out. */
  lemma DepthLine(symbol: string, bids: Rows, asks: Rows)
    ensures Line(DepthFields(symbol, bids, asks)) ==
            "{\"t\":\"depth\",\"v\":1" + ",\"symbol\":\"" + Esc(symbol) + "\"" + ",\"bids\":" + LadderText(bids)
            + ",\"asks\":" + LadderText(asks) + "}\n"
  {
    DepthLineOf(symbol, LadderText(bids), LadderText(asks), DepthFields(symbol, bids, asks));
  }

  lemma DepthLineOf(symbol: string, bids: string, asks: string, fs: seq<Field>)
    requires |fs| == 5 && fs[0] == Text("t", "depth") && fs[1] == Raw("v", IntStr(1)) && fs[2] == Text("symbol", symbol)
    requires fs[3] == Raw("bids", bids) && fs[4] == Raw("asks", asks)
    ensures Line(fs) == "{\"t\":\"depth\",\"v\":1" + ",\"symbol\":\"" + Esc(symbol) + "\"" + ",\"bids\":" + bids
                        + ",\"asks\":" + asks + "}\n"
  {
    var s := "{\"t\":\"depth\",\"v\":1";
    OpenStep("depth", s, fs);
    DepthLineRest(s, symbol, bids, asks, fs);
  }

  lemma BidsStep(s: string, text: string, fs: seq<Field>, i: nat)
    requires 0 < i < |fs| && s == Open(fs[..i]) && fs[i] == Raw("bids", text)
    ensures s + ",\"bids\":" + text == Open(fs[..i + 1])
  {
    RawStep(s, ",\"bids\":", text, "bids", fs, i);
  }

  lemma AsksStep(s: string, text: string, fs: seq<Field>, i: nat)
    requires 0 < i < |fs| && s == Open(fs[..i]) && fs[i] == Raw("asks", text)
    ensures s + ",\"asks\":" + text == Open(fs[..i + 1])
  {
    RawStep(s, ",\"asks\":", text, "asks", fs, i);
  }

  lemma DepthLineRest(s: string, symbol: string, bids: string, asks: string, fs: seq<Field>)
    requires |fs| == 5 && fs[2] == Text("symbol", symbol) && fs[3] == Raw("bids", bids) && fs[4] == Raw("asks", asks)
    requires s == Open(fs[..2])
    ensures Line(fs) == s + ",\"symbol\":\"" + Esc(symbol) + "\"" + ",\"bids\":" + bids + ",\"asks\":" + asks + "}\n"
  {
    var t := s + ",\"symbol\":\"" + Esc(symbol) + "\"";
    SymbolStep(s, Esc(symbol), symbol, fs, 2);
    var u := t + ",\"bids\":" + bids;
    BidsStep(t, bids, fs, 3);
    AsksStep(u, asks, fs, 4);
    EndStep(u + ",\"asks\":" + asks, fs);
  }

  lemma DepthKindRead(symbol: string, bids: Rows, asks: Rows)
    ensures var line := Line(DepthFields(symbol, bids, asks));
            GetStr(line, "t") == Some("depth") && GetInt(line, "v") == Some(1)
  {
    DepthFieldsOk(symbol, bids, asks);
    KindOf(DepthFields(symbol, bids, asks), "depth");
  }

  /** parse_depth on any line: only the symbol is required. A ladder whose key is missing or
      whose value is no bracket keeps what was there; one with a malformed pair keeps the
      rows before it. */
  lemma ParseDepthIs(line: string, was: DepthMsg)
    ensures var r := ParseDepth(line, was);
            && (r.Some? <==> GetStr(line, "symbol").Some?)
            && (r.Some? ==> r.value.symbol == GetStr(line, "symbol").value)
            && (r.Some? && JsonLine.At(line, "bids").None? ==> r.value.bids == was.bids)
            && (r.Some? && JsonLine.At(line, "asks").None? ==> r.value.asks == was.asks)
  {
  }

  lemma LevelsCases(line: string, key: string, was: Rows, t: string)
    requires JsonLine.At(line, key) == Some(t)
    ensures t == [] || t[0] != '[' ==> GetLevels(line, key, was) == Ladder(false, was)
    ensures t != [] && t[0] == '[' ==> GetLevels(line, key, was) == ReadRows(t[1..])
  {
  }

  /** Reading stops well at a bracket or at the end of the text, badly at a pair without its
      price, and skips any other character between pairs. */
  lemma ReadRowsCases(c: char, t: string)
    ensures ReadRows("") == Ladder(true, []) && ReadRows("]" + t) == Ladder(true, [])
    ensures c != '[' && c != ']' ==> ReadRows([c] + t) == ReadRows(t)
    ensures StrToLL(t).None? ==> ReadRows("[" + t) == Ladder(false, [])
  {
    assert ([c] + t)[1..] == t && ("[" + t)[1..] == t;
  }

  /** A pair may be spaced out and may hold more than two numbers: what follows the second
      up to the bracket is passed over. */
  lemma {:induction false} SepsThen(seps: string, rest: string)
    requires (forall i :: 0 <= i < |seps| ==> seps[i] == ',' || seps[i] == ' ') && (rest == [] || (rest[0] != ',' && rest[0] != ' '))
    ensures (seps + rest)[SepSpan(seps + rest)..] == rest
  {
    if seps == [] {
      assert seps + rest == rest;
    } else {
      SepsThen(seps[1..], rest);
      TailOfConcat(seps, rest);
    }
  }

  lemma {:induction false} JunkThen(junk: string, post: string)
    requires ']' !in junk
    ensures PastBracket(junk + ("]" + post)) == post && PastBracket(junk) == []
  {
    var end := "]" + post;
    if junk == [] {
      assert junk + end == end && end[1..] == post;
    } else {
      JunkThen(junk[1..], post);
      TailOfConcat(junk, end);
    }
  }
}
