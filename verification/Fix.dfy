/** The FIX 4.4 tag=value codec: BodyLength and CheckSum of the standard header and
    trailer. Text is a sequence of bytes, written as characters below 256. */
module Fix {
  import opened Prelude
  import opened Decimal
  import opened Seqs

  const SOH: char := '\U{1}'

  type Fields = seq<(int, string)>

  /** The 32-bit int a tag is kept in. */
  predicate TagOk(t: int) {
    -0x8000_0000 <= t <= 0x7FFF_FFFF
  }

  predicate FieldOk(f: (int, string)) {
    TagOk(f.0) && SOH !in f.1
  }

  ghost predicate FieldsOk(fs: Fields) {
    forall i :: 0 <= i < |fs| ==> FieldOk(fs[i])
  }

  // ---- writing ----------------------------------------------------------------------

  function Sum(s: string): nat {
    if s == [] then 0 else Sum(s[..|s| - 1]) + s[|s| - 1] as int
  }

  method Checksum(s: string) returns (c: nat)
    ensures c == Sum(s) % 256
  {
    var sum := 0;
    var i := 0;
    while i < |s|
      invariant 0 <= i <= |s| && 0 <= sum < 0x1_0000_0000 && sum % 256 == Sum(s[..i]) % 256
    {
      assert s[..i + 1][..i] == s[..i];
      AddByte(sum, Sum(s[..i]), s[i] as int);
      sum := (sum + s[i] as int) % 0x1_0000_0000;
      i := i + 1;
    }
    assert s[..i] == s;
    c := sum % 256;
  }

  /** The sum of the bytes, and nothing more. */
  lemma {:induction false} SumSplits(a: string, b: string, c: char)
    ensures Sum("") == 0 && Sum([c]) == c as int && Sum(a + b) == Sum(a) + Sum(b)
    decreases |b|
  {
    assert [c][..0] == [];
    if b == [] {
      assert a + b == a;
    } else {
      var n := |b| - 1;
      SumSplits(a, b[..n], c);
      assert (a + b)[..|a + b| - 1] == a + b[..n];
    }
  }

  /** 32-bit wrap-around does not show in the low byte. */
  lemma AddByte(sum: int, total: int, x: int)
    requires sum % 256 == total % 256
    ensures (sum + x) % 0x1_0000_0000 % 256 == (total + x) % 256
  {
    var y := sum + x;
    var q := y / 0x1_0000_0000;
    assert y == 256 * (0x100_0000 * q) + y % 0x1_0000_0000;
  }

  function FieldText(f: (int, string)): string {
    IntStr(f.0) + "=" + f.1 + [SOH]
  }

  function FieldsText(fs: Fields): string {
    Join(FieldText, fs)
  }

  /** "%03u" of a checksum. */
  function Pad3(c: nat): string
    requires c < 256
  {
    [Digit(c / 100), Digit(c / 10 % 10), Digit(c % 10)]
  }

  /** The fields between BeginString/BodyLength and CheckSum. */
  function BodyFields(msgType: string, body: Fields): Fields {
    [(35, msgType)] + body
  }

  /** The fields of a whole message up to CheckSum. */
  function Signed(begin: string, msgType: string, body: Fields): Fields {
    [(8, begin), (9, NatStr(|FieldsText(BodyFields(msgType, body))|))] + BodyFields(msgType, body)
  }

  function All(begin: string, msgType: string, body: Fields): Fields {
    var s := Signed(begin, msgType, body);
    s + [(10, Pad3(Sum(FieldsText(s)) % 256))]
  }

  /** The standard header and trailer around the body, and the separators. */
  lemma StandardFields(begin: string, msgType: string, body: Fields)
    ensures var all := All(begin, msgType, body);
            && |all| == |body| + 4 && all[0] == (8, begin) && all[1].0 == 9 && all[2] == (35, msgType)
            && all[3..|all| - 1] == body && all[|all| - 1].0 == 10
    ensures forall t, v :: FieldText((t, v)) == IntStr(t) + "=" + v + ['\U{1}']
  {
  }

  lemma TextConcat(a: Fields, b: Fields)
    ensures FieldsText(a + b) == FieldsText(a) + FieldsText(b)
  {
    JoinConcat(FieldText, a, b);
  }

  lemma TextOne(f: (int, string))
    ensures FieldsText([f]) == FieldText(f)
  {
    JoinOne(FieldText, f);
  }

  /** MsgType and the body fields. */
  method EncodeBody(msgType: string, body: Fields) returns (b: string)
    ensures b == FieldsText(BodyFields(msgType, body))
  {
    b := "35=" + msgType + [SOH];
    var i := 0;
    ghost var head := [(35, msgType)];
    TextOne((35, msgType));
    assert IntStr(35) == "35";
    assert head + body[..0] == head;
    while i < |body|
      invariant 0 <= i <= |body|
      invariant b == FieldsText(head + body[..i])
    {
      TextSnoc(head + body[..i], body[i], b);
      assert head + body[..i + 1] == (head + body[..i]) + [body[i]];
      b := b + IntStr(body[i].0) + "=" + body[i].1 + [SOH];
      i := i + 1;
    }
    assert body[..i] == body;
  }

  lemma TextSnoc(fs: Fields, f: (int, string), text: string)
    requires text == FieldsText(fs)
    ensures text + IntStr(f.0) + "=" + f.1 + [SOH] == FieldsText(fs + [f])
  {
    TextConcat(fs, [f]);
    TextOne(f);
    FieldPieces(text, IntStr(f.0), "=", f.1, [SOH]);
  }

  lemma FieldPieces(a: string, b: string, c: string, d: string, e: string)
    ensures a + b + c + d + e == a + (b + c + d + e)
  {
  }

  /** Encode a whole message: head, body and trailer assembled as strings. */
  method Encode(begin: string, msgType: string, body: Fields) returns (m: string)
    ensures m == FieldsText(All(begin, msgType, body))
  {
    var b := EncodeBody(msgType, body);
    var head := "8=" + begin + [SOH] + "9=" + NatStr(|b|) + [SOH];
    m := head + b;
    SignedText(begin, msgType, body);
    var cs := Checksum(m);
    Seal(Signed(begin, msgType, body), m, Pad3(cs));
    m := m + "10=" + Pad3(cs) + [SOH];
  }

  /** The CheckSum field as the encoder appends it. */
  lemma Seal(fs: Fields, text: string, digits: string)
    requires text == FieldsText(fs)
    ensures text + "10=" + digits + [SOH] == FieldsText(fs + [(10, digits)])
  {
    TextSnoc(fs, (10, digits), text);
    assert IntStr(10) == "10";
    assert text + "10" + "=" == text + "10=";
  }

  lemma SignedText(begin: string, msgType: string, body: Fields)
    ensures var b := FieldsText(BodyFields(msgType, body));
            FieldsText(Signed(begin, msgType, body))
            == ("8=" + begin + [SOH] + "9=" + NatStr(|b|) + [SOH]) + b
  {
    var b := FieldsText(BodyFields(msgType, body));
    var f8, f9 := (8, begin), (9, NatStr(|b|));
    TextConcat([f8, f9], BodyFields(msgType, body));
    TextConcat([f8], [f9]);
    TextOne(f8);
    TextOne(f9);
    assert [f8, f9] == [f8] + [f9];
    assert IntStr(8) == "8" && IntStr(9) == "9";
    HeadText(begin, NatStr(|b|));
  }

  lemma HeadText(begin: string, len: string)
    ensures "8=" + begin + [SOH] + "9=" + len + [SOH] == ("8" + "=" + begin + [SOH]) + ("9" + "=" + len + [SOH])
  {
  }

  // ---- reading ------------------------------------------------------------------------

  /** The first position of c, or the length. */
  function Find(s: string, c: char): (i: nat)
    ensures i <= |s| && (i < |s| ==> s[i] == c) && forall j :: 0 <= j < i ==> s[j] != c
  {
    if s == [] || s[0] == c then 0 else 1 + Find(s[1..], c)
  }

  /** One tag=value field off the front: its value and where the next one starts. */
  function TakeField(s: string): (r: Option<((int, string), nat)>)
    ensures r.Some? ==> 0 < r.value.1 <= |s|
  {
    var eq := Find(s, '=');
    if eq == |s| then None
    else
      var v := s[eq + 1..];
      var n := Find(v, SOH);
      if n == |v| then None else Some(((Atoi(s[..eq]), v[..n]), eq + 1 + n + 1))
  }

  /** A whole field: the text before the first '=' is the tag, the text from there to the
      next SOH the value. Without an '=', or without an SOH after it, there is none. */
  lemma TakeFieldIs(tag: string, value: string, rest: string)
    requires '=' !in tag && SOH !in value
    ensures TakeField(tag + "=" + value + [SOH] + rest) == Some(((Atoi(tag), value), |tag| + 1 + |value| + 1))
    ensures TakeField(tag).None? && TakeField(tag + "=" + value).None?
  {
    SplitField(tag, value, rest);
    FindFirst(tag, '=', value + [SOH] + rest);
    FindFirst(value, SOH, rest);
    var t := tag + "=" + value;
    assert tag + ['='] + value == t;
    FindFirst(tag, '=', value);
    assert t[|tag| + 1..] == value;
  }

  function Parsed(s: string): Fields {
    var f := TakeField(s);
    if f.None? then [] else [f.value.0] + Parsed(s[f.value.1..])
  }

  /** The fields from position i on. */
  ghost function Remaining(s: string, i: nat): Fields
    requires i <= |s|
  {
    Parsed(s[i..])
  }

  /** One round: the field at i and the start of the next, if a whole field is there. */
  method TakeAt(s: string, i: nat) returns (found: bool, f: (int, string), next: nat)
    requires i <= |s|
    ensures !found ==> Remaining(s, i) == []
    ensures found ==> i < next <= |s| && Remaining(s, i) == [f] + Remaining(s, next)
  {
    var r := TakeField(s[i..]);
    found, f, next := r.Some?, (0, ""), i;
    if found {
      f, next := r.value.0, i + r.value.1;
      NextField(s, i, f, next);
    }
  }

  method Parse(s: string) returns (ok: bool, fs: Fields)
    ensures fs == Parsed(s) && ok == (fs != [])
  {
    fs := [];
    var i := 0;
    assert s[0..] == s;
    ghost var goal, later := Remaining(s, 0), Remaining(s, 0);
    while i < |s|
      invariant 0 <= i <= |s| && later == Remaining(s, i)
      invariant fs + later == goal
      decreases |s| - i
    {
      var found, f, next := TakeAt(s, i);
      if !found { break; }
      later := Remaining(s, next);
      Assoc(fs, [f], later);
      fs := fs + [f];
      i := next;
    }
    if i >= |s| { NoField(s, i); }
    assert fs + [] == fs;
    ok := fs != [];
  }

  lemma NextField(s: string, i: nat, f: (int, string), i': nat)
    requires i <= i' <= |s| && TakeField(s[i..]) == Some((f, i' - i))
    ensures Remaining(s, i) == [f] + Remaining(s, i')
  {
    assert s[i..][i' - i..] == s[i'..];
  }

  lemma NoField(s: string, i: nat)
    requires i == |s|
    ensures Remaining(s, i) == []
  {
  }

  lemma FindFirst(a: string, c: char, rest: string)
    requires c !in a
    ensures Find(a + [c] + rest, c) == |a|
  {
    var s := a + [c] + rest;
    assert s[|a|] == c;
    assert forall j :: 0 <= j < |a| ==> s[j] == a[j];
  }

  lemma TakeWritten(f: (int, string), rest: string)
    requires FieldOk(f)
    ensures TakeField(FieldText(f) + rest) == Some((f, |FieldText(f)|))
  {
    var t := IntStr(f.0);
    IntStrChars(f.0, '=');
    SplitField(t, f.1, rest);
    FindFirst(t, '=', f.1 + [SOH] + rest);
    FindFirst(f.1, SOH, rest);
    AtoiReads(f.0);
  }

  lemma SplitField(t: string, v: string, rest: string)
    ensures var s := t + "=" + v + [SOH] + rest;
            var u := v + [SOH] + rest;
            s == t + ['='] + u && s[..|t|] == t && s[|t| + 1..] == u && u[..|v|] == v
  {
  }

  lemma AtoiReads(v: int)
    requires TagOk(v)
    ensures Atoi(IntStr(v)) == v
  {
    ReadBack(v, "");
    assert IntStr(v) + "" == IntStr(v);
  }

  lemma {:induction false} ParseWritten(fs: Fields)
    requires FieldsOk(fs)
    ensures Parsed(FieldsText(fs)) == fs
  {
    if fs != [] {
      ParseWritten(fs[1..]);
      ParseCons(fs[0], FieldsText(fs[1..]));
      HeadTail(fs);
    }
  }

  lemma ParseCons(f: (int, string), rest: string)
    requires FieldOk(f)
    ensures Parsed(FieldText(f) + rest) == [f] + Parsed(rest)
  {
    TakeWritten(f, rest);
    Parts(FieldText(f), rest);
  }

  /** A value holding SOH is cut at its first one. */
  lemma TakeCut(f: (int, string), rest: string)
    requires SOH in f.1
    ensures var r := TakeField(FieldText(f) + rest); r.Some? && |r.value.0.1| < |f.1|
  {
    var t, u := IntStr(f.0), f.1 + [SOH] + rest;
    IntStrChars(f.0, '=');
    SplitField(t, f.1, rest);
    FindFirst(t, '=', u);
    var k :| 0 <= k < |f.1| && f.1[k] == SOH;
    assert u[k] == SOH;
  }

  lemma ParseCut(f: (int, string), rest: string)
    requires SOH in f.1
    ensures var fs := Parsed(FieldText(f) + rest); fs != [] && fs[0] != f
  {
    TakeCut(f, rest);
  }

  ghost predicate TagsOk(fs: Fields) {
    forall i :: 0 <= i < |fs| ==> TagOk(fs[i].0)
  }

  /** Fields come back from their text exactly when no value holds SOH. */
  lemma {:induction false} ParseReturnsIff(fs: Fields)
    requires TagsOk(fs)
    ensures Parsed(FieldsText(fs)) == fs <==> FieldsOk(fs)
  {
    if FieldsOk(fs) {
      ParseWritten(fs);
    } else {
      var f, t := fs[0], fs[1..];
      if SOH in f.1 {
        ParseCut(f, FieldsText(t));
      } else {
        ParseCons(f, FieldsText(t));
        ParseReturnsIff(t);
        if FieldsOk(t) { TailOk(fs); }
        assert ([f] + Parsed(FieldsText(t)))[1..] == Parsed(FieldsText(t));
      }
    }
  }

  lemma TailOk(fs: Fields)
    requires fs != [] && FieldOk(fs[0]) && FieldsOk(fs[1..])
    ensures FieldsOk(fs)
  {
    assert forall i :: 1 <= i < |fs| ==> fs[i] == fs[1..][i - 1];
  }

  /** parse(encode(...)) is BeginString, BodyLength, MsgType, the body fields in order and
      CheckSum, every field exactly as written, if and only if no value holds SOH. */
  lemma ParseEncode(begin: string, msgType: string, body: Fields)
    requires TagsOk(body)
    ensures Parsed(FieldsText(All(begin, msgType, body))) == All(begin, msgType, body)
            <==> SOH !in begin && SOH !in msgType && FieldsOk(body)
  {
    var all := All(begin, msgType, body);
    AllOkIff(begin, msgType, body);
    ParseReturnsIff(all);
  }

  lemma AllOkIff(begin: string, msgType: string, body: Fields)
    requires TagsOk(body)
    ensures var all := All(begin, msgType, body);
            TagsOk(all) && (FieldsOk(all) <==> SOH !in begin && SOH !in msgType && FieldsOk(body))
  {
    var all := All(begin, msgType, body);
    NatStrDigits(|FieldsText(BodyFields(msgType, body))|);
    var n := |body|;
    assert all[0] == (8, begin) && all[2] == (35, msgType);
    assert forall i :: 0 <= i < n ==> all[i + 3] == body[i];
    assert FieldOk(all[1]) && FieldOk(all[n + 3]);
    forall i | 0 <= i < |all| ensures TagOk(all[i].0) {
      if 3 <= i < 3 + n { assert all[i] == body[i - 3]; }
    }
    if FieldsOk(all) {
      forall i | 0 <= i < n ensures FieldOk(body[i]) { assert FieldOk(all[i + 3]); }
      assert FieldOk(all[0]) && FieldOk(all[2]);
    } else if SOH !in begin && SOH !in msgType && FieldsOk(body) {
      forall i | 0 <= i < |all| ensures FieldOk(all[i]) {
        if 3 <= i < 3 + n { assert all[i] == body[i - 3]; }
      }
    }
  }

  // ---- the trailer ------------------------------------------------------------------

  const TRAILER: string := [SOH, '1', '0', '=']

  predicate MatchAt(s: string, p: int) {
    0 <= p && p + 4 <= |s| && s[p..p + 4] == TRAILER
  }

  /** rfind(SOH "10=") at or before `from`. */
  function RFind(s: string, from: int): (r: Option<nat>)
    ensures r.Some? ==> r.value <= from && MatchAt(s, r.value) && forall q :: r.value < q <= from ==> !MatchAt(s, q)
    ensures r.None? ==> forall q :: 0 <= q <= from ==> !MatchAt(s, q)
    decreases from + 1
  {
    if from < 0 then None
    else if MatchAt(s, from) then Some(from)
    else RFind(s, from - 1)
  }

  function Cut(s: string, n: nat): string {
    if n <= |s| then s[..n] else s
  }

  predicate ValidChecksum(s: string) {
    var p := RFind(s, |s|);
    p.Some? && Atoi(Cut(s[p.value + 4..], 3)) == Sum(s[..p.value + 1]) % 256
  }

  /** A message validates exactly when it has a trailer and the up to three characters after
      its last one spell the sum of all bytes before it, its SOH included. */
  lemma ValidIff(s: string)
    ensures ValidChecksum(s) <==>
            exists p :: 0 <= p && MatchAt(s, p) && (forall q :: p < q <= |s| ==> !MatchAt(s, q))
                        && Atoi(Cut(s[p + 4..], 3)) == Sum(s[..p + 1]) % 256
  {
    var p := RFind(s, |s|);
  }

  /** In particular a message cut before its trailer does not. */
  lemma NoTrailerFails(s: string)
    requires forall p :: !MatchAt(s, p)
    ensures !ValidChecksum(s)
  {
  }

  /** The trailer is the byte 1 and then "10=". */
  lemma TrailerIs(s: string, p: nat)
    ensures MatchAt(s, p) <==> p + 4 <= |s| && s[p] as int == 1 && s[p + 1] == '1' && s[p + 2] == '0' && s[p + 3] == '='
  {
    if p + 4 <= |s| {
      var t := s[p..p + 4];
      assert t[0] == s[p] && t[1] == s[p + 1] && t[2] == s[p + 2] && t[3] == s[p + 3];
      if s[p] == SOH && s[p + 1] == '1' && s[p + 2] == '0' && s[p + 3] == '=' { assert t == TRAILER; }
    }
  }

  /** A text of signed bytes ending in SOH, then the trailer. */
  function Sealed(text: string, digits: string): string {
    text + "10=" + digits + [SOH]
  }

  lemma SealedFind(text: string, digits: string)
    requires text != "" && text[|text| - 1] == SOH && |digits| == 3 && AllDigits(digits)
    ensures var s := Sealed(text, digits);
            RFind(s, |s|) == Some(|text| - 1) && s[..|text|] == text && Cut(s[|text| + 3..], 3) == digits
  {
    var s := Sealed(text, digits);
    var p := |text| - 1;
    assert s[p..p + 4] == TRAILER;
    assert MatchAt(s, p);
    forall q | p < q <= |s| ensures !MatchAt(s, q) {
      if q + 4 <= |s| {
        assert s[q] != SOH;
        assert s[q..q + 4][0] == s[q];
      }
    }
    assert s[|text| + 3..] == digits + [SOH];
  }

  lemma Pad3Reads(c: nat)
    requires c < 256
    ensures |Pad3(c)| == 3 && AllDigits(Pad3(c)) && Atoi(Pad3(c)) == c
  {
    var d := Pad3(c);
    SpanOfDigits(d, "");
    assert d + "" == d && d[..3] == d;
    assert d[..2][..1] == d[..1] && d[..1][..0] == [];
    assert DigitsValue(d[..1]) == c / 100;
    assert DigitsValue(d[..2]) == c / 10;
    assert DigitsValue(d) == c;
    ReadPlain(d);
    ReadDigitsAt(d, d, false, c);
  }

  /** The bytes the checksum covers, and the message as those bytes and the trailer. */
  lemma EncodeIsSealed(begin: string, msgType: string, body: Fields)
    ensures var text := FieldsText(Signed(begin, msgType, body));
            && text != "" && text[|text| - 1] == SOH
            && FieldsText(All(begin, msgType, body)) == Sealed(text, Pad3(Sum(text) % 256))
  {
    var signed := Signed(begin, msgType, body);
    var text := FieldsText(signed);
    EndsInSoh(signed);
    Seal(signed, text, Pad3(Sum(text) % 256));
  }

  lemma EndsInSoh(fs: Fields)
    requires fs != []
    ensures var text := FieldsText(fs); text != "" && text[|text| - 1] == SOH
  {
    var n := |fs| - 1;
    TextConcat(fs[..n], [fs[n]]);
    TextOne(fs[n]);
    assert fs == fs[..n] + [fs[n]];
  }

  /** Every encoded message validates. */
  lemma EncodedValidates(begin: string, msgType: string, body: Fields)
    ensures ValidChecksum(FieldsText(All(begin, msgType, body)))
  {
    var text := FieldsText(Signed(begin, msgType, body));
    EncodeIsSealed(begin, msgType, body);
    Pad3Reads(Sum(text) % 256);
    SealedFind(text, Pad3(Sum(text) % 256));
  }

  lemma {:induction false} SumUpdate(s: string, i: nat, c: char)
    requires i < |s|
    ensures Sum(s[i := c]) == Sum(s) - s[i] as int + c as int
  {
    var n := |s| - 1;
    if i < n {
      SumUpdate(s[..n], i, c);
      assert s[i := c][..n] == s[..n][i := c];
    } else {
      assert s[i := c][..n] == s[..n];
    }
  }

  /** Changing any one byte before the SOH that precedes "10=" is always detected. */
  lemma TamperDetected(begin: string, msgType: string, body: Fields, i: nat, c: char)
    requires i < |FieldsText(Signed(begin, msgType, body))| - 1
    ensures i < |FieldsText(All(begin, msgType, body))|
    ensures var m := FieldsText(All(begin, msgType, body));
            m[i] as int < 256 && c as int < 256 && m[i] != c ==> !ValidChecksum(m[i := c])
  {
    var text := FieldsText(Signed(begin, msgType, body));
    EncodeIsSealed(begin, msgType, body);
    TamperSealed(text, Sum(text) % 256, i, c);
  }

  lemma TamperSealed(text: string, k: nat, i: nat, c: char)
    requires text != "" && text[|text| - 1] == SOH && k == Sum(text) % 256 && i < |text| - 1
    ensures var m := Sealed(text, Pad3(k));
            i < |m| && (m[i] as int < 256 && c as int < 256 && m[i] != c ==> !ValidChecksum(m[i := c]))
  {
    Pad3Reads(k);
    SealedUpdate(text, Pad3(k), i, c);
    SealedValid(text[i := c], Pad3(k));
    if text[i] as int < 256 && c as int < 256 && text[i] != c {
      SumShows(text, i, c);
    }
  }

  lemma SumShows(text: string, i: nat, c: char)
    requires i < |text| && text[i] as int < 256 && c as int < 256 && text[i] != c
    ensures Sum(text[i := c]) % 256 != Sum(text) % 256
  {
    SumUpdate(text, i, c);
    ByteShows(Sum(text), text[i] as int, c as int);
  }

  /** The checksum tells any two bytes apart. */
  lemma ByteShows(sum: int, x: int, y: int)
    requires 0 <= x < 256 && 0 <= y < 256 && x != y
    ensures (sum - x + y) % 256 != sum % 256
  {
  }

  lemma SealedUpdate(text: string, digits: string, i: nat, c: char)
    requires i < |text|
    ensures var m := Sealed(text, digits); i < |m| && m[i] == text[i] && m[i := c] == Sealed(text[i := c], digits)
  {
  }

  /** What validates is decided by the bytes before the trailer and the three digits. */
  lemma SealedValid(text: string, digits: string)
    requires text != "" && text[|text| - 1] == SOH && |digits| == 3 && AllDigits(digits)
    ensures ValidChecksum(Sealed(text, digits)) <==> Atoi(digits) == Sum(text) % 256
  {
    SealedFind(text, digits);
  }

  /** BodyLength counts the bytes after its own field up to the CheckSum field. */
  lemma BodyLengthCounts(begin: string, msgType: string, body: Fields)
    ensures var m := FieldsText(All(begin, msgType, body));
            var all := All(begin, msgType, body);
            var start := |FieldText(all[0])| + |FieldText(all[1])|;
            var end := |m| - |FieldText(all[|all| - 1])|;
            && start <= end && m[start..end] == FieldsText(all[2..|all| - 1])
            && all[1] == (9, NatStr(end - start))
  {
    var all := All(begin, msgType, body);
    var f8, f9, f10 := all[0], all[1], all[|all| - 1];
    var mid := BodyFields(msgType, body);
    assert all == [f8] + [f9] + mid + [f10];
    WholeText(f8, f9, mid, f10);
    assert all[2..|all| - 1] == mid;
    Middle(FieldText(f8) + FieldText(f9), FieldsText(mid), FieldText(f10));
  }

  lemma WholeText(f8: (int, string), f9: (int, string), mid: Fields, f10: (int, string))
    ensures FieldsText([f8] + [f9] + mid + [f10]) == FieldText(f8) + FieldText(f9) + FieldsText(mid) + FieldText(f10)
  {
    TextConcat([f8] + [f9] + mid, [f10]);
    TextConcat([f8] + [f9], mid);
    TextConcat([f8], [f9]);
    TextOne(f8);
    TextOne(f9);
    TextOne(f10);
  }

  lemma Middle(h: string, mid: string, t: string)
    ensures (h + mid + t)[|h|..|h| + |mid|] == mid
  {
  }
}
