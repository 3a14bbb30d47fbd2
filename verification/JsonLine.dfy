/** One NDJSON line as a list of fields, and why the scanner finds exactly the field
    it is asked for whatever the string values contain. */
module JsonLine {
  import opened Prelude
  import opened Decimal
  import opened Json
  import opened Seqs

  /** "key":"escaped value" or "key":text, where text holds no quote. */
  datatype Field = Text(key: string, value: string) | Raw(key: string, text: string)

  ghost predicate PlainKey(k: string) {
    k != [] && forall i :: 0 <= i < |k| ==> 'a' <= k[i] <= 'z' || k[i] == '_'
  }

  ghost predicate PlainRaw(t: string) {
    t != [] && !Blank(t[0]) && '"' !in t && '\n' !in t
  }

  ghost predicate FieldOk(f: Field) {
    PlainKey(f.key) && (f.Raw? ==> PlainRaw(f.text))
  }

  ghost predicate FieldsOk(fs: seq<Field>) {
    forall i :: 0 <= i < |fs| ==> FieldOk(fs[i])
  }

  function ValueText(f: Field): string {
    match f
    case Text(_, v) => "\"" + Esc(v) + "\""
    case Raw(_, t) => t
  }

  function FieldText(f: Field): string {
    Quoted(f.key) + ":" + ValueText(f)
  }

  /** What follows a field when `gs` are still to come. */
  function After(gs: seq<Field>): (s: string)
    ensures |s| > 0 && (s[0] == ',' || s[0] == '}')
  {
    if gs == [] then "}\n" else "," + (FieldText(gs[0]) + After(gs[1..]))
  }

  /** The fields, comma separated, and the end of the line. */
  function Tail(fs: seq<Field>): string
    requires fs != []
  {
    FieldText(fs[0]) + After(fs[1..])
  }

  function Line(fs: seq<Field>): string
    requires fs != []
  {
    "{" + Tail(fs)
  }

  // ---- no key inside a field but its own ---------------------------------------------

  /** The character `j` places into the field, in context. */
  lemma InField(pre: string, f: Field, post: string, j: nat)
    requires j < |FieldText(f)| + |post|
    ensures var s := pre + FieldText(f) + post;
            s[|pre| + j] == if j < |FieldText(f)| then FieldText(f)[j] else post[j - |FieldText(f)|]
  {
  }

  /** A quoted key can match at a key's opening quote only if it is that key. */
  lemma SameKey(s: string, key: string, k: nat, own: string)
    requires PlainKey(key) && PlainKey(own) && QuotedAt(s, key, k) && QuotedAt(s, own, k)
    ensures key == own
  {
    QuotedChars(s, key, k);
    QuotedChars(s, own, k);
    assert |key| == |own|;
    assert forall i :: 0 <= i < |key| ==> key[i] == s[k + 1 + i] && own[i] == s[k + 1 + i];
  }

  lemma QuotedChars(s: string, key: string, k: nat)
    requires PlainKey(key) && QuotedAt(s, key, k)
    ensures forall i :: 0 <= i < |key| ==> s[k + 1 + i] == key[i] && s[k + 1 + i] != '"'
    ensures s[k + 1 + |key|] == '"'
  {
    var a := s[k..k + |key| + 2];
    assert forall i :: 0 <= i < |key| ==> a[1 + i] == key[i] && a[1 + i] == s[k + 1 + i];
    assert a[|key| + 1] == '"' && a[|key| + 1] == s[k + 1 + |key|];
  }

  /** A match needs a quote, with a key character after it. */
  lemma MatchStart(s: string, key: string, k: nat)
    requires PlainKey(key) && QuotedAt(s, key, k)
    ensures k + 1 < |s| && s[k] == '"' && s[k + 1] == key[0]
  {
    var a := s[k..k + |key| + 2];
    assert a[0] == s[k] && a[1] == s[k + 1];
  }

  /** A quote straight after a colon or a backslash is no key position. */
  lemma NotAtKey(s: string, k: nat)
    requires 0 < k <= |s| && (s[k - 1] == ':' || s[k - 1] == '\\')
    ensures !AtKey(s, k)
  {
  }

  /** Within a field only its own key position can match, and only its own key: not
      inside an escaped value, and not across the value's quotes. */
  lemma NoKeyInside(pre: string, f: Field, post: string, key: string, k: nat)
    requires FieldOk(f) && PlainKey(key) && post != [] && (post[0] == ',' || post[0] == '}')
    requires |pre| <= k < |pre| + |FieldText(f)|
    requires KeyAt(pre + FieldText(f) + post, key, k)
    ensures k == |pre| && key == f.key
  {
    var s := pre + FieldText(f) + post;
    var t, n, j := FieldText(f), |f.key|, k - |pre|;
    MatchStart(s, key, k);
    InField(pre, f, post, j);
    InField(pre, f, post, j + 1);
    if j == 0 {
      OwnKey(pre, f, post);
      SameKey(s, key, k, f.key);
    } else {
      InField(pre, f, post, j - 1);
      InsideField(f, j);
      if t[j - 1] == ':' || t[j - 1] == '\\' { NotAtKey(s, k); }
    }
  }

  lemma OwnKey(pre: string, f: Field, post: string)
    ensures QuotedAt(pre + FieldText(f) + post, f.key, |pre|)
  {
    var s := pre + FieldText(f) + post;
    assert s[|pre|..|pre| + |f.key| + 2] == Quoted(f.key);
  }

  /** A quote past a field's first character stands before the key's colon, ends the
      field, or follows a colon or a backslash. */
  lemma InsideField(f: Field, j: nat)
    requires FieldOk(f) && 0 < j < |FieldText(f)| && FieldText(f)[j] == '"'
    ensures var t := FieldText(f);
            (j + 1 < |t| && t[j + 1] == ':') || j + 1 == |t| || t[j - 1] == ':' || t[j - 1] == '\\'
  {
    var t, n := FieldText(f), |f.key|;
    var v := ValueText(f);
    assert forall i :: 0 <= i < n ==> t[i + 1] == f.key[i];
    assert t[n + 1] == '"' && t[n + 2] == ':';
    assert forall i :: 0 <= i < |v| ==> t[n + 3 + i] == v[i];
    if j >= n + 3 {
      var i := j - n - 3;
      assert v[i] == '"';
      if f.Text? && 0 < i < |v| - 1 {
        EscShape(f.value);
        assert v[i] == Esc(f.value)[i - 1] && v[i - 1] == Esc(f.value)[i - 2];
      }
    }
  }

  /** A field's own key is found where it stands, with its value right after the colon. */
  lemma KeyHere(pre: string, f: Field, post: string)
    requires FieldOk(f) && pre != [] && (pre[|pre| - 1] == '{' || pre[|pre| - 1] == ',')
    ensures var s := pre + FieldText(f) + post;
            && KeyAt(s, f.key, |pre|) && AfterKey(s, f.key, |pre|) == |pre| + |f.key| + 3
            && s[|pre| + |f.key| + 3..] == ValueText(f) + post
  {
    var s := pre + FieldText(f) + post;
    OwnKey(pre, f, post);
    ColonAt(pre, f, post);
    assert s[|pre| - 1] == pre[|pre| - 1];
    KeyAtFacts(s, f.key, |pre|, |pre| + |f.key| + 2);
  }

  lemma ColonAt(pre: string, f: Field, post: string)
    requires FieldOk(f)
    ensures var s := pre + FieldText(f) + post;
            var c := |pre| + |f.key| + 2;
            c + 1 < |s| && s[c] == ':' && s[c + 1..] == ValueText(f) + post && !Blank(s[c + 1])
  {
    var q, v := Quoted(f.key), ValueText(f);
    FieldInLine(pre, q, ":", v, post);
    ColonSplit(pre + q, v + post);
    assert v != [] && !Blank(v[0]) && (v + post)[0] == v[0];
  }

  lemma FieldInLine(a: string, b: string, c: string, d: string, e: string)
    ensures a + (b + c + d) + e == (a + b) + (c + (d + e))
  {
  }

  lemma ColonSplit(a: string, v: string)
    requires v != []
    ensures var s := a + (":" + v);
            s[|a|] == ':' && s[|a| + 1..] == v && s[|a| + 1] == v[0]
  {
  }

  lemma KeyAtFacts(s: string, key: string, k: nat, c: nat)
    requires 0 < k && c == k + |key| + 2 && c + 1 < |s| && QuotedAt(s, key, k)
    requires (s[k - 1] == '{' || s[k - 1] == ',') && s[c] == ':' && !Blank(s[c + 1])
    ensures KeyAt(s, key, k) && AfterKey(s, key, k) == c + 1
  {
  }

  // ---- the scanner finds the field ------------------------------------------------------

  /** The text from the value of the first field with this key on. */
  ghost function TextOf(fs: seq<Field>, key: string): Option<string> {
    if fs == [] then None
    else if fs[0].key == key then Some(ValueText(fs[0]) + After(fs[1..]))
    else TextOf(fs[1..], key)
  }

  /** The text from the value of the first key at or after `from` on. */
  function TextFrom(s: string, key: string, from: nat): Option<string> {
    var k := FirstKey(s, key, from);
    if k.None? then None else Some(s[AfterKey(s, key, k.value)..])
  }

  /** The text at a key, when there is one. */
  function At(s: string, key: string): Option<string> {
    var i := ValuePos(s, key);
    if i.None? then None else Some(s[i.value..])
  }

  /** No key stands at a comma, a brace or the newline. */
  lemma NoKeyAt(s: string, key: string, k: nat)
    requires PlainKey(key) && k < |s| && s[k] != '"'
    ensures !KeyAt(s, key, k)
  {
    if KeyAt(s, key, k) { MatchStart(s, key, k); }
  }

  lemma SkipField(s: string, pre: string, f: Field, post: string, key: string, next: nat)
    requires s == pre + FieldText(f) + post && next == |pre| + |FieldText(f)| + 1
    requires FieldOk(f) && PlainKey(key) && key != f.key && post != [] && (post[0] == ',' || post[0] == '}')
    ensures FirstKey(s, key, |pre|) == FirstKey(s, key, next)
  {
    forall k | |pre| <= k < next ensures !KeyAt(s, key, k) {
      if k + 1 == next {
        assert s[k] == post[0];
        NoKeyAt(s, key, k);
      } else if KeyAt(s, key, k) {
        NoKeyInside(pre, f, post, key, k);
      }
    }
    SkipNoKeys(s, key, |pre|, next);
  }

  lemma SkipEnd(s: string, key: string, from: nat)
    requires PlainKey(key) && forall k :: from <= k < |s| ==> s[k] != '"'
    ensures FirstKey(s, key, from) == None
  {
    forall k | from <= k < |s| ensures !KeyAt(s, key, k) {
      NoKeyAt(s, key, k);
    }
    SkipNoKeys(s, key, from, if from <= |s| then |s| else from);
  }

  /** Past a field with another key. */
  lemma Hop(s: string, pre: string, f: Field, gs: seq<Field>, key: string, pre': string)
    requires s == pre + (FieldText(f) + After(gs)) && gs != [] && pre' == pre + FieldText(f) + ","
    requires FieldOk(f) && PlainKey(key) && key != f.key
    ensures s == pre' + Tail(gs)
    ensures TextFrom(s, key, |pre|) == TextFrom(s, key, |pre'|)
  {
    var t := FieldText(f);
    Assoc(pre, t, After(gs));
    Assoc(pre + t, ",", Tail(gs));
    SkipField(s, pre, f, After(gs), key, |pre'|);
  }

  /** Past the last field. */
  lemma Miss(s: string, pre: string, f: Field, key: string)
    requires s == pre + (FieldText(f) + After([])) && FieldOk(f) && PlainKey(key) && key != f.key
    ensures TextFrom(s, key, |pre|) == None
  {
    var t := FieldText(f);
    var next := |pre| + |t| + 1;
    Assoc(pre, t, "}\n");
    SkipField(s, pre, f, "}\n", key, next);
    LastChars(pre + t, s);
    SkipEnd(s, key, next);
  }

  lemma {:induction false} Search(s: string, pre: string, fs: seq<Field>, key: string)
    requires fs != [] && FieldsOk(fs) && PlainKey(key) && s == pre + Tail(fs)
    requires pre != [] && (pre[|pre| - 1] == '{' || pre[|pre| - 1] == ',')
    ensures TextFrom(s, key, |pre|) == TextOf(fs, key)
    decreases |fs|
  {
    var f, gs := fs[0], fs[1..];
    if f.key == key {
      Assoc(pre, FieldText(f), After(gs));
      FoundHere(s, pre, f, After(gs));
    } else if gs == [] {
      Miss(s, pre, f, key);
    } else {
      var pre' := pre + FieldText(f) + ",";
      Hop(s, pre, f, gs, key, pre');
      Search(s, pre', gs, key);
    }
  }

  lemma FoundHere(s: string, pre: string, f: Field, post: string)
    requires s == pre + FieldText(f) + post && FieldOk(f)
    requires pre != [] && (pre[|pre| - 1] == '{' || pre[|pre| - 1] == ',')
    ensures TextFrom(s, f.key, |pre|) == Some(ValueText(f) + post)
  {
    KeyHere(pre, f, post);
  }

  lemma LastChars(a: string, s: string)
    requires s == a + "}\n"
    ensures forall k :: |a| < k < |s| ==> s[k] != '"'
  {
  }

  /** The scanner's answer for any plain key on any line: the value of the first field
      with that key, or none; whatever the string values contain. */
  lemma FindsField(fs: seq<Field>, key: string)
    requires fs != [] && FieldsOk(fs) && PlainKey(key)
    ensures At(Line(fs), key) == TextOf(fs, key)
  {
    var s := Line(fs);
    assert s[0] == '{';
    NoKeyAt(s, key, 0);
    assert FirstKey(s, key, 0) == FirstKey(s, key, 1);
    Search(s, "{", fs, key);
  }

  /** Field j, when no earlier field has its key. */
  ghost predicate First(fs: seq<Field>, j: nat) {
    FieldsOk(fs) && j < |fs| && forall i :: 0 <= i < j ==> fs[i].key != fs[j].key
  }

  lemma {:induction false} TextOfIs(fs: seq<Field>, j: nat, f: Field, rest: seq<Field>)
    requires First(fs, j) && f == fs[j] && rest == fs[j + 1..]
    ensures TextOf(fs, f.key) == Some(ValueText(f) + After(rest))
    decreases j
  {
    if j > 0 {
      var gs := fs[1..];
      assert gs[j - 1] == fs[j] && gs[j..] == fs[j + 1..];
      TextOfIs(gs, j - 1, f, rest);
    }
  }

  /** The text at the value of field j. */
  lemma ValueAt(fs: seq<Field>, j: nat)
    requires First(fs, j)
    ensures At(Line(fs), fs[j].key) == Some(ValueText(fs[j]) + After(fs[j + 1..]))
  {
    FindsField(fs, fs[j].key);
    TextOfIs(fs, j, fs[j], fs[j + 1..]);
  }

  // ---- reading values ---------------------------------------------------------------

  /** A string value comes back exactly. */
  lemma GetsText(fs: seq<Field>, j: nat)
    requires First(fs, j)
    requires fs[j].Text?
    ensures GetStr(Line(fs), fs[j].key) == Some(fs[j].value)
  {
    var s, post, e := Line(fs), After(fs[j + 1..]), Esc(fs[j].value);
    ValueAt(fs, j);
    UnescapeEsc(fs[j].value, post);
    StringAt(s, fs[j].key, e, post);
  }

  /** A string value in place. */
  lemma StringAt(s: string, key: string, e: string, post: string)
    requires At(s, key) == Some("\"" + e + "\"" + post)
    ensures GetStr(s, key) == Unescape(e + ("\"" + post))
  {
    var i := ValuePos(s, key).value;
    TextValue(s[i..], e, post);
    assert s[i] == s[i..][0] && s[i + 1..] == s[i..][1..];
  }

  lemma TextValue(t: string, e: string, post: string)
    requires t == "\"" + e + "\"" + post
    ensures t != [] && t[0] == '"' && t[1..] == e + ("\"" + post)
  {
  }

  function GetInt(s: string, key: string): Option<int> {
    var t := At(s, key);
    if t.None? then None
    else
      var r := StrToLL(t.value);
      if r.None? then None else Some(r.value.0)
  }

  function GetBool(s: string, key: string): Option<bool> {
    var t := At(s, key);
    if t.None? then None
    else if "true" <= t.value then Some(true)
    else if "false" <= t.value then Some(false)
    else None
  }

  predicate NumChar(c: char) {
    IsDigit(c) || c in {'+', '-', '.', 'e', 'E', 'i', 'n', 'f', 'a'}
  }

  function NumSpan(s: string): (n: nat)
    ensures n <= |s|
  {
    if s == [] || !NumChar(s[0]) then 0 else 1 + NumSpan(s[1..])
  }

  /** A number kept as its text: the run of number characters strtod would be given. */
  function GetNum(s: string, key: string): Option<string> {
    var t := At(s, key);
    if t.None? || NumSpan(t.value) == 0 then None else Some(t.value[..NumSpan(t.value)])
  }

  ghost predicate NumText(t: string) {
    t != [] && forall i :: 0 <= i < |t| ==> NumChar(t[i])
  }

  /** The characters of "%.10g" output, and of no separator of the line format. */
  lemma NumCharIs(c: char)
    ensures c in "0123456789+-.einfaE" ==> NumChar(c)
    ensures c in ",}\": \n\t[]{" ==> !NumChar(c)
  {
  }

  /** A value that is neither literal is no boolean. */
  lemma BoolCases(s: string, key: string, t: string)
    requires At(s, key) == Some(t)
    ensures GetBool(s, key) == Some(true) <==> |t| >= 4 && t[..4] == "true"
    ensures GetBool(s, key) == Some(false) <==> |t| >= 5 && t[..5] == "false"
  {
    if |t| >= 5 && t[..5] == "false" { assert t[0] == 'f'; }
    if |t| >= 4 && t[..4] == "true" { assert t[0] == 't'; }
  }

  lemma {:induction false} SpanOfNum(t: string, rest: string)
    requires (forall i :: 0 <= i < |t| ==> NumChar(t[i])) && rest != [] && !NumChar(rest[0])
    ensures NumSpan(t + rest) == |t|
  {
    if t == [] {
      assert t + rest == rest;
    } else {
      SpanOfNum(t[1..], rest);
      assert (t + rest)[1..] == t[1..] + rest;
    }
  }

  /** An integer value comes back saturated to 64 bits. */
  lemma GetsInt(fs: seq<Field>, j: nat, v: int)
    requires First(fs, j)
    requires fs[j].Raw? && fs[j].text == IntStr(v)
    ensures GetInt(Line(fs), fs[j].key) == Some(Clamp(v))
  {
    ValueAt(fs, j);
    ReadBack(v, After(fs[j + 1..]));
  }

  lemma GetsNum(fs: seq<Field>, j: nat)
    requires First(fs, j)
    requires fs[j].Raw? && NumText(fs[j].text)
    ensures GetNum(Line(fs), fs[j].key) == Some(fs[j].text)
  {
    var t, post := fs[j].text, After(fs[j + 1..]);
    ValueAt(fs, j);
    SpanOfNum(t, post);
    assert (t + post)[..|t|] == t;
  }

  lemma GetsBool(fs: seq<Field>, j: nat, b: bool)
    requires First(fs, j)
    requires fs[j].Raw? && fs[j].text == if b then "true" else "false"
    ensures GetBool(Line(fs), fs[j].key) == Some(b)
  {
    ValueAt(fs, j);
    var t, post := fs[j].text, After(fs[j + 1..]);
    assert t <= t + post;
    assert (t + post)[0] == t[0];
  }

  // ---- one line ------------------------------------------------------------------------

  ghost predicate OneLine(s: string) {
    s != [] && s[|s| - 1] == '\n' && '\n' !in s[..|s| - 1]
  }

  lemma FieldHasNoNewline(f: Field)
    requires FieldOk(f)
    ensures '\n' !in FieldText(f)
  {
    if f.Text? { EscShape(f.value); }
  }

  lemma {:induction false} AfterOneLine(gs: seq<Field>)
    requires FieldsOk(gs)
    ensures OneLine(After(gs))
  {
    if gs != [] {
      FieldHasNoNewline(gs[0]);
      AfterOneLine(gs[1..]);
      PrependOneLine(FieldText(gs[0]), After(gs[1..]));
      PrependOneLine(",", FieldText(gs[0]) + After(gs[1..]));
    }
  }

  lemma PrependOneLine(a: string, b: string)
    requires '\n' !in a && OneLine(b)
    ensures OneLine(a + b)
  {
    var s := a + b;
    assert s[..|s| - 1] == a + b[..|b| - 1];
  }

  /** A line's only newline is its last character. */
  lemma LineIsOneLine(fs: seq<Field>)
    requires fs != [] && FieldsOk(fs)
    ensures OneLine(Line(fs))
  {
    FieldHasNoNewline(fs[0]);
    AfterOneLine(fs[1..]);
    PrependOneLine(FieldText(fs[0]), After(fs[1..]));
    PrependOneLine("{", Tail(fs));
  }

  // ---- building a line left to right ------------------------------------------------------

  /** A line so far: the brace and the fields, still open. */
  ghost function Open(fs: seq<Field>): string
    requires fs != []
  {
    var n := |fs| - 1;
    if n == 0 then "{" + FieldText(fs[0]) else Open(fs[..n]) + "," + FieldText(fs[n])
  }

  lemma {:induction false} Close(fs: seq<Field>, gs: seq<Field>)
    requires fs != []
    ensures Open(fs) + After(gs) == Open(fs + gs) + "}\n"
    decreases gs
  {
    if gs == [] {
      assert fs + gs == fs;
    } else {
      var g, hs := gs[0], gs[1..];
      var fs' := fs + [g];
      Parts(fs, [g]);
      Close(fs', hs);
      Assoc(fs, [g], hs);
      HeadTail(gs);
      Assoc(Open(fs), ",", FieldText(g) + After(hs));
      Assoc(Open(fs) + ",", FieldText(g), After(hs));
    }
  }

  lemma LineIsOpen(fs: seq<Field>)
    requires fs != []
    ensures Line(fs) == Open(fs) + "}\n"
  {
    Close(fs[..1], fs[1..]);
    assert fs == fs[..1] + fs[1..];
    Assoc("{", FieldText(fs[0]), After(fs[1..]));
  }

  /** Appending one more field as the encoders write it. */
  lemma PutRaw(fs: seq<Field>, key: string, lit: string, text: string)
    requires fs != [] && lit == ",\"" + key + "\":"
    ensures Open(fs) + lit + text == Open(fs + [Raw(key, text)])
  {
    var f := Raw(key, text);
    assert (fs + [f])[..|fs|] == fs;
    assert lit + text == "," + FieldText(f);
    Assoc(Open(fs), lit, text);
    Assoc(Open(fs), ",", FieldText(f));
  }

  lemma PutText(fs: seq<Field>, key: string, lit: string, value: string)
    requires fs != [] && lit == ",\"" + key + "\":\""
    ensures Open(fs) + lit + Esc(value) + "\"" == Open(fs + [Text(key, value)])
  {
    var f, e, o := Text(key, value), Esc(value), Open(fs);
    assert (fs + [f])[..|fs|] == fs;
    TextChars(key, e, lit);
    Assoc(o, lit, e);
    Assoc(o, lit + e, "\"");
    Assoc(o, ",", FieldText(f));
  }

  lemma TextChars(key: string, e: string, lit: string)
    requires lit == ",\"" + key + "\":\""
    ensures lit + e + "\"" == "," + ("\"" + key + "\"" + ":" + ("\"" + e + "\""))
  {
  }
}
