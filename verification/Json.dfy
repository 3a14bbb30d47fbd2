/** The flat-JSON scanner of the MT5 bridge: where a key's value starts, and string
    escaping. */
module Json {
  import opened Prelude
  import opened Decimal

  predicate Blank(c: char) {
    c == ' ' || c == '\t'
  }

  // ---- value_pos ----------------------------------------------------------------------

  /** k moved left over blanks. */
  function BackOver(s: string, k: nat): (p: nat)
    requires k <= |s|
    ensures p <= k
  {
    if k > 0 && Blank(s[k - 1]) then BackOver(s, k - 1) else k
  }

  /** c moved right over blanks. */
  function SkipBlank(s: string, c: nat): (p: nat)
    requires c <= |s|
    ensures c <= p <= |s|
    decreases |s| - c
  {
    if c < |s| && Blank(s[c]) then SkipBlank(s, c + 1) else c
  }

  /** The previous non-blank character is '{' or ','. */
  predicate AtKey(s: string, k: nat)
    requires k <= |s|
  {
    var p := BackOver(s, k);
    p == 0 || s[p - 1] == '{' || s[p - 1] == ','
  }

  function Quoted(key: string): string {
    "\"" + key + "\""
  }

  predicate QuotedAt(s: string, key: string, k: nat) {
    k + |key| + 2 <= |s| && s[k..k + |key| + 2] == Quoted(key)
  }

  /** A real object key `key` stands at k. */
  predicate KeyAt(s: string, key: string, k: nat) {
    && QuotedAt(s, key, k) && AtKey(s, k)
    && var c := SkipBlank(s, k + |key| + 2);
       c < |s| && s[c] == ':'
  }

  /** The first key position at or after `from`. */
  function FirstKey(s: string, key: string, from: nat): (r: Option<nat>)
    ensures r.Some? ==> KeyAt(s, key, r.value)
    decreases |s| - from
  {
    if from >= |s| then None
    else if KeyAt(s, key, from) then Some(from)
    else FirstKey(s, key, from + 1)
  }

  /** Nothing from a to b is a key, so the search may start at b. */
  lemma {:induction false} SkipNoKeys(s: string, key: string, a: nat, b: nat)
    requires a <= b && forall k :: a <= k < b ==> !KeyAt(s, key, k)
    ensures FirstKey(s, key, a) == FirstKey(s, key, b)
    decreases b - a
  {
    if a < b {
      SkipNoKeys(s, key, a + 1, b);
    }
  }

  /** Literally a blank. */
  ghost predicate BlankAt(s: string, i: int) {
    0 <= i < |s| && (s[i] == ' ' || s[i] == '\t')
  }

  lemma {:induction false} BackIs(s: string, k: nat, p: nat)
    requires p <= k <= |s| && (forall i :: p <= i < k ==> BlankAt(s, i)) && (p == 0 || !BlankAt(s, p - 1))
    ensures BackOver(s, k) == p
    decreases k - p
  {
    if p < k {
      assert BlankAt(s, k - 1);
      BackIs(s, k - 1, p);
    } else if p > 0 {
      assert !BlankAt(s, p - 1);
    }
  }

  lemma {:induction false} SkipIs(s: string, c: nat, p: nat)
    requires c <= p <= |s| && (forall i :: c <= i < p ==> BlankAt(s, i)) && !BlankAt(s, p)
    ensures SkipBlank(s, c) == p
    decreases p - c
  {
    if c < p {
      assert BlankAt(s, c);
      SkipIs(s, c + 1, p);
    }
  }

  /** When a quoted name is a key, on any text: before it, over spaces and tabs, stands the
      start of the text, a brace or a comma; after it, over spaces and tabs, a colon. */
  lemma KeyAtIff(s: string, key: string, k: nat, p: nat, c: nat)
    requires k + |key| + 2 <= c <= |s| && s[k..k + |key| + 2] == "\"" + key + "\""
    requires p <= k && (forall i :: p <= i < k ==> BlankAt(s, i)) && (p == 0 || !BlankAt(s, p - 1))
    requires (forall i :: k + |key| + 2 <= i < c ==> BlankAt(s, i)) && !BlankAt(s, c)
    ensures KeyAt(s, key, k) <==> (p == 0 || s[p - 1] == '{' || s[p - 1] == ',') && c < |s| && s[c] == ':'
  {
    BackIs(s, k, p);
    SkipIs(s, k + |key| + 2, c);
  }

  /** Its value starts after the colon and any spaces and tabs. */
  lemma ValueAfter(s: string, key: string, k: nat, c: nat, v: nat)
    requires KeyAt(s, key, k) && k + |key| + 2 <= c < v <= |s|
    requires (forall i :: k + |key| + 2 <= i < c ==> BlankAt(s, i)) && s[c] == ':'
    requires (forall i :: c + 1 <= i < v ==> BlankAt(s, i)) && !BlankAt(s, v)
    ensures AfterKey(s, key, k) == v
  {
    SkipIs(s, k + |key| + 2, c);
    SkipIs(s, c + 1, v);
  }

  /** The scanner takes the first key of that name. */
  lemma {:induction false} FirstKeyIsFirst(s: string, key: string, from: nat)
    ensures var r := FirstKey(s, key, from);
            && (r.None? ==> forall k :: from <= k < |s| ==> !KeyAt(s, key, k))
            && (r.Some? ==> from <= r.value && forall k :: from <= k < r.value ==> !KeyAt(s, key, k))
    decreases |s| - from
  {
    if from < |s| && !KeyAt(s, key, from) {
      FirstKeyIsFirst(s, key, from + 1);
    }
  }

  /** Past the key, the colon and blanks. */
  function AfterKey(s: string, key: string, k: nat): nat
    requires KeyAt(s, key, k)
  {
    SkipBlank(s, SkipBlank(s, k + |key| + 2) + 1)
  }

  function ValuePos(s: string, key: string): Option<nat> {
    var k := FirstKey(s, key, 0);
    if k.None? then None else Some(AfterKey(s, key, k.value))
  }

  /** std::string::find of the quoted key, from `from`. */
  method FindQuoted(s: string, key: string, from: nat) returns (k: nat)
    ensures from <= k && FirstKey(s, key, k) == FirstKey(s, key, from)
    ensures k < |s| ==> QuotedAt(s, key, k)
  {
    k := from;
    while k < |s| && !QuotedAt(s, key, k)
      invariant from <= k && FirstKey(s, key, k) == FirstKey(s, key, from)
      decreases |s| - k
    {
      k := k + 1;
    }
  }

  method Backward(s: string, k: nat) returns (p: nat)
    requires k <= |s|
    ensures p == BackOver(s, k)
  {
    p := k;
    while p > 0 && Blank(s[p - 1])
      invariant 0 <= p <= k && BackOver(s, p) == BackOver(s, k)
    {
      p := p - 1;
    }
  }

  method Forward(s: string, c: nat) returns (p: nat)
    requires c <= |s|
    ensures p == SkipBlank(s, c)
  {
    p := c;
    while p < |s| && Blank(s[p])
      invariant c <= p <= |s| && SkipBlank(s, p) == SkipBlank(s, c)
    {
      p := p + 1;
    }
  }

  /** The scanning loop: find each occurrence of the quoted key, test what surrounds
      it, go on one past it when it is no key. */
  method FindValue(s: string, key: string) returns (pos: Option<nat>)
    ensures pos == ValuePos(s, key)
  {
    var from := 0;
    while true
      invariant FirstKey(s, key, from) == FirstKey(s, key, 0)
      decreases |s| + 1 - from
    {
      var k := FindQuoted(s, key, from);
      if k >= |s| { return None; }
      var p := Backward(s, k);
      var atKey := p == 0 || s[p - 1] == '{' || s[p - 1] == ',';
      var c := Forward(s, k + |key| + 2);
      var next := k + 1;
      Decide(s, key, k, next, p, c);
      if atKey && c < |s| && s[c] == ':' {
        var i := Forward(s, c + 1);
        return Some(i);
      }
      from := next;
    }
  }

  /** What the two tests around a match decide. */
  lemma Decide(s: string, key: string, k: nat, next: nat, p: nat, c: nat)
    requires k < |s| && QuotedAt(s, key, k) && p == BackOver(s, k) && c == SkipBlank(s, k + |key| + 2) && next == k + 1
    ensures var isKey := (p == 0 || s[p - 1] == '{' || s[p - 1] == ',') && c < |s| && s[c] == ':';
            && (isKey ==> FirstKey(s, key, k) == Some(k) && KeyAt(s, key, k) && AfterKey(s, key, k) == SkipBlank(s, c + 1))
            && (!isKey ==> FirstKey(s, key, k) == FirstKey(s, key, next))
  {
    var isKey := (p == 0 || s[p - 1] == '{' || s[p - 1] == ',') && c < |s| && s[c] == ':';
    assert KeyAt(s, key, k) <==> isKey;
    FirstKeyStep(s, key, k);
  }

  lemma FirstKeyStep(s: string, key: string, k: nat)
    requires k < |s|
    ensures KeyAt(s, key, k) ==> FirstKey(s, key, k) == Some(k)
    ensures !KeyAt(s, key, k) ==> FirstKey(s, key, k) == FirstKey(s, key, k + 1)
  {
  }

  // ---- escaping -------------------------------------------------------------------------

  function EscChar(c: char): string {
    if c == '"' || c == '\\' then ['\\', c]
    else if c == '\n' then ['\\', 'n']
    else if c == '\t' then ['\\', 't']
    else [c]
  }

  function Esc(s: string): string {
    Join(EscChar, s)
  }

  method Escape(s: string) returns (o: string)
    ensures o == Esc(s)
  {
    o := [];
    var i := 0;
    while i < |s|
      invariant 0 <= i <= |s| && o == Esc(s[..i])
    {
      JoinConcat(EscChar, s[..i], [s[i]]);
      JoinOne(EscChar, s[i]);
      assert s[..i + 1] == s[..i] + [s[i]];
      o := o + EscChar(s[i]);
      i := i + 1;
    }
    assert s[..i] == s;
  }

  function Cons(c: char, r: Option<string>): Option<string> {
    if r.None? then None else Some([c] + r.value)
  }

  /** The string value that starts after an opening quote; None when unterminated. */
  function Unescape(s: string): Option<string> {
    if s == [] then None
    else if s[0] == '\\' && |s| > 1 then
      var nx := s[1];
      if nx == '"' || nx == '\\' || nx == '/' then Cons(nx, Unescape(s[2..]))
      else if nx == 'n' then Cons('\n', Unescape(s[2..]))
      else if nx == 't' then Cons('\t', Unescape(s[2..]))
      else Cons('\\', Unescape(s[1..]))
    else if s[0] == '"' then Some([])
    else Cons(s[0], Unescape(s[1..]))
  }

  /** Reading an escaped string up to its closing quote gives back the string. */
  lemma {:induction false} UnescapeEsc(v: string, rest: string)
    ensures Unescape(Esc(v) + ("\"" + rest)) == Some(v)
  {
    var q := "\"" + rest;
    if v == [] {
      assert Esc(v) + q == q;
    } else {
      UnescapeEsc(v[1..], rest);
      var t := Esc(v[1..]) + q;
      assert Esc(v) + q == EscChar(v[0]) + t;
      EscCharFront(v[0], t);
      assert v == [v[0]] + v[1..];
    }
  }

  lemma EscCharFront(c: char, t: string)
    ensures Unescape(EscChar(c) + t) == Cons(c, Unescape(t))
  {
    var s := EscChar(c) + t;
    assert s[|EscChar(c)|..] == t;
  }

  /** An escaped string has no newline, and every quote in it follows a backslash. */
  lemma {:induction false} EscShape(v: string)
    ensures '\n' !in Esc(v)
    ensures forall j :: 0 <= j < |Esc(v)| && Esc(v)[j] == '"' ==> j > 0 && Esc(v)[j - 1] == '\\'
  {
    if v != [] {
      EscShape(v[1..]);
      var h, t := EscChar(v[0]), Esc(v[1..]);
      assert forall j :: |h| <= j < |h + t| ==> (h + t)[j] == t[j - |h|];
    }
  }

  lemma {:induction false} EscPlain(v: string)
    requires forall i :: 0 <= i < |v| ==> v[i] != '"' && v[i] != '\\' && v[i] != '\n' && v[i] != '\t'
    ensures Esc(v) == v
  {
    if v != [] {
      EscPlain(v[1..]);
      assert v == [v[0]] + v[1..];
    }
  }

  /** Escaping works character by character, and changes only these four. */
  lemma EscSplits(a: string, b: string)
    ensures Esc("") == "" && Esc(a + b) == Esc(a) + Esc(b)
    ensures Esc(['"']) == ['\\', '"'] && Esc(['\\']) == ['\\', '\\'] && Esc(['\n']) == ['\\', 'n'] && Esc(['\t']) == ['\\', 't']
  {
    JoinConcat(EscChar, a, b);
    JoinOne(EscChar, '"');
    JoinOne(EscChar, '\\');
    JoinOne(EscChar, '\n');
    JoinOne(EscChar, '\t');
  }

  /** What a reader makes of each front: the closing quote ends the string, a known escape
      stands for its character, an unknown one keeps its backslash, a backslash at the very
      end stands for itself, and text that runs out is no string. */
  lemma UnescapeCases(c: char, t: string)
    ensures Unescape("").None? && Unescape(['"'] + t) == Some("")
    ensures Unescape(['\\', c] + t) ==
            if c == '"' || c == '\\' || c == '/' then Cons(c, Unescape(t))
            else if c == 'n' then Cons('\n', Unescape(t))
            else if c == 't' then Cons('\t', Unescape(t))
            else Cons('\\', Unescape([c] + t))
    ensures c != '"' && c != '\\' ==> Unescape([c] + t) == Cons(c, Unescape(t))
    ensures Unescape(['\\']) == None
  {
    assert (['\\', c] + t)[2..] == t && (['\\', c] + t)[1..] == [c] + t;
    assert ([c] + t)[1..] == t;
    assert ['\\'][1..] == [];
  }

  function GetStr(s: string, key: string): Option<string> {
    var i := ValuePos(s, key);
    if i.None? || i.value >= |s| || s[i.value] != '"' then None else Unescape(s[i.value + 1..])
  }

  /** json_get_str: out is left alone unless the whole string is read. */
  method JsonGetStr(s: string, key: string, was: string) returns (ok: bool, out: string)
    ensures ok == GetStr(s, key).Some?
    ensures out == if ok then GetStr(s, key).value else was
  {
    out := was;
    var pos := FindValue(s, key);
    if pos.None? || pos.value >= |s| || s[pos.value] != '"' { return false, out; }
    var i := pos.value + 1;
    var r := [];
    ghost var goal := Unescape(s[i..]);
    assert goal.Some? ==> [] + goal.value == goal.value;
    while i < |s|
      invariant i <= |s|
      invariant Append(r, Unescape(s[i..])) == goal
      decreases |s| - i
    {
      var ch := s[i];
      ghost var t := s[i..];
      if ch == '\\' && i + 1 < |s| {
        var nx := s[i + 1];
        assert t[2..] == s[i + 2..] && t[1..] == s[i + 1..];
        if nx == '"' || nx == '\\' || nx == '/' {
          AppendCons(r, nx, Unescape(s[i + 2..]));
          r := r + [nx]; i := i + 2; continue;
        }
        if nx == 'n' {
          AppendCons(r, '\n', Unescape(s[i + 2..]));
          r := r + ['\n']; i := i + 2; continue;
        }
        if nx == 't' {
          AppendCons(r, '\t', Unescape(s[i + 2..]));
          r := r + ['\t']; i := i + 2; continue;
        }
        AppendCons(r, ch, Unescape(s[i + 1..]));
        r := r + [ch]; i := i + 1; continue;
      }
      if ch == '"' {
        assert r + [] == r;
        return true, r;
      }
      assert t[1..] == s[i + 1..];
      AppendCons(r, ch, Unescape(s[i + 1..]));
      r := r + [ch];
      i := i + 1;
    }
    ok := false;
  }

  function Append(r: string, t: Option<string>): Option<string> {
    if t.None? then None else Some(r + t.value)
  }

  lemma AppendCons(r: string, c: char, t: Option<string>)
    ensures Append(r, Cons(c, t)) == Append(r + [c], t)
  {
    if t.Some? {
      assert r + ([c] + t.value) == (r + [c]) + t.value;
    }
  }
}
