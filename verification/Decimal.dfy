/** Decimal text: std::to_string, and the strtoll / atoi that read it back. */
module Decimal {
  import opened Prelude

  const LL_MAX: int := 0x7FFF_FFFF_FFFF_FFFF
  const LL_MIN: int := -0x8000_0000_0000_0000

  predicate IsDigit(c: char) {
    '0' <= c <= '9'
  }

  predicate IsSpace(c: char) {
    c in {' ', '\t', '\n', '\r', '\U{B}', '\U{C}'}
  }

  function Digit(d: nat): char
    requires d < 10
  {
    ('0' as int + d) as char
  }

  function Value(c: char): int {
    c as int - '0' as int
  }

  ghost predicate AllDigits(s: string) {
    forall i :: 0 <= i < |s| ==> IsDigit(s[i])
  }

  function NatStr(n: nat): (s: string)
    ensures |s| > 0
  {
    if n < 10 then [Digit(n)] else NatStr(n / 10) + [Digit(n % 10)]
  }

  function IntStr(n: int): string {
    if n < 0 then "-" + NatStr(-n) else NatStr(n)
  }

  /** Leading digits of s. */
  function DigitSpan(s: string): (n: nat)
    ensures n <= |s|
  {
    if s == [] || !IsDigit(s[0]) then 0 else 1 + DigitSpan(s[1..])
  }

  function SpaceSpan(s: string): (n: nat)
    ensures n <= |s|
  {
    if s == [] || !IsSpace(s[0]) then 0 else 1 + SpaceSpan(s[1..])
  }

  function DigitsValue(s: string): int {
    if s == [] then 0 else DigitsValue(s[..|s| - 1]) * 10 + Value(s[|s| - 1])
  }

  function Clamp(v: int): int {
    if v > LL_MAX then LL_MAX else if v < LL_MIN then LL_MIN else v
  }

  /** The digits at the front of t, with their sign, saturated to 64 bits. */
  function ReadDigits(t: string, neg: bool): (r: Option<(int, nat)>)
    ensures r.Some? ==> 0 < r.value.1 <= |t|
  {
    var d := DigitSpan(t);
    if d == 0 then None
    else
      var v := DigitsValue(t[..d]);
      Some((Clamp(if neg then -v else v), d))
  }

  /** strtoll(s, &end, 10): the saturated value and how many characters were read;
      None when there is no number. */
  function StrToLL(s: string): (r: Option<(int, nat)>)
    ensures r.Some? ==> 0 < r.value.1 <= |s|
  {
    var w := SpaceSpan(s);
    var signed := w < |s| && (s[w] == '-' || s[w] == '+');
    var k := if signed then w + 1 else w;
    var r := ReadDigits(s[k..], signed && s[w] == '-');
    if r.None? then None else Some((r.value.0, k + r.value.1))
  }

  function Atoi(s: string): int {
    var r := StrToLL(s);
    if r.None? then 0 else r.value.0
  }

  lemma {:induction false} NatStrDigits(n: nat)
    ensures AllDigits(NatStr(n)) && DigitsValue(NatStr(n)) == n
  {
    if n >= 10 {
      NatStrDigits(n / 10);
      var s := NatStr(n);
      assert s[..|s| - 1] == NatStr(n / 10);
    } else {
      var s := NatStr(n);
      assert s[..|s| - 1] == [];
    }
  }

  lemma {:induction false} SpanOfDigits(d: string, rest: string)
    requires AllDigits(d) && (rest == [] || !IsDigit(rest[0]))
    ensures DigitSpan(d + rest) == |d|
  {
    if d == [] {
      assert d + rest == rest;
    } else {
      SpanOfDigits(d[1..], rest);
      assert (d + rest)[1..] == d[1..] + rest;
    }
  }

  /** strtoll reads back what to_string wrote, saturated to 64 bits, and stops right
      after it. */
  lemma ReadBack(v: int, rest: string)
    requires rest == [] || !IsDigit(rest[0])
    ensures StrToLL(IntStr(v) + rest) == Some((Clamp(v), |IntStr(v)|))
  {
    var a := if v < 0 then -v else v;
    var d := NatStr(a);
    var t := d + rest;
    DigitsBack(a, rest, v < 0, v);
    assert t[0] == d[0] && IsDigit(d[0]) by { NatStrDigits(a); }
    if v < 0 {
      assert "-" + d + rest == "-" + t;
      ReadMinus(t);
    } else {
      ReadPlain(t);
    }
  }

  lemma DigitsBack(a: nat, rest: string, neg: bool, v: int)
    requires (rest == [] || !IsDigit(rest[0])) && a == (if neg then -v else v)
    ensures ReadDigits(NatStr(a) + rest, neg) == Some((Clamp(v), |NatStr(a)|))
  {
    var d := NatStr(a);
    NatStrDigits(a);
    SpanOfDigits(d, rest);
    assert (d + rest)[..|d|] == d;
    ReadDigitsAt(d + rest, d, neg, v);
  }

  /** No space and no sign. */
  lemma ReadPlain(t: string)
    requires t != [] && IsDigit(t[0])
    ensures StrToLL(t) == ReadDigits(t, false)
  {
    assert t[0..] == t;
  }

  /** A minus, then digits. */
  lemma ReadMinus(t: string)
    requires t != [] && IsDigit(t[0]) && ReadDigits(t, true).Some?
    ensures var r := ReadDigits(t, true).value; StrToLL("-" + t) == Some((r.0, 1 + r.1))
  {
    var s := "-" + t;
    assert s[0] == '-' && s[1..] == t;
  }

  lemma ReadDigitsAt(t: string, d: string, neg: bool, v: int)
    requires d != [] && DigitSpan(t) == |d| <= |t| && t[..|d|] == d
    requires v == if neg then -DigitsValue(d) else DigitsValue(d)
    ensures ReadDigits(t, neg) == Some((Clamp(v), |d|))
  {
  }

  /** No leading zero, so to_string's text is the shortest for its value. */
  lemma {:induction false} NatStrCanonical(n: nat)
    ensures NatStr(n)[0] == '0' ==> n == 0
    ensures n < 10 ==> |NatStr(n)| == 1
  {
    if n >= 10 { NatStrCanonical(n / 10); }
  }

  /** The characters isspace() skips. */
  ghost predicate AllSpaces(s: string) {
    forall i :: 0 <= i < |s| ==> s[i] == ' ' || 9 <= s[i] as int <= 13
  }

  lemma {:induction false} SpanOfSpaces(sp: string, rest: string)
    requires AllSpaces(sp) && (rest == [] || !IsSpace(rest[0]))
    ensures SpaceSpan(sp + rest) == |sp|
  {
    if sp == [] {
      assert sp + rest == rest;
    } else {
      SpanOfSpaces(sp[1..], rest);
      assert (sp + rest)[1..] == sp[1..] + rest;
    }
  }

  /** At most one sign. */
  predicate IsSign(s: string) {
    |s| <= 1 && (s != [] ==> s[0] == '-' || s[0] == '+')
  }

  /** strtoll on any text: white space, at most one sign, then digits, saturated to 64 bits;
      it stops at the first other character... */
  lemma StrToLLIs(sp: string, sign: string, digits: string, rest: string, neg: bool, x: int, end: nat)
    requires AllSpaces(sp) && IsSign(sign) && neg == (sign != [] && sign[0] == '-')
    requires digits != [] && AllDigits(digits) && (rest == [] || !IsDigit(rest[0]))
    requires x == Clamp(if neg then -DigitsValue(digits) else DigitsValue(digits)) && end == |sp| + |sign| + |digits|
    ensures StrToLL(sp + (sign + (digits + rest))) == Some((x, end))
  {
    var t := digits + rest;
    var u := sign + t;
    FrontOf(sign, digits, rest, t, u);
    var v := if neg then -DigitsValue(digits) else DigitsValue(digits);
    DigitsThen(digits, rest, neg, v);
    AfterSpaces(sp, u, sign, t, neg, x, |digits|, end);
  }

  /** ...and reads nothing when there is no digit. */
  lemma StrToLLNone(sp: string, sign: string, rest: string)
    requires AllSpaces(sp) && IsSign(sign) && (rest == [] || !IsDigit(rest[0]))
    requires sign == [] && rest != [] ==> !IsSpace(rest[0]) && rest[0] != '-' && rest[0] != '+'
    ensures StrToLL(sp + (sign + rest)) == None
  {
    var neg := sign != [] && sign[0] == '-';
    assert [] + rest == rest;
    FrontOf(sign, [], rest, rest, sign + rest);
    AfterSpaces(sp, sign + rest, sign, rest, neg, 0, 0, |sp| + |sign|);
  }

  lemma AfterSpaces(sp: string, u: string, sign: string, t: string, neg: bool, x: int, k: nat, end: nat)
    requires AllSpaces(sp) && (u == [] || !IsSpace(u[0])) && IsSign(sign) && neg == (sign != [] && sign[0] == '-')
    requires sign == [] ==> u == t && (t == [] || (t[0] != '-' && t[0] != '+'))
    requires sign != [] ==> u != [] && u[0] == sign[0] && u[1..] == t
    requires end == |sp| + |sign| + k
    ensures ReadDigits(t, neg) == None ==> StrToLL(sp + u) == None
    ensures ReadDigits(t, neg) == Some((x, k)) ==> StrToLL(sp + u) == Some((x, end))
  {
    SpanOfSpaces(sp, u);
    SignRead(sp + u, sp, u, sign, t, neg);
  }

  lemma FrontOf(sign: string, digits: string, rest: string, t: string, u: string)
    requires t == digits + rest && u == sign + t && IsSign(sign) && AllDigits(digits)
    requires sign == [] && digits == [] && rest != [] ==> !IsSpace(rest[0]) && rest[0] != '-' && rest[0] != '+'
    ensures sign == [] ==> u == t && (t == [] || (t[0] != '-' && t[0] != '+'))
    ensures sign != [] ==> u != [] && u[0] == sign[0] && u[1..] == t
    ensures u == [] || !IsSpace(u[0])
  {
    if digits != [] { assert t[0] == digits[0] && IsDigit(digits[0]); } else { assert t == rest; }
    if sign == [] { assert u == t; }
  }

  lemma DigitsThen(digits: string, rest: string, neg: bool, v: int)
    requires AllDigits(digits) && (rest == [] || !IsDigit(rest[0])) && v == (if neg then -DigitsValue(digits) else DigitsValue(digits))
    ensures digits != [] ==> ReadDigits(digits + rest, neg) == Some((Clamp(v), |digits|))
    ensures digits == [] ==> ReadDigits(digits + rest, neg) == None
  {
    var t := digits + rest;
    SpanOfDigits(digits, rest);
    assert t[..|digits|] == digits;
    if digits != [] { ReadDigitsAt(t, digits, neg, v); }
  }

  lemma SignRead(s: string, sp: string, u: string, sign: string, t: string, neg: bool)
    requires s == sp + u && SpaceSpan(s) == |sp| && IsSign(sign) && neg == (sign != [] && sign[0] == '-')
    requires sign == [] ==> u == t && (t == [] || (t[0] != '-' && t[0] != '+'))
    requires sign != [] ==> u != [] && u[0] == sign[0] && u[1..] == t
    ensures var r := ReadDigits(t, neg);
            && (r.None? ==> StrToLL(s) == None)
            && (r.Some? ==> StrToLL(s) == Some((r.value.0, |sp| + |sign| + r.value.1)))
  {
    if sign == [] {
      assert s[|sp|..] == t;
      if t != [] { assert s[|sp|] == t[0]; }
    } else {
      assert s[|sp|] == sign[0] && s[|sp| + 1..] == t;
    }
  }

  /** Saturation is to the 64-bit range. */
  lemma ClampIs(v: int)
    ensures -0x8000_0000_0000_0000 <= v < 0x8000_0000_0000_0000 ==> Clamp(v) == v
    ensures v >= 0x8000_0000_0000_0000 ==> Clamp(v) == 0x7FFF_FFFF_FFFF_FFFF
    ensures v < -0x8000_0000_0000_0000 ==> Clamp(v) == -0x8000_0000_0000_0000
  {
  }

  /** Decimal text has no character outside the digits and the sign. */
  lemma IntStrChars(v: int, c: char)
    requires !IsDigit(c) && c != '-'
    ensures c !in IntStr(v)
  {
    NatStrDigits(if v < 0 then -v else v);
  }

  /** Texts one after the other. */
  function Join<T>(text: T -> string, xs: seq<T>): string {
    if xs == [] then "" else text(xs[0]) + Join(text, xs[1..])
  }

  lemma {:induction false} JoinConcat<T>(text: T -> string, a: seq<T>, b: seq<T>)
    ensures Join(text, a + b) == Join(text, a) + Join(text, b)
  {
    if a == [] {
      assert a + b == b;
    } else {
      var h, x, y := text(a[0]), Join(text, a[1..]), Join(text, b);
      JoinConcat(text, a[1..], b);
      assert (a + b)[0] == a[0] && (a + b)[1..] == a[1..] + b;
      assert h + (x + y) == (h + x) + y;
    }
  }

  lemma JoinOne<T>(text: T -> string, x: T)
    ensures Join(text, [x]) == text(x)
  {
    assert [x][1..] == [];
  }
}
