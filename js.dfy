/** The slice of JavaScript value semantics the handlers rely on: parsed JSON
    values, property access, truthiness, `String.prototype.trim`,
    `toLowerCase`, `includes`, `String(v)`, `parseInt(s, 10)` and the
    `Number(v)` coercion that the `-` operator applies. */
module Js {
  import opened Wrappers

  /** A value produced by `JSON.parse`. Numbers are integers here. */
  datatype Json =
    | JNull
    | JBool(b: bool)
    | JNum(n: int)
    | JStr(s: string)
    | JArr(items: seq<Json>)
    | JObj(fields: map<string, Json>)

  /** The outcome of reading `v.key`: reading a property of `null` throws a
      TypeError, a missing property is `undefined`. The keys the handlers read
      are never built-in properties of strings, numbers or arrays. */
  datatype Prop = Throws | Undefined | Defined(value: Json)

  function GetProp(v: Json, key: string): (p: Prop)
    ensures p.Throws? <==> v.JNull?
    ensures p.Defined? <==> v.JObj? && key in v.fields
  {
    match v
    case JNull => Throws
    case JObj(f) => if key in f then Defined(f[key]) else Undefined
    case _ => Undefined
  }

  /** JavaScript truthiness of a JSON value (`!!v`). */
  predicate Truthy(v: Json) {
    match v
    case JNull => false
    case JBool(b) => b
    case JNum(n) => n != 0
    case JStr(s) => s != ""
    case JArr(_) => true
    case JObj(_) => true
  }

  /** Truthiness of a property read that did not throw (`undefined` is falsy). */
  predicate PropTruthy(p: Prop) {
    p.Defined? && Truthy(p.value)
  }

  /** JavaScript's WhiteSpace and LineTerminator code points: what `trim`,
      `parseInt` and `Number` skip. */
  predicate IsWhitespace(c: char) {
    || c == '\t' || c == '\n' || c == '\U{B}' || c == '\U{C}' || c == '\r'
    || c == ' ' || c == '\U{A0}' || c == '\U{1680}'
    || ('\U{2000}' <= c <= '\U{200A}')
    || c == '\U{2028}' || c == '\U{2029}' || c == '\U{202F}' || c == '\U{205F}'
    || c == '\U{3000}' || c == '\U{FEFF}'
  }

  predicate AllWhitespace(s: string) {
    forall i | 0 <= i < |s| :: IsWhitespace(s[i])
  }

  /** `t` occurs in `s` starting at index `i`. */
  predicate OccursAt(s: string, t: string, i: nat) {
    i + |t| <= |s| && s[i..i + |t|] == t
  }

  /** Number of leading whitespace characters. */
  function LeadingWhitespace(s: string): (n: nat)
    ensures n <= |s|
    ensures AllWhitespace(s[..n])
    ensures n < |s| ==> !IsWhitespace(s[n])
  {
    if s == [] then 0
    else if IsWhitespace(s[0]) then
      var k := LeadingWhitespace(s[1..]);
      assert s[..k + 1] == [s[0]] + s[1..][..k];
      k + 1
    else 0
  }

  /** Number of trailing whitespace characters. */
  function TrailingWhitespace(s: string): (n: nat)
    ensures n <= |s|
    ensures AllWhitespace(s[|s| - n..])
    ensures n < |s| ==> !IsWhitespace(s[|s| - n - 1])
  {
    if s == [] then 0
    else if IsWhitespace(s[|s| - 1]) then
      var init := s[..|s| - 1];
      var k := TrailingWhitespace(init);
      assert s[|s| - (k + 1)..] == init[|init| - k..] + [s[|s| - 1]];
      AllWhitespaceConcat(init[|init| - k..], [s[|s| - 1]]);
      assert k + 1 < |s| ==> s[|s| - (k + 1) - 1] == init[|init| - k - 1];
      k + 1
    else 0
  }

  /** `s` is `r` with only whitespace before and after it. */
  predicate WhitespaceAround(s: string, r: string) {
    exists a | 0 <= a <= |s| - |r| ::
      s[a..a + |r|] == r && AllWhitespace(s[..a]) && AllWhitespace(s[a + |r|..])
  }

  /** `s.trim()`: drops leading and trailing whitespace and nothing else. */
  function Trim(s: string): (r: string)
    ensures |r| <= |s|
    ensures r == [] <==> AllWhitespace(s)
    ensures r != [] ==> !IsWhitespace(r[0]) && !IsWhitespace(r[|r| - 1])
    ensures WhitespaceAround(s, r)
  {
    var a := LeadingWhitespace(s);
    var rest := s[a..];
    var b := TrailingWhitespace(rest);
    var r := rest[..|rest| - b];
    assert s[a..a + |r|] == r;
    assert s[a + |r|..] == rest[|rest| - b..];
    assert WhitespaceAround(s, r) by {
      assert s[a..a + |r|] == r && AllWhitespace(s[..a]) && AllWhitespace(s[a + |r|..]);
    }
    if r == [] then
      assert rest[|rest| - b..] == rest;
      assert s == s[..a] + rest;
      AllWhitespaceConcat(s[..a], rest);
      r
    else
      assert r[0] == s[a];
      assert r[|r| - 1] == rest[|rest| - b - 1];
      assert !IsWhitespace(s[a]);
      r
  }

  /** The trim is the only piece of `s` that is bounded by non-whitespace on
      both ends and has only whitespace around it. */
  lemma TrimUnique(s: string, r: string)
    requires r != [] && !IsWhitespace(r[0]) && !IsWhitespace(r[|r| - 1])
    requires WhitespaceAround(s, r)
    ensures r == Trim(s)
  {
    var t := Trim(s);
    var a := AroundAt(s, r);
    var b := AroundAt(s, t);
    PieceUnique(s, r, a, t, b);
  }

  /** Where `r` sits in `s`. */
  lemma AroundAt(s: string, r: string) returns (a: nat)
    requires WhitespaceAround(s, r)
    ensures a + |r| <= |s| && s[a..a + |r|] == r && AllWhitespace(s[..a]) && AllWhitespace(s[a + |r|..])
  {
    a :| 0 <= a <= |s| - |r| && s[a..a + |r|] == r && AllWhitespace(s[..a]) && AllWhitespace(s[a + |r|..]);
  }

  lemma PieceUnique(s: string, r: string, a: nat, t: string, b: nat)
    requires r != [] && !IsWhitespace(r[0]) && !IsWhitespace(r[|r| - 1])
    requires a + |r| <= |s| && s[a..a + |r|] == r && AllWhitespace(s[..a]) && AllWhitespace(s[a + |r|..])
    requires t == [] <==> AllWhitespace(s)
    requires t != [] ==> !IsWhitespace(t[0]) && !IsWhitespace(t[|t| - 1])
    requires b + |t| <= |s| && s[b..b + |t|] == t && AllWhitespace(s[..b]) && AllWhitespace(s[b + |t|..])
    ensures r == t
  {
    assert s[a] == r[0] && s[a + |r| - 1] == r[|r| - 1];
    assert t != [];
    assert s[b] == t[0] && s[b + |t| - 1] == t[|t| - 1];
    if a < b {
      WhitespaceIn(s[..b], 0, a);
    } else if b < a {
      WhitespaceIn(s[..a], 0, b);
    }
  }

  lemma WhitespaceIn(s: string, k: nat, i: nat)
    requires k <= i < |s| && AllWhitespace(s[k..])
    ensures IsWhitespace(s[i])
  {
    assert s[k..][i - k] == s[i];
  }

  lemma AllWhitespaceConcat(s: string, t: string)
    requires AllWhitespace(s) && AllWhitespace(t)
    ensures AllWhitespace(s + t)
  {
    forall i | 0 <= i < |s + t| ensures IsWhitespace((s + t)[i]) {
      if i >= |s| { assert (s + t)[i] == t[i - |s|]; }
    }
  }

  function LowerChar(c: char): char {
    if 'A' <= c <= 'Z' then (c as int + 32) as char else c
  }

  /** `s.toLowerCase()` on ASCII letters. */
  function Lower(s: string): (r: string)
    ensures |r| == |s|
    ensures forall i | 0 <= i < |s| :: r[i] == LowerChar(s[i])
  {
    seq(|s|, i requires 0 <= i < |s| => LowerChar(s[i]))
  }

  /** `s.includes(t)`: `t` occurs as a contiguous substring of `s`. */
  predicate Includes(s: string, t: string) {
    exists i | 0 <= i <= |s| :: OccursAt(s, t, i)
  }

  // ---------- decimal digits ----------

  predicate IsDigit(c: char) { '0' <= c <= '9' }

  predicate AllDigits(s: string) {
    forall i | 0 <= i < |s| :: IsDigit(s[i])
  }

  function DigitChar(d: nat): (c: char)
    requires d < 10
    ensures IsDigit(c) && c as int - '0' as int == d
  {
    ('0' as int + d) as char
  }

  /** The value of a string of decimal digits, most significant first. */
  function DigitsValue(ds: string): nat
    requires AllDigits(ds)
  {
    if ds == [] then 0
    else DigitsValue(ds[..|ds| - 1]) * 10 + (ds[|ds| - 1] as int - '0' as int)
  }

  /** Decimal representation of a natural number, without leading zeros. */
  function NatToString(n: nat): (s: string)
    ensures |s| >= 1 && AllDigits(s)
    ensures (s[0] == '0') == (n == 0)
  {
    if n < 10 then [DigitChar(n)]
    else NatToString(n / 10) + [DigitChar(n % 10)]
  }

  /** `String(n)` as plain decimal digits; JavaScript agrees below 1e21. */
  function IntToString(n: int): (s: string)
    ensures |s| >= 1 && (IsDigit(s[0]) || s[0] == '-')
  {
    if n < 0 then "-" + NatToString(-n) else NatToString(n)
  }

  lemma {:induction false} NatToStringValue(n: nat)
    ensures DigitsValue(NatToString(n)) == n
  {
    if n >= 10 {
      var s := NatToString(n);
      NatToStringValue(n / 10);
      assert s[..|s| - 1] == NatToString(n / 10);
    }
  }

  /** Number of leading decimal digits. */
  function LeadingDigits(s: string): (n: nat)
    ensures n <= |s|
    ensures AllDigits(s[..n])
    ensures n < |s| ==> !IsDigit(s[n])
  {
    if s == [] || !IsDigit(s[0]) then 0
    else
      var k := LeadingDigits(s[1..]);
      assert s[..k + 1] == [s[0]] + s[1..][..k];
      k + 1
  }

  /** `parseInt(s, 10)`: skip leading whitespace, read an optional sign and the
      longest run of decimal digits; `None` is NaN (no digit at all). */
  function ParseInt(s: string): (r: Option<int>)
    ensures r.None? <==>
      var t := s[LeadingWhitespace(s)..];
      var u := if |t| > 0 && (t[0] == '+' || t[0] == '-') then t[1..] else t;
      u == [] || !IsDigit(u[0])
  {
    var t := s[LeadingWhitespace(s)..];
    var negative := |t| > 0 && t[0] == '-';
    var u := if |t| > 0 && (t[0] == '+' || t[0] == '-') then t[1..] else t;
    var k := LeadingDigits(u);
    if k == 0 then None
    else
      var v: int := DigitsValue(u[..k]);
      Some(if negative then -v else v)
  }

  /** `parseInt(String(n), 10) === n` for the model's `String(n)`. */
  lemma ParseIntOfIntToString(n: int)
    ensures ParseInt(IntToString(n)) == Some(n)
  {
    var s := IntToString(n);
    assert LeadingWhitespace(s) == 0;
    var ds := NatToString(if n < 0 then -n else n);
    assert LeadingDigits(ds) == |ds| by { LeadingDigitsOfDigits(ds); }
    if n < 0 {
      assert s[1..] == ds;
    }
    assert ds[..|ds|] == ds;
    NatToStringValue(if n < 0 then -n else n);
  }

  lemma {:induction false} LeadingDigitsOfDigits(ds: string)
    requires AllDigits(ds)
    ensures LeadingDigits(ds) == |ds|
  {
    if ds != [] { LeadingDigitsOfDigits(ds[1..]); }
  }

  // ---------- String(v) and Number(v) ----------

  function JoinComma(parts: seq<string>): string {
    if parts == [] then ""
    else if |parts| == 1 then parts[0]
    else JoinComma(parts[..|parts| - 1]) + "," + parts[|parts| - 1]
  }

  /** Converting `v` to a primitive (`String(v)`, `Number(v)`, `v - x`)
      throws a TypeError. A parsed object with its own "toString" key has a
      `toString` that is not callable, and `Object.prototype.valueOf` gives the
      object back, so no primitive is found; an array converts through its
      elements. */
  predicate ToPrimitiveThrows(v: Json)
    decreases v
  {
    match v
    case JObj(f) => "toString" in f
    case JArr(xs) => exists i | 0 <= i < |xs| :: ToPrimitiveThrows(xs[i])
    case _ => false
  }

  /** `String(v)`; an array is joined with commas, its null elements
      becoming empty strings. */
  function ToString(v: Json): (s: string)
    requires !ToPrimitiveThrows(v)
    ensures v.JNull? ==> s == "null"
    ensures v.JBool? ==> s == if v.b then "true" else "false"
    ensures v.JNum? ==> s == IntToString(v.n)
    ensures v.JStr? ==> s == v.s
    ensures v.JObj? ==> s == "[object Object]"
    ensures v.JArr? && |v.items| == 1 && !v.items[0].JNull? ==> s == ToString(v.items[0])
    ensures v.JArr? && (v.items == [] || v.items == [JNull]) ==> s == ""
    decreases v
  {
    match v
    case JNull => "null"
    case JBool(b) => if b then "true" else "false"
    case JNum(n) => IntToString(n)
    case JStr(s) => s
    case JArr(xs) =>
      JoinComma(seq(|xs|, i requires 0 <= i < |xs| =>
        if xs[i].JNull? then "" else ToString(xs[i])))
    case JObj(_) => "[object Object]"
  }

  /** `String(v.key)`; reading a missing property gives "undefined". */
  function PropToString(p: Prop): string
    requires !p.Throws? && !(p.Defined? && ToPrimitiveThrows(p.value))
  {
    if p.Defined? then ToString(p.value) else "undefined"
  }

  /** A JavaScript number: an integer or NaN. */
  datatype Number = Finite(v: int) | NaN

  /** `Number(s)` for the decimal integer literals the model covers: surrounding
      whitespace is ignored, a blank string is 0, an optionally signed run of
      digits is its value, anything else is NaN. */
  function StringToNumber(s: string): (r: Number)
    ensures AllWhitespace(s) ==> r == Finite(0)
    ensures r.Finite? && !AllWhitespace(s) ==> exists k | 0 <= k < |s| :: IsDigit(s[k])
  {
    LiteralNumber(Trim(s))
  }

  /** The value of a trimmed numeric literal. */
  function LiteralNumber(t: string): Number {
    if t == "" then Finite(0)
    else
      var negative := t[0] == '-';
      var u := if t[0] == '+' || t[0] == '-' then t[1..] else t;
      if u != [] && AllDigits(u) then
        var v: int := DigitsValue(u);
        Finite(if negative then -v else v)
      else NaN
  }

  /** `Number(v)`, the coercion applied to an operand of binary `-`. */
  function ToNumber(v: Json): (r: Number)
    requires !ToPrimitiveThrows(v)
    ensures v.JNull? ==> r == Finite(0)
    ensures v.JBool? ==> r == Finite(if v.b then 1 else 0)
    ensures v.JNum? ==> r == Finite(v.n)
    ensures v.JObj? ==> r == NaN
    ensures v == JArr([]) ==> r == Finite(0)
    ensures v.JStr? ==> r == StringToNumber(v.s)
  {
    match v
    case JNull => Finite(0)
    case JBool(b) => Finite(if b then 1 else 0)
    case JNum(n) => Finite(n)
    case JStr(s) => StringToNumber(s)
    case JArr(_) => StringToNumber(ToString(v))
    case JObj(_) => NaN
  }

  /** `Number(s)` reads back a decimal integer with whitespace around it,
      the form a string timestamp takes. */
  lemma StringToNumberOfIntToString(ws1: string, n: int, ws2: string)
    requires AllWhitespace(ws1) && AllWhitespace(ws2)
    ensures StringToNumber(ws1 + IntToString(n) + ws2) == Finite(n)
  {
    TrimAroundIntToString(ws1, n, ws2);
    LiteralNumberOfIntToString(n);
  }

  lemma LiteralNumberOfIntToString(n: int)
    ensures LiteralNumber(IntToString(n)) == Finite(n)
  {
    var d := IntToString(n);
    var ds := NatToString(if n < 0 then -n else n);
    NatToStringValue(if n < 0 then -n else n);
    if n < 0 {
      assert d[1..] == ds;
    }
  }

  lemma TrimAroundIntToString(ws1: string, n: int, ws2: string)
    requires AllWhitespace(ws1) && AllWhitespace(ws2)
    ensures Trim(ws1 + IntToString(n) + ws2) == IntToString(n)
  {
    var d := IntToString(n);
    var s := ws1 + d + ws2;
    var ds := NatToString(if n < 0 then -n else n);
    assert d[|d| - 1] == ds[|ds| - 1];
    assert IsDigit(ds[|ds| - 1]);
    assert s[|ws1|..|ws1| + |d|] == d && s[..|ws1|] == ws1 && s[|ws1| + |d|..] == ws2;
    assert WhitespaceAround(s, d);
    TrimUnique(s, d);
  }
}
