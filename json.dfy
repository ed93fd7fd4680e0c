/** The JSON text that `JSON.stringify` writes and `JSON.parse` reads back, as
    the session store uses it for the `user` entry (controllers/auth.js).
    Values are the JSON-able values a user profile can hold; numbers are
    restricted to integers. */
module Json {
  import opened Wrappers

  datatype Json =
    | JNull
    | JBool(b: bool)
    | JNum(n: int)
    | JStr(s: string)
    | JArr(items: seq<Json>)
    | JObj(members: seq<Member>)

  datatype Member = Member(key: string, value: Json)

  /** Stands for the message of the `SyntaxError` that `JSON.parse` throws on
      malformed text. The real text depends on the JavaScript engine; this
      one is a placeholder. */
  const SyntaxError: string := "SyntaxError: JSON.parse: malformed JSON text"

  /** JavaScript truthiness of a parsed value (`if (x)`, `x ? … : …`, `x || y`). */
  predicate Truthy(v: Json)
    ensures !Truthy(v) <==> v == JNull || v == JBool(false) || v == JNum(0) || v == JStr("")
  {
    match v
    case JNull => false
    case JBool(b) => b
    case JNum(n) => n != 0
    case JStr(s) => s != ""
    case JArr(_) => true
    case JObj(_) => true
  }

  /** `v[key]` on a parsed value: the last member with that key, as `JSON.parse`
      keeps the last of duplicated keys; `None` stands for `undefined`. */
  function Get(v: Json, key: string): (r: Option<Json>)
    ensures r.Some? ==> v.JObj? && Member(key, r.value) in v.members
    ensures r.None? ==> !v.JObj? || forall m :: m in v.members ==> m.key != key
  {
    if v.JObj? then LastValue(v.members, key) else None
  }

  function LastValue(ms: seq<Member>, key: string): (r: Option<Json>)
    ensures r.Some? ==> Member(key, r.value) in ms
    ensures r.None? ==> forall m :: m in ms ==> m.key != key
  {
    if ms == [] then None
    else if ms[|ms| - 1].key == key then Some(ms[|ms| - 1].value)
    else LastValue(ms[..|ms| - 1], key)
  }

  // ---------------------------------------------------------------------------
  // Characters

  predicate IsDigit(c: char) { '0' <= c <= '9' }

  /** The four whitespace characters the JSON grammar allows between tokens. */
  predicate IsWs(c: char) { c == ' ' || c == '\t' || c == '\n' || c == '\r' }

  /** Characters a serialised value can start with. */
  predicate StartsValue(c: char) {
    c == 'n' || c == 't' || c == 'f' || c == '\"' || c == '[' || c == '{' || c == '-' || IsDigit(c)
  }

  function DigitChar(d: nat): (c: char)
    requires d < 10
    ensures IsDigit(c) && DigitValue(c) == d
  {
    ('0' as int + d) as char
  }

  /** Lower-case hexadecimal digit, as `JSON.stringify` writes in `\u00XX`. */
  function HexDigit(d: nat): char
    requires d < 16
  {
    if d < 10 then ('0' as int + d) as char else ('a' as int + d - 10) as char
  }

  function HexValue(c: char): (r: Option<nat>)
    ensures r.Some? ==> r.value < 16
  {
    if '0' <= c <= '9' then Some(c as int - '0' as int)
    else if 'a' <= c <= 'f' then Some(c as int - 'a' as int + 10)
    else if 'A' <= c <= 'F' then Some(c as int - 'A' as int + 10)
    else None
  }

  lemma HexValueOfDigit(d: nat)
    requires d < 16
    ensures HexValue(HexDigit(d)) == Some(d)
  {
  }

  // ---------------------------------------------------------------------------
  // JSON.stringify

  /** Decimal text of a natural number, without leading zeros. */
  function NatText(n: nat): (r: string)
    ensures r != [] && forall i :: 0 <= i < |r| ==> IsDigit(r[i])
    ensures (r[0] == '0') == (n == 0)
    ensures n == 0 ==> r == "0"
  {
    if n < 10 then [DigitChar(n)] else NatText(n / 10) + [DigitChar(n % 10)]
  }

  function NumberText(n: int): string {
    if n < 0 then "-" + NatText(-n) else NatText(n)
  }

  /** How `JSON.stringify` writes one character inside a string literal. */
  function EscapeChar(c: char): string {
    if c == '\"' then "\\\""
    else if c == '\\' then "\\\\"
    else if c == '\U{8}' then "\\b"
    else if c == '\U{C}' then "\\f"
    else if c == '\n' then "\\n"
    else if c == '\r' then "\\r"
    else if c == '\t' then "\\t"
    else if c < ' ' then "\\u00" + [HexDigit(c as int / 16), HexDigit(c as int % 16)]
    else [c]
  }

  function Escape(s: string): string {
    if s == [] then [] else EscapeChar(s[0]) + Escape(s[1..])
  }

  function Quote(s: string): string {
    "\"" + Escape(s) + "\""
  }

  /** `JSON.stringify(v)`: compact text, no whitespace between tokens. */
  function Stringify(v: Json): (r: string)
    ensures r != [] && StartsValue(r[0])
  {
    match v
    case JNull => "null"
    case JBool(b) => if b then "true" else "false"
    case JNum(n) => NumberText(n)
    case JStr(s) => Quote(s)
    case JArr(items) => "[" + ElementsText(items) + "]"
    case JObj(members) => "{" + MembersText(members) + "}"
  }

  function ElementsText(items: seq<Json>): string {
    if items == [] then ""
    else if |items| == 1 then Stringify(items[0])
    else Stringify(items[0]) + "," + ElementsText(items[1..])
  }

  function MemberText(m: Member): string {
    Quote(m.key) + ":" + Stringify(m.value)
  }

  function MembersText(members: seq<Member>): string {
    if members == [] then ""
    else if |members| == 1 then MemberText(members[0])
    else MemberText(members[0]) + "," + MembersText(members[1..])
  }

  // ---------------------------------------------------------------------------
  // JSON.parse

  function SkipWs(s: string): (r: string)
    ensures |r| <= |s|
    ensures r == [] || !IsWs(r[0])
  {
    if s != [] && IsWs(s[0]) then SkipWs(s[1..]) else s
  }

  /** Length of the longest prefix of decimal digits. */
  function DigitSpan(s: string): (k: nat)
    ensures k <= |s|
    ensures forall i :: 0 <= i < k ==> IsDigit(s[i])
    ensures k < |s| ==> !IsDigit(s[k])
  {
    if s != [] && IsDigit(s[0]) then 1 + DigitSpan(s[1..]) else 0
  }

  function DigitValue(c: char): (d: nat)
    requires IsDigit(c)
    ensures d < 10
  {
    c as int - '0' as int
  }

  function DigitsValue(ds: string): nat
    requires forall i :: 0 <= i < |ds| ==> IsDigit(ds[i])
  {
    if ds == [] then 0 else DigitsValue(ds[..|ds| - 1]) * 10 + DigitValue(ds[|ds| - 1])
  }

  /** `0` or a digit run without a leading zero. */
  function ParseNat(s: string): (r: Option<(int, string)>)
    ensures r.Some? ==> r.value.0 >= 0 && |r.value.1| < |s|
  {
    if s == [] || !IsDigit(s[0]) then None
    else if s[0] == '0' then Some((0, s[1..]))
    else
      var k := DigitSpan(s);
      Some((DigitsValue(s[..k]), s[k..]))
  }

  function ParseNumber(s: string): (r: Option<(int, string)>)
    ensures r.Some? ==> |r.value.1| < |s|
  {
    if s != [] && s[0] == '-' then
      match ParseNat(s[1..])
      case None => None
      case Some((n, rest)) => Some((-n, rest))
    else ParseNat(s)
  }

  /** The character an escape sequence (after its backslash) stands for. */
  function DecodeEscape(s: string): (r: Option<(char, string)>)
    ensures r.Some? ==> |r.value.1| < |s|
  {
    if s == [] then None
    else if s[0] == '\"' || s[0] == '\\' || s[0] == '/' then Some((s[0], s[1..]))
    else if s[0] == 'b' then Some(('\U{8}', s[1..]))
    else if s[0] == 'f' then Some(('\U{C}', s[1..]))
    else if s[0] == 'n' then Some(('\n', s[1..]))
    else if s[0] == 'r' then Some(('\r', s[1..]))
    else if s[0] == 't' then Some(('\t', s[1..]))
    else if s[0] == 'u' then DecodeUnicode(s[1..])
    else None
  }

  /** The code unit written by the four hex digits that start `s`. */
  function Hex4(s: string): (r: Option<nat>)
    requires |s| >= 4
    ensures r.Some? ==> r.value < 0x10000
  {
    match (HexValue(s[0]), HexValue(s[1]), HexValue(s[2]), HexValue(s[3]))
    case (Some(a), Some(b), Some(c), Some(d)) => Some(a * 4096 + b * 256 + c * 16 + d)
    case _ => None
  }

  /** The character a `\u` escape stands for (`s` follows the `u`). A high
      surrogate followed by a `\u` escape of a low surrogate is one character
      beyond U+FFFF; a surrogate on its own is refused. */
  function DecodeUnicode(s: string): (r: Option<(char, string)>)
    ensures r.Some? ==> |r.value.1| < |s|
  {
    if |s| < 4 then None
    else
      match Hex4(s)
      case None => None
      case Some(code) =>
        if code < 0xD800 || 0xE000 <= code then Some((code as char, s[4..]))
        else if code < 0xDC00 && |s| >= 10 && s[4] == '\\' && s[5] == 'u' then
          match Hex4(s[6..])
          case Some(low) =>
            if 0xDC00 <= low < 0xE000 then
              Some(((0x10000 + (code - 0xD800) * 0x400 + (low - 0xDC00)) as char, s[10..]))
            else None
          case None => None
        else None
  }

  /** The rest of a string literal after its opening quote: its characters and
      what follows the closing quote. Raw control characters are refused. */
  function ParseStringBody(s: string): (r: Option<(string, string)>)
    ensures r.Some? ==> |r.value.1| < |s|
    decreases |s|
  {
    if s == [] then None
    else if s[0] == '\"' then Some(([], s[1..]))
    else if s[0] == '\\' then
      match DecodeEscape(s[1..])
      case None => None
      case Some((c, after)) =>
        match ParseStringBody(after)
        case None => None
        case Some((x, rest)) => Some(([c] + x, rest))
    else if s[0] < ' ' then None
    else
      match ParseStringBody(s[1..])
      case None => None
      case Some((x, rest)) => Some(([s[0]] + x, rest))
  }

  /** One value with the whitespace around it. */
  function ParseValue(s: string): (r: Option<(Json, string)>)
    ensures r.Some? ==> |r.value.1| < |s|
    decreases |s|, 1
  {
    var t := SkipWs(s);
    match ParseBare(t)
    case None => None
    case Some((v, rest)) => Some((v, SkipWs(rest)))
  }

  /** One value starting at the first character of `t`. */
  function ParseBare(t: string): (r: Option<(Json, string)>)
    ensures r.Some? ==> |r.value.1| < |t|
    decreases |t|, 0
  {
    if t == [] then None
    else if t[0] == 'n' then (if |t| >= 4 && t[..4] == "null" then Some((JNull, t[4..])) else None)
    else if t[0] == 't' then (if |t| >= 4 && t[..4] == "true" then Some((JBool(true), t[4..])) else None)
    else if t[0] == 'f' then (if |t| >= 5 && t[..5] == "false" then Some((JBool(false), t[5..])) else None)
    else if t[0] == '-' || IsDigit(t[0]) then
      match ParseNumber(t)
      case None => None
      case Some((n, rest)) => Some((JNum(n), rest))
    else if t[0] == '\"' then
      match ParseStringBody(t[1..])
      case None => None
      case Some((x, rest)) => Some((JStr(x), rest))
    else if t[0] == '[' then
      match ParseArray(t[1..])
      case None => None
      case Some((items, rest)) => Some((JArr(items), rest))
    else if t[0] == '{' then
      match ParseObject(t[1..])
      case None => None
      case Some((members, rest)) => Some((JObj(members), rest))
    else None
  }

  /** The rest of an array after `[`. */
  function ParseArray(s: string): (r: Option<(seq<Json>, string)>)
    ensures r.Some? ==> |r.value.1| < |s|
    decreases |s|, 3
  {
    var t := SkipWs(s);
    if t != [] && t[0] == ']' then Some(([], t[1..])) else ParseElements(t)
  }

  /** One or more comma-separated values and the closing `]`. */
  function ParseElements(s: string): (r: Option<(seq<Json>, string)>)
    ensures r.Some? ==> |r.value.1| < |s|
    decreases |s|, 2
  {
    match ParseValue(s)
    case None => None
    case Some((v, rest)) =>
      if rest != [] && rest[0] == ']' then Some(([v], rest[1..]))
      else if rest != [] && rest[0] == ',' then
        match ParseElements(rest[1..])
        case None => None
        case Some((vs, after)) => Some(([v] + vs, after))
      else None
  }

  /** The rest of an object after `{`. */
  function ParseObject(s: string): (r: Option<(seq<Member>, string)>)
    ensures r.Some? ==> |r.value.1| < |s|
    decreases |s|, 4
  {
    var t := SkipWs(s);
    if t != [] && t[0] == '}' then Some(([], t[1..])) else ParseMembers(t)
  }

  /** One or more comma-separated members and the closing `}`. */
  function ParseMembers(s: string): (r: Option<(seq<Member>, string)>)
    ensures r.Some? ==> |r.value.1| < |s|
    decreases |s|, 3
  {
    match ParseMember(s)
    case None => None
    case Some((m, rest)) =>
      if rest != [] && rest[0] == '}' then Some(([m], rest[1..]))
      else if rest != [] && rest[0] == ',' then
        match ParseMembers(rest[1..])
        case None => None
        case Some((ms, after)) => Some(([m] + ms, after))
      else None
  }

  /** One `"key": value` pair with the whitespace around it. */
  function ParseMember(s: string): (r: Option<(Member, string)>)
    ensures r.Some? ==> |r.value.1| < |s|
    decreases |s|, 2
  {
    var t := SkipWs(s);
    if t == [] || t[0] != '\"' then None
    else
      match ParseStringBody(t[1..])
      case None => None
      case Some((key, afterKey)) =>
        var u := SkipWs(afterKey);
        if u == [] || u[0] != ':' then None
        else
          match ParseValue(u[1..])
          case None => None
          case Some((v, rest)) => Some((Member(key, v), rest))
  }

  /** `JSON.parse(text)`: one value and nothing but whitespace around it. */
  function Parse(text: string): (r: Result<Json>)
    ensures r.Failure? ==> r.error == SyntaxError
  {
    match ParseValue(text)
    case Some((v, rest)) => if rest == [] then Success(v) else Failure(SyntaxError)
    case None => Failure(SyntaxError)
  }

  // ---------------------------------------------------------------------------
  // Round trip: JSON.parse(JSON.stringify(v)) gives v back

  /** What may follow a value in serialised text: the end, or a delimiter. */
  predicate Follows(t: string) {
    t == [] || (!IsWs(t[0]) && !IsDigit(t[0]))
  }

  lemma {:induction false} DigitsValueOfNatText(n: nat)
    ensures DigitsValue(NatText(n)) == n
  {
    var r := NatText(n);
    if n >= 10 {
      DigitsValueOfNatText(n / 10);
      assert r[..|r| - 1] == NatText(n / 10);
    }
  }

  lemma {:induction false} DigitSpanOfDigits(ds: string, t: string)
    requires forall i :: 0 <= i < |ds| ==> IsDigit(ds[i])
    requires t == [] || !IsDigit(t[0])
    ensures DigitSpan(ds + t) == |ds|
  {
    if ds != [] {
      assert (ds + t)[1..] == ds[1..] + t;
      DigitSpanOfDigits(ds[1..], t);
    }
  }

  lemma {:induction false} NatRoundTrip(n: nat, t: string)
    requires t == [] || !IsDigit(t[0])
    ensures ParseNat(NatText(n) + t) == Some((n, t))
  {
    var ds := NatText(n);
    var s := ds + t;
    if n != 0 {
      DigitSpanOfDigits(ds, t);
      assert s[..|ds|] == ds;
      assert s[|ds|..] == t;
      DigitsValueOfNatText(n);
    } else {
      assert s[1..] == t;
    }
  }

  lemma {:induction false} NumberRoundTrip(n: int, t: string)
    requires t == [] || !IsDigit(t[0])
    ensures ParseNumber(NumberText(n) + t) == Some((n, t))
  {
    if n < 0 {
      NegativeRoundTrip(n, t);
    } else {
      UnsignedRoundTrip(n, t);
    }
  }

  lemma {:induction false} NegativeRoundTrip(n: int, t: string)
    requires n < 0 && (t == [] || !IsDigit(t[0]))
    ensures ParseNumber(NumberText(n) + t) == Some((n, t))
  {
    var ds := NatText(-n);
    var u := ds + t;
    assert NumberText(n) + t == "-" + u by {
      assert NumberText(n) == "-" + ds;
      SeqAssoc3("-", ds, t);
    }
    NatRoundTrip(-n, t);
    NegativeStep(u);
  }

  lemma SeqAssoc3(a: string, b: string, c: string)
    ensures a + b + c == a + (b + c)
  {
  }

  /** After a `-`, the number is the negated natural that follows. */
  lemma NegativeStep(u: string)
    ensures ParseNumber("-" + u) ==
      match ParseNat(u)
      case None => None
      case Some((k, rest)) => Some((-k, rest))
  {
    assert ("-" + u)[0] == '-' && ("-" + u)[1..] == u;
  }

  lemma {:induction false} UnsignedRoundTrip(n: nat, t: string)
    requires t == [] || !IsDigit(t[0])
    ensures ParseNumber(NumberText(n) + t) == Some((n, t))
  {
    NatRoundTrip(n, t);
    assert (NatText(n) + t)[0] == NatText(n)[0];
  }

  /** Decoding the text `EscapeChar(c)` yields `c` and continues after it. */
  lemma EscapeCharStep(c: char, u: string)
    ensures ParseStringBody(EscapeChar(c) + u) ==
      match ParseStringBody(u)
      case None => None
      case Some((x, rest)) => Some(([c] + x, rest))
  {
    var s := EscapeChar(c) + u;
    if c == '\"' || c == '\\' || c == '\U{8}' || c == '\U{C}' || c == '\n' || c == '\r' || c == '\t' {
      NamedEscape(c, u);
      EscapedStep(s, c, u);
    } else if c < ' ' {
      ControlEscape(c, u);
      EscapedStep(s, c, u);
    } else {
      assert s[0] == c && s[1..] == u;
    }
  }

  /** A backslash and an escape sequence for `c`, then `u`. */
  lemma EscapedStep(s: string, c: char, u: string)
    requires s != [] && s[0] == '\\' && DecodeEscape(s[1..]) == Some((c, u))
    ensures ParseStringBody(s) ==
      match ParseStringBody(u)
      case None => None
      case Some((x, rest)) => Some(([c] + x, rest))
  {
  }

  /** The two-character escapes decode to the character they stand for. */
  lemma NamedEscape(c: char, u: string)
    requires c == '\"' || c == '\\' || c == '\U{8}' || c == '\U{C}' || c == '\n' || c == '\r' || c == '\t'
    ensures var s := EscapeChar(c) + u; s != [] && s[0] == '\\' && DecodeEscape(s[1..]) == Some((c, u))
  {
    var s := EscapeChar(c) + u;
    assert |EscapeChar(c)| == 2;
    assert s[0] == '\\' && s[1..][1..] == u;
  }

  /** The other control characters are written as `\u00` and two hex digits,
      which decode back to them. */
  lemma ControlEscape(c: char, u: string)
    requires c < ' ' && !(c == '\U{8}' || c == '\U{C}' || c == '\n' || c == '\r' || c == '\t')
    ensures var s := EscapeChar(c) + u; s != [] && s[0] == '\\' && DecodeEscape(s[1..]) == Some((c, u))
  {
    var s := EscapeChar(c) + u;
    var hi, lo := c as int / 16, c as int % 16;
    HexValueOfDigit(0);
    HexValueOfDigit(hi);
    HexValueOfDigit(lo);
    var e := s[1..];
    assert s[0] == '\\';
    assert e[0] == 'u';
    var h := e[1..];
    assert h[0] == '0' && h[1] == '0' && h[2] == HexDigit(hi) && h[3] == HexDigit(lo);
    assert Hex4(h) == Some(hi * 16 + lo);
    assert h[4..] == u;
    assert (hi * 16 + lo) as char == c;
  }

  /** Four lower-case hex digits writing a code unit. */
  function HexText(n: nat): (r: string)
    requires n < 0x10000
    ensures |r| == 4
  {
    [HexDigit(n / 16 / 16 / 16), HexDigit(n / 16 / 16 % 16), HexDigit(n / 16 % 16), HexDigit(n % 16)]
  }

  lemma HexTextValue(n: nat)
    requires n < 0x10000
    ensures Hex4(HexText(n)) == Some(n)
  {
    var q1 := n / 16;
    var q2 := q1 / 16;
    var a, b, c, d := q2 / 16, q2 % 16, q1 % 16, n % 16;
    assert n == q1 * 16 + d && q1 == q2 * 16 + c && q2 == a * 16 + b;
    HexValueOfDigit(a);
    HexValueOfDigit(b);
    HexValueOfDigit(c);
    HexValueOfDigit(d);
    var h := HexText(n);
    assert HexValue(h[0]) == Some(a) && HexValue(h[1]) == Some(b);
    assert HexValue(h[2]) == Some(c) && HexValue(h[3]) == Some(d);
  }

  /** The UTF-16 high surrogate of a character beyond U+FFFF. */
  function HighSurrogate(c: char): (r: nat)
    requires c as int >= 0x10000
    ensures 0xD800 <= r < 0xDC00
  {
    0xD800 + (c as int - 0x10000) / 0x400
  }

  /** The UTF-16 low surrogate of a character beyond U+FFFF. */
  function LowSurrogate(c: char): (r: nat)
    requires c as int >= 0x10000
    ensures 0xDC00 <= r < 0xE000
  {
    0xDC00 + (c as int - 0x10000) % 0x400
  }

  lemma SurrogateValue(c: char)
    requires c as int >= 0x10000
    ensures 0x10000 + (HighSurrogate(c) - 0xD800) * 0x400 + (LowSurrogate(c) - 0xDC00) == c as int
  {
  }

  /** A character beyond U+FFFF, escaped as its UTF-16 high and low
      surrogates (`\ud83d\ude00` for U+1F600), decodes back to that one
      character. */
  lemma SurrogatePairEscape(c: char, u: string)
    requires c as int >= 0x10000
    ensures DecodeEscape("u" + HexText(HighSurrogate(c)) + "\\u" + HexText(LowSurrogate(c)) + u) == Some((c, u))
  {
    var high, low := HighSurrogate(c), LowSurrogate(c);
    var e := HexText(high) + "\\u" + HexText(low) + u;
    var s := "u" + e;
    assert s == "u" + HexText(high) + "\\u" + HexText(low) + u;
    assert s[0] == 'u' && s[1..] == e;
    PairDecodes(high, low, u);
    SurrogateValue(c);
  }

  /** A string literal holding one character beyond U+FFFF, written as a
      surrogate pair of escapes, parses to that character. */
  lemma ParseSurrogatePair(c: char, t: string)
    requires c as int >= 0x10000
    ensures ParseStringBody("\\u" + HexText(HighSurrogate(c)) + "\\u" + HexText(LowSurrogate(c)) + "\"" + t) ==
      Some(([c], t))
  {
    var u := "\"" + t;
    var e := "u" + HexText(HighSurrogate(c)) + "\\u" + HexText(LowSurrogate(c)) + u;
    var s := "\\" + e;
    assert s == "\\u" + HexText(HighSurrogate(c)) + "\\u" + HexText(LowSurrogate(c)) + "\"" + t;
    assert s[0] == '\\' && s[1..] == e;
    SurrogatePairEscape(c, u);
    LastEscape(s, c, t);
  }

  /** A backslash, an escape sequence for `c`, then the closing quote. */
  lemma LastEscape(s: string, c: char, t: string)
    requires s != [] && s[0] == '\\' && DecodeEscape(s[1..]) == Some((c, "\"" + t))
    ensures ParseStringBody(s) == Some(([c], t))
  {
    var u := "\"" + t;
    EscapedStep(s, c, u);
    assert u[0] == '\"' && u[1..] == t;
    assert ParseStringBody(u) == Some(([], t));
    assert [c] + [] == [c];
  }

  lemma PairDecodes(high: nat, low: nat, u: string)
    requires 0xD800 <= high < 0xDC00 && 0xDC00 <= low < 0xE000
    ensures DecodeUnicode(HexText(high) + "\\u" + HexText(low) + u) ==
      Some(((0x10000 + (high - 0xD800) * 0x400 + (low - 0xDC00)) as char, u))
  {
    HexTextValue(high);
    HexTextValue(low);
    HexPairDecodes(HexText(high), HexText(low), high, low, u);
  }

  lemma HexPairDecodes(h: string, l: string, high: nat, low: nat, u: string)
    requires |h| == 4 && |l| == 4 && Hex4(h) == Some(high) && Hex4(l) == Some(low)
    requires 0xD800 <= high < 0xDC00 && 0xDC00 <= low < 0xE000
    ensures DecodeUnicode(h + "\\u" + l + u) ==
      Some(((0x10000 + (high - 0xD800) * 0x400 + (low - 0xDC00)) as char, u))
  {
    var e := h + "\\u" + l + u;
    assert e[..4] == h;
    Hex4Prefix(e, h);
    assert e[4] == '\\' && e[5] == 'u';
    assert e[6..][..4] == l;
    Hex4Prefix(e[6..], l);
    assert e[10..] == u;
  }

  lemma Hex4Prefix(s: string, h: string)
    requires |h| == 4 && |s| >= 4 && s[..4] == h
    ensures Hex4(s) == Hex4(h)
  {
    assert s[0] == h[0] && s[1] == h[1] && s[2] == h[2] && s[3] == h[3];
  }


  /** A high surrogate escape not followed by a low surrogate escape, and a
      low surrogate escape on its own, are refused. */
  lemma LoneSurrogateRefused(n: nat, u: string)
    requires 0xD800 <= n < 0xE000
    requires n >= 0xDC00 || |u| < 6 || u[0] != '\\' || u[1] != 'u' || Hex4(u[2..]).None? ||
             !(0xDC00 <= Hex4(u[2..]).value < 0xE000)
    ensures DecodeEscape("u" + HexText(n) + u).None?
  {
    var e := ("u" + HexText(n) + u)[1..];
    assert e == HexText(n) + u;
    HexTextValue(n);
    assert e[..4] == HexText(n);
    assert Hex4(e) == Hex4(HexText(n));
    if |u| >= 6 {
      assert e[4] == u[0] && e[5] == u[1];
      assert e[6..] == u[2..];
    }
  }

  lemma {:induction false} StringRoundTrip(x: string, t: string)
    ensures ParseStringBody(Escape(x) + "\"" + t) == Some((x, t))
  {
    if x == [] {
      assert Escape(x) + "\"" + t == "\"" + t;
      assert ("\"" + t)[1..] == t;
    } else {
      var u := Escape(x[1..]) + "\"" + t;
      assert Escape(x) + "\"" + t == EscapeChar(x[0]) + u;
      EscapeCharStep(x[0], u);
      StringRoundTrip(x[1..], t);
      assert [x[0]] + x[1..] == x;
    }
  }

  lemma SkipWsNoop(s: string)
    requires s == [] || !IsWs(s[0])
    ensures SkipWs(s) == s
  {
  }

  lemma {:induction false} ValueRoundTrip(v: Json, t: string)
    requires Follows(t)
    ensures ParseValue(Stringify(v) + t) == Some((v, t))
    decreases v, 1
  {
    SkipWsNoop(Stringify(v) + t);
    BareRoundTrip(v, t);
    SkipWsNoop(t);
  }

  lemma {:induction false} BareRoundTrip(v: Json, t: string)
    requires Follows(t)
    ensures ParseBare(Stringify(v) + t) == Some((v, t))
    decreases v, 0
  {
    match v
    case JNull => LiteralRoundTrip(v, t);
    case JBool(_) => LiteralRoundTrip(v, t);
    case JNum(n) => NumberBareRoundTrip(n, t);
    case JStr(x) => StringBareRoundTrip(x, t);
    case JArr(items) =>
      ArrayRoundTrip(items, t);
      ArrayBare(items, t);
    case JObj(members) =>
      ObjectRoundTrip(members, t);
      ObjectBare(members, t);
  }

  lemma LiteralRoundTrip(v: Json, t: string)
    requires v.JNull? || v.JBool?
    ensures ParseBare(Stringify(v) + t) == Some((v, t))
  {
    var s := Stringify(v) + t;
    if v.JNull? {
      assert s[..4] == "null" && s[4..] == t;
    } else if v.b {
      assert s[..4] == "true" && s[4..] == t;
    } else {
      assert s[..5] == "false" && s[5..] == t;
    }
  }

  lemma NumberBareRoundTrip(n: int, t: string)
    requires Follows(t)
    ensures ParseBare(Stringify(JNum(n)) + t) == Some((JNum(n), t))
  {
    NumberRoundTrip(n, t);
    var s := NumberText(n) + t;
    assert s[0] == '-' || IsDigit(s[0]);
  }

  lemma StringBareRoundTrip(x: string, t: string)
    ensures ParseBare(Stringify(JStr(x)) + t) == Some((JStr(x), t))
  {
    var s := Stringify(JStr(x)) + t;
    StringRoundTrip(x, t);
    assert s[1..] == Escape(x) + "\"" + t;
  }

  lemma ArrayBare(items: seq<Json>, t: string)
    requires ParseArray(ElementsText(items) + "]" + t) == Some((items, t))
    ensures ParseBare(Stringify(JArr(items)) + t) == Some((JArr(items), t))
  {
    ArrayText(items, t);
  }

  lemma ArrayText(items: seq<Json>, t: string)
    ensures var s := Stringify(JArr(items)) + t;
      s != [] && s[0] == '[' && s[1..] == ElementsText(items) + "]" + t
  {
    var e := ElementsText(items);
    assert Stringify(JArr(items)) == "[" + e + "]";
    var s := Stringify(JArr(items)) + t;
    assert s == "[" + (e + "]" + t);
  }

  lemma ObjectBare(members: seq<Member>, t: string)
    requires ParseObject(MembersText(members) + "}" + t) == Some((members, t))
    ensures ParseBare(Stringify(JObj(members)) + t) == Some((JObj(members), t))
  {
    ObjectText(members, t);
  }

  lemma ObjectText(members: seq<Member>, t: string)
    ensures var s := Stringify(JObj(members)) + t;
      s != [] && s[0] == '{' && s[1..] == MembersText(members) + "}" + t
  {
    var e := MembersText(members);
    assert Stringify(JObj(members)) == "{" + e + "}";
    var s := Stringify(JObj(members)) + t;
    assert s == "{" + (e + "}" + t);
  }

  lemma {:induction false} ArrayRoundTrip(items: seq<Json>, t: string)
    requires Follows(t)
    ensures ParseArray(ElementsText(items) + "]" + t) == Some((items, t))
    decreases items, 3
  {
    var s := ElementsText(items) + "]" + t;
    if items == [] {
      assert s == "]" + t;
      assert s[1..] == t;
    } else {
      ElementsRoundTrip(items, t);
      var head := Stringify(items[0]);
      assert s[0] == head[0];
      SkipWsNoop(s);
    }
  }

  lemma SeqAssoc5(a: string, b: string, c: string, d: string, e: string)
    ensures a + b + c + d + e == a + (b + (c + d + e))
  {
  }

  lemma ElementsLast(s: string, v: Json, t: string)
    requires ParseValue(s) == Some((v, "]" + t))
    ensures ParseElements(s) == Some(([v], t))
  {
    assert ("]" + t)[1..] == t;
  }

  lemma ElementsMore(s: string, v: Json, tail: string, vs: seq<Json>, t: string)
    requires ParseValue(s) == Some((v, "," + tail))
    requires ParseElements(tail) == Some((vs, t))
    ensures ParseElements(s) == Some(([v] + vs, t))
  {
    assert ("," + tail)[1..] == tail;
  }

  lemma {:induction false} ElementsRoundTrip(items: seq<Json>, t: string)
    requires items != [] && Follows(t)
    ensures ParseElements(ElementsText(items) + "]" + t) == Some((items, t))
    decreases items, 2
  {
    var v, vs := items[0], items[1..];
    assert items == [v] + vs;
    if vs == [] {
      assert items == [v];
      ValueRoundTrip(v, "]" + t);
      ElementsOne(v, t);
    } else {
      var tail := ElementsText(vs) + "]" + t;
      ValueRoundTrip(v, "," + tail);
      ElementsRoundTrip(vs, t);
      ElementsCons(v, vs, t);
    }
  }

  lemma ElementsOne(v: Json, t: string)
    requires ParseValue(Stringify(v) + ("]" + t)) == Some((v, "]" + t))
    ensures ParseElements(ElementsText([v]) + "]" + t) == Some(([v], t))
  {
    var s := Stringify(v) + ("]" + t);
    assert ElementsText([v]) + "]" + t == s;
    ElementsLast(s, v, t);
  }

  lemma ElementsCons(v: Json, vs: seq<Json>, t: string)
    requires vs != []
    requires ParseValue(Stringify(v) + ("," + (ElementsText(vs) + "]" + t))) ==
      Some((v, "," + (ElementsText(vs) + "]" + t)))
    requires ParseElements(ElementsText(vs) + "]" + t) == Some((vs, t))
    ensures ParseElements(ElementsText([v] + vs) + "]" + t) == Some(([v] + vs, t))
  {
    var head, rest := Stringify(v), ElementsText(vs);
    var tail := rest + "]" + t;
    var s := head + ("," + tail);
    ElementsTextCons(v, vs);
    SeqAssoc5(head, ",", rest, "]", t);
    assert ElementsText([v] + vs) + "]" + t == s;
    ElementsMore(s, v, tail, vs, t);
  }

  lemma ElementsTextCons(v: Json, vs: seq<Json>)
    requires vs != []
    ensures ElementsText([v] + vs) == Stringify(v) + "," + ElementsText(vs)
  {
    var l := [v] + vs;
    assert l[0] == v && l[1..] == vs && |l| > 1;
  }

  lemma {:induction false} ObjectRoundTrip(members: seq<Member>, t: string)
    requires Follows(t)
    ensures ParseObject(MembersText(members) + "}" + t) == Some((members, t))
    decreases members, 4
  {
    var s := MembersText(members) + "}" + t;
    if members == [] {
      assert s == "}" + t;
      assert s[1..] == t;
    } else {
      MembersRoundTrip(members, t);
      assert s[0] == '\"';
      SkipWsNoop(s);
    }
  }

  lemma MembersLast(s: string, m: Member, t: string)
    requires ParseMember(s) == Some((m, "}" + t))
    ensures ParseMembers(s) == Some(([m], t))
  {
    assert ("}" + t)[1..] == t;
  }

  lemma MembersMore(s: string, m: Member, tail: string, ms: seq<Member>, t: string)
    requires ParseMember(s) == Some((m, "," + tail))
    requires ParseMembers(tail) == Some((ms, t))
    ensures ParseMembers(s) == Some(([m] + ms, t))
  {
    assert ("," + tail)[1..] == tail;
  }

  lemma {:induction false} MembersRoundTrip(members: seq<Member>, t: string)
    requires members != [] && Follows(t)
    ensures ParseMembers(MembersText(members) + "}" + t) == Some((members, t))
    decreases members, 3
  {
    var m, ms := members[0], members[1..];
    assert members == [m] + ms;
    if ms == [] {
      assert members == [m];
      MemberRoundTrip(m, "}" + t);
      MembersOne(m, t);
    } else {
      var tail := MembersText(ms) + "}" + t;
      MemberRoundTrip(m, "," + tail);
      MembersRoundTrip(ms, t);
      MembersCons(m, ms, t);
    }
  }

  lemma MembersOne(m: Member, t: string)
    requires ParseMember(MemberText(m) + ("}" + t)) == Some((m, "}" + t))
    ensures ParseMembers(MembersText([m]) + "}" + t) == Some(([m], t))
  {
    var s := MemberText(m) + ("}" + t);
    assert MembersText([m]) + "}" + t == s;
    MembersLast(s, m, t);
  }

  lemma MembersCons(m: Member, ms: seq<Member>, t: string)
    requires ms != []
    requires ParseMember(MemberText(m) + ("," + (MembersText(ms) + "}" + t))) ==
      Some((m, "," + (MembersText(ms) + "}" + t)))
    requires ParseMembers(MembersText(ms) + "}" + t) == Some((ms, t))
    ensures ParseMembers(MembersText([m] + ms) + "}" + t) == Some(([m] + ms, t))
  {
    var head, rest := MemberText(m), MembersText(ms);
    var tail := rest + "}" + t;
    var s := head + ("," + tail);
    MembersTextCons(m, ms);
    SeqAssoc5(head, ",", rest, "}", t);
    assert MembersText([m] + ms) + "}" + t == s;
    MembersMore(s, m, tail, ms, t);
  }

  lemma MembersTextCons(m: Member, ms: seq<Member>)
    requires ms != []
    ensures MembersText([m] + ms) == MemberText(m) + "," + MembersText(ms)
  {
    var l := [m] + ms;
    assert l[0] == m && l[1..] == ms && |l| > 1;
  }

  lemma {:induction false} MemberRoundTrip(m: Member, next: string)
    requires Follows(next)
    ensures ParseMember(MemberText(m) + next) == Some((m, next))
    decreases m, 2
  {
    ValueRoundTrip(m.value, next);
    MemberKey(m, next);
  }

  /** A member's text starts with its quoted key, then the `:` and the value. */
  lemma {:induction false} MemberKey(m: Member, next: string)
    requires ParseValue(Stringify(m.value) + next) == Some((m.value, next))
    ensures ParseMember(MemberText(m) + next) == Some((m, next))
  {
    var afterKey := ":" + (Stringify(m.value) + next);
    MemberTextParts(m, next);
    StringRoundTrip(m.key, afterKey);
    MemberStep(MemberText(m) + next, m.key, afterKey, m.value, next);
  }

  /** The text of a member followed by `next`, cut where `ParseMember` cuts it. */
  lemma MemberTextParts(m: Member, next: string)
    ensures var s, afterKey := MemberText(m) + next, ":" + (Stringify(m.value) + next);
      && s != [] && s[0] == '\"' && SkipWs(s) == s
      && s[1..] == Escape(m.key) + "\"" + afterKey
      && afterKey != [] && afterKey[0] == ':' && SkipWs(afterKey) == afterKey
      && afterKey[1..] == Stringify(m.value) + next
  {
    var e, value := Escape(m.key), Stringify(m.value);
    var afterKey := ":" + (value + next);
    var s := MemberText(m) + next;
    assert s == "\"" + (e + "\"" + afterKey) by {
      SeqAssoc4Right("\"" + e + "\"", ":", value, next);
      SeqAssoc4Left("\"", e, "\"", afterKey);
    }
    HeadTail('\"', e + "\"" + afterKey);
    HeadTail(':', value + next);
    SkipWsNoop(s);
    SkipWsNoop(afterKey);
  }

  lemma HeadTail(c: char, rest: string)
    ensures ([c] + rest)[0] == c && ([c] + rest)[1..] == rest
  {
  }

  lemma SeqAssoc4Right(a: string, b: string, c: string, d: string)
    ensures a + b + c + d == a + (b + (c + d))
  {
  }

  lemma SeqAssoc4Left(a: string, b: string, c: string, d: string)
    ensures a + b + c + d == a + (b + c + d)
  {
  }

  /** `ParseMember` in terms of its parts: a quoted key, a `:`, a value. */
  lemma MemberStep(s: string, key: string, afterKey: string, v: Json, next: string)
    requires s != [] && s[0] == '\"' && SkipWs(s) == s
    requires ParseStringBody(s[1..]) == Some((key, afterKey))
    requires afterKey != [] && afterKey[0] == ':' && SkipWs(afterKey) == afterKey
    requires ParseValue(afterKey[1..]) == Some((v, next))
    ensures ParseMember(s) == Some((Member(key, v), next))
  {
  }

  /** `JSON.parse(JSON.stringify(v))` is `v`. */
  lemma ParseStringify(v: Json)
    ensures Parse(Stringify(v)) == Success(v)
  {
    ValueRoundTrip(v, []);
    assert Stringify(v) + [] == Stringify(v);
  }

  /** The text `"null"` that `getAuthData` falls back to parses to `null`. */
  lemma ParseNullText()
    ensures Parse("null") == Success(JNull)
  {
    ParseStringify(JNull);
  }
}
