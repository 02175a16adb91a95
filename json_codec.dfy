/**
 * `json.dumps` and `json.loads` for the values of module Json.
 *
 * Encode writes what Python's `json.dumps` writes with its default
 * separators (", " and ": "): strings escape `"`, `\` and the control
 * characters (`\n`, `\r`, `\t`, `\b`, `\f`, otherwise `\u00xx`), and with
 * `ensure_ascii` every character outside ' '..'~' as `\uxxxx`, characters
 * beyond U+FFFF as a surrogate pair. Loads accepts the JSON text
 * `json.loads` accepts, restricted to integers and to strings a Dafny
 * `char` can hold (see README "Left out"): white space around tokens, the
 * escapes, surrogate pairs, and duplicate keys with the last value kept at
 * the first key's position. A `\u` escape of a lone surrogate, which
 * `json.loads` keeps as a lone code unit, is refused.
 */
module JsonCodec {
  import opened Wrappers
  import opened Json

  // ---------------------------------------------------------------------------
  // Decimal and hexadecimal digits
  // ---------------------------------------------------------------------------

  predicate IsDigit(c: char) { '0' <= c <= '9' }

  function DigitChar(d: nat): (c: char)
    requires d < 10
    ensures IsDigit(c)
  {
    ('0' as int + d) as char
  }

  function DigitValue(c: char): nat
    requires IsDigit(c)
  {
    c as int - '0' as int
  }

  predicate AllDigits(s: string) {
    forall k :: 0 <= k < |s| ==> IsDigit(s[k])
  }

  /** `str(n)` for a natural number: no leading zero except for 0 itself. */
  function NatDigits(n: nat): (r: string)
    ensures |r| >= 1 && AllDigits(r)
    ensures r[0] == '0' <==> n == 0
    ensures r[0] == '0' ==> |r| == 1
    decreases n
  {
    if n < 10 then [DigitChar(n)] else NatDigits(n / 10) + [DigitChar(n % 10)]
  }

  /** The number a run of decimal digits denotes. */
  function DigitsValue(ds: string): nat
    requires AllDigits(ds)
  {
    if ds == [] then 0 else DigitsValue(ds[..|ds| - 1]) * 10 + DigitValue(ds[|ds| - 1])
  }

  lemma {:induction false} DigitsValueOfNatDigits(n: nat)
    ensures DigitsValue(NatDigits(n)) == n
    decreases n
  {
    if n >= 10 {
      var ds := NatDigits(n);
      assert ds[..|ds| - 1] == NatDigits(n / 10);
      DigitsValueOfNatDigits(n / 10);
    }
  }

  /** `str(i)` for an integer. */
  function IntText(i: int): string {
    if i < 0 then "-" + NatDigits(-i) else NatDigits(i)
  }

  /** The number of leading decimal digits of `s`. */
  function DigitRun(s: string): (k: nat)
    ensures k <= |s| && AllDigits(s[..k])
    ensures k < |s| ==> !IsDigit(s[k])
  {
    if s != [] && IsDigit(s[0]) then
      var k := DigitRun(s[1..]);
      assert s[..k + 1] == [s[0]] + s[1..][..k];
      1 + k
    else 0
  }

  lemma {:induction false} DigitRunOfDigits(ds: string, rest: string)
    requires AllDigits(ds)
    requires rest == [] || !IsDigit(rest[0])
    ensures DigitRun(ds + rest) == |ds|
  {
    if ds != [] {
      assert (ds + rest)[1..] == ds[1..] + rest;
      DigitRunOfDigits(ds[1..], rest);
    }
  }

  predicate IsHex(c: char) {
    IsDigit(c) || 'a' <= c <= 'f' || 'A' <= c <= 'F'
  }

  function HexChar(d: nat): (c: char)
    requires d < 16
    ensures IsHex(c)
  {
    if d < 10 then DigitChar(d) else ('a' as int + d - 10) as char
  }

  function HexValue(c: char): (d: nat)
    requires IsHex(c)
    ensures d < 16
  {
    if IsDigit(c) then DigitValue(c)
    else if 'a' <= c <= 'f' then c as int - 'a' as int + 10
    else c as int - 'A' as int + 10
  }

  lemma HexValueOfHexChar(d: nat)
    requires d < 16
    ensures HexValue(HexChar(d)) == d
  {
  }

  predicate IsHex4(s: string) {
    |s| == 4 && IsHex(s[0]) && IsHex(s[1]) && IsHex(s[2]) && IsHex(s[3])
  }

  /** `'{0:02x}'.format(n)` */
  function Hex2(n: nat): (r: string)
    requires n < 0x100
    ensures |r| == 2 && IsHex(r[0]) && IsHex(r[1])
  {
    [HexChar(n / 16), HexChar(n % 16)]
  }

  /** `'{0:04x}'.format(n)` */
  function Hex4(n: nat): (r: string)
    requires n < 0x10000
    ensures IsHex4(r)
  {
    Hex2(n / 0x100) + Hex2(n % 0x100)
  }

  function Hex4Value(s: string): (n: nat)
    requires IsHex4(s)
    ensures n < 0x10000
  {
    (HexValue(s[0]) * 16 + HexValue(s[1])) * 0x100 + HexValue(s[2]) * 16 + HexValue(s[3])
  }

  lemma Hex2RoundTrip(n: nat)
    requires n < 0x100
    ensures HexValue(Hex2(n)[0]) * 16 + HexValue(Hex2(n)[1]) == n
  {
    HexValueOfHexChar(n / 16);
    HexValueOfHexChar(n % 16);
  }

  lemma Hex4RoundTrip(n: nat)
    requires n < 0x10000
    ensures Hex4Value(Hex4(n)) == n
  {
    var hi, lo := n / 0x100, n % 0x100;
    Hex2RoundTrip(hi);
    Hex2RoundTrip(lo);
    var h := Hex4(n);
    assert h[0] == Hex2(hi)[0] && h[1] == Hex2(hi)[1] && h[2] == Hex2(lo)[0] && h[3] == Hex2(lo)[1];
    assert n == hi * 0x100 + lo;
  }

  // ---------------------------------------------------------------------------
  // Encoding (json.dumps)
  // ---------------------------------------------------------------------------

  /** The letter of the two-character escape Python uses for `c`, if it has one. */
  function ShortEscape(c: char): Option<char> {
    if c == '\"' then Some('\"')
    else if c == '\\' then Some('\\')
    else if c == '\n' then Some('n')
    else if c == '\r' then Some('r')
    else if c == '\t' then Some('t')
    else if c as int == 8 then Some('b')
    else if c as int == 12 then Some('f')
    else None
  }

  /** `\uxxxx`, or a surrogate pair of them for a character beyond U+FFFF. */
  function UnicodeEscape(c: char): string {
    if c as int < 0x10000 then ['\\', 'u'] + Hex4(c as int) else ['\\', 'u'] + PairEscape(c)
  }

  /** The UTF-16 surrogate pair of a character beyond U+FFFF, after its first `\u`. */
  function PairEscape(c: char): string
    requires c as int >= 0x10000
  {
    Hex4(HighSurrogate(c)) + ['\\', 'u'] + Hex4(LowSurrogate(c))
  }

  function HighSurrogate(c: char): (u: nat)
    requires c as int >= 0x10000
    ensures 0xd800 <= u <= 0xdbff
  {
    0xd800 + (c as int - 0x10000) / 0x400
  }

  function LowSurrogate(c: char): (u: nat)
    requires c as int >= 0x10000
    ensures 0xdc00 <= u <= 0xdfff
  {
    0xdc00 + (c as int - 0x10000) % 0x400
  }

  /** Python's escape for one character of a string literal. */
  function EscapeChar(c: char, ascii: bool): string {
    match ShortEscape(c)
    case Some(e) => ['\\', e]
    case None =>
      if c as int < 0x20 || (ascii && c as int > 0x7e) then UnicodeEscape(c) else [c]
  }

  function Escape(s: string, ascii: bool): string {
    if s == [] then [] else EscapeChar(s[0], ascii) + Escape(s[1..], ascii)
  }

  /** JSON's insignificant white space. */
  predicate IsWs(c: char) {
    c == ' ' || c == '\t' || c == '\n' || c == '\r'
  }

  /** `json.dumps(j, ensure_ascii=ascii)` */
  function Encode(j: Json, ascii: bool): (r: string)
    ensures |r| > 0 && !IsWs(r[0])
    decreases j, 1
  {
    match j
    case JNull => "null"
    case JBool(b) => if b then "true" else "false"
    case JInt(n) => IntText(n)
    case JStr(s) => ['\"'] + Escape(s, ascii) + ['\"']
    case JArr(items) => "[" + EncodeItems(items, ascii) + "]"
    case JObj(fields) => "{" + EncodeFields(fields, ascii) + "}"
  }

  function EncodeItems(items: seq<Json>, ascii: bool): (r: string)
    ensures items != [] ==> |r| > 0 && !IsWs(r[0])
    decreases items
  {
    if items == [] then ""
    else if |items| == 1 then Encode(items[0], ascii)
    else Encode(items[0], ascii) + ", " + EncodeItems(items[1..], ascii)
  }

  function EncodeField(key: string, v: Json, ascii: bool): string
    decreases v, 2
  {
    ['\"'] + Escape(key, ascii) + ['\"'] + ": " + Encode(v, ascii)
  }

  function EncodeFields(fields: Dict, ascii: bool): (r: string)
    ensures fields != [] ==> |r| > 0 && r[0] == '\"'
    decreases fields
  {
    if fields == [] then ""
    else
      var f := fields[0];
      assert f.1 < f;
      if |fields| == 1 then EncodeField(f.0, f.1, ascii)
      else EncodeField(f.0, f.1, ascii) + ", " + EncodeFields(fields[1..], ascii)
  }

  // ---------------------------------------------------------------------------
  // Decoding (json.loads)
  // ---------------------------------------------------------------------------

  function SkipWs(s: string): (r: string)
    ensures |r| <= |s|
    ensures r == [] || !IsWs(r[0])
  {
    if s != [] && IsWs(s[0]) then SkipWs(s[1..]) else s
  }

  /** The character a one-letter escape `\e` stands for. */
  function SimpleEscape(e: char): Option<char> {
    if e == '\"' then Some('\"')
    else if e == '\\' then Some('\\')
    else if e == '/' then Some('/')
    else if e == 'b' then Some(8 as char)
    else if e == 'f' then Some(12 as char)
    else if e == 'n' then Some('\n')
    else if e == 'r' then Some('\r')
    else if e == 't' then Some('\t')
    else None
  }

  /**
   * The text after `\u`: four hex digits, or a high surrogate followed by
   * `\u` and a low surrogate. A lone surrogate is refused.
   */
  function ParseUnicode(s: string): (r: Option<(char, string)>)
    ensures r.Some? ==> |r.value.1| <= |s| - 4
  {
    if |s| < 4 || !IsHex4(s[..4]) then None
    else
      var u := Hex4Value(s[..4]);
      if 0xd800 <= u <= 0xdbff then
        if |s| >= 10 && s[4] == '\\' && s[5] == 'u' && IsHex4(s[6..10])
           && 0xdc00 <= Hex4Value(s[6..10]) <= 0xdfff
        then Some(((0x10000 + (u - 0xd800) * 0x400 + (Hex4Value(s[6..10]) - 0xdc00)) as char, s[10..]))
        else None
      else if 0xdc00 <= u <= 0xdfff then None
      else Some((u as char, s[4..]))
  }

  /** The body of a string literal after its opening quote; `acc` holds what is decoded so far. */
  function ParseStringBody(s: string, acc: string): (r: Option<(string, string)>)
    ensures r.Some? ==> |r.value.1| < |s|
    decreases |s|
  {
    if s == [] then None
    else if s[0] == '\"' then Some((acc, s[1..]))
    else if s[0] == '\\' then
      if |s| < 2 then None
      else if s[1] == 'u' then
        match ParseUnicode(s[2..])
        case None => None
        case Some((c, rest)) => ParseStringBody(rest, acc + [c])
      else
        match SimpleEscape(s[1])
        case None => None
        case Some(c) => ParseStringBody(s[2..], acc + [c])
    else if (s[0] as int) < 0x20 then None
    else ParseStringBody(s[1..], acc + [s[0]])
  }

  /** Decimal digits `0|[1-9][0-9]*`, not followed by a fraction or an exponent. */
  function ParseNat(t: string): (r: Option<(nat, string)>)
    ensures r.Some? ==> |r.value.1| < |t|
  {
    if t == [] || !IsDigit(t[0]) then None
    else
      var k := if t[0] == '0' then 1 else DigitRun(t);
      var rest := t[k..];
      if rest != [] && (rest[0] == '.' || rest[0] == 'e' || rest[0] == 'E') then None
      else
        assert AllDigits(t[..k]);
        Some((DigitsValue(t[..k]), rest))
  }

  /** An integer: `-?(0|[1-9][0-9]*)`. A fraction or an exponent is refused. */
  function ParseNumber(s: string): (r: Option<(int, string)>)
    ensures r.Some? ==> |r.value.1| < |s|
  {
    if s != [] && s[0] == '-' then
      match ParseNat(s[1..])
      case None => None
      case Some((v, rest)) => Some((-(v as int), rest))
    else
      match ParseNat(s)
      case None => None
      case Some((v, rest)) => Some((v, rest))
  }

  /** One JSON value at the very start of `s`, and the text after it. */
  function ParseValue(s: string): (r: Option<(Json, string)>)
    ensures r.Some? ==> |r.value.1| < |s|
    decreases |s|, 0
  {
    if s == [] then None
    else if s[0] == 'n' then
      if |s| >= 4 && s[..4] == "null" then Some((JNull, s[4..])) else None
    else if s[0] == 't' then
      if |s| >= 4 && s[..4] == "true" then Some((JBool(true), s[4..])) else None
    else if s[0] == 'f' then
      if |s| >= 5 && s[..5] == "false" then Some((JBool(false), s[5..])) else None
    else if s[0] == '\"' then
      match ParseStringBody(s[1..], [])
      case None => None
      case Some((str, rest)) => Some((JStr(str), rest))
    else if s[0] == '[' then
      var t := SkipWs(s[1..]);
      if t != [] && t[0] == ']' then Some((JArr([]), t[1..])) else ParseElements(t, [])
    else if s[0] == '{' then
      var t := SkipWs(s[1..]);
      if t != [] && t[0] == '}' then Some((JObj([]), t[1..])) else ParseMembers(t, [])
    else if s[0] == '-' || IsDigit(s[0]) then
      match ParseNumber(s)
      case None => None
      case Some((n, rest)) => Some((JInt(n), rest))
    else None
  }

  /** The elements of an array after `[`: values separated by commas, up to `]`. */
  function ParseElements(s: string, acc: seq<Json>): (r: Option<(Json, string)>)
    ensures r.Some? ==> |r.value.1| < |s|
    decreases |s|, 1
  {
    match ParseValue(s)
    case None => None
    case Some((v, rest)) =>
      var t := SkipWs(rest);
      if t == [] then None
      else if t[0] == ']' then Some((JArr(acc + [v]), t[1..]))
      else if t[0] == ',' then ParseElements(SkipWs(t[1..]), acc + [v])
      else None
  }

  /** The members of an object after `{`: `"key": value` pairs separated by commas, up to `}`. */
  function ParseMembers(s: string, acc: Dict): (r: Option<(Json, string)>)
    ensures r.Some? ==> |r.value.1| < |s|
    decreases |s|, 1
  {
    if s == [] || s[0] != '\"' then None
    else
      match ParseStringBody(s[1..], [])
      case None => None
      case Some((key, r1)) =>
        var r2 := SkipWs(r1);
        if r2 == [] || r2[0] != ':' then None
        else
          match ParseValue(SkipWs(r2[1..]))
          case None => None
          case Some((v, r4)) =>
            var t := SkipWs(r4);
            var fields := Put(acc, key, v);
            if t == [] then None
            else if t[0] == '}' then Some((JObj(fields), t[1..]))
            else if t[0] == ',' then ParseMembers(SkipWs(t[1..]), fields)
            else None
  }

  /** `json.loads(s)`, with `None` where Python raises `JSONDecodeError`. */
  function Loads(s: string): Option<Json> {
    match ParseValue(SkipWs(s))
    case None => None
    case Some((v, rest)) => if SkipWs(rest) == [] then Some(v) else None
  }

  // ---------------------------------------------------------------------------
  // Round trip: json.loads(json.dumps(j)) == j
  // ---------------------------------------------------------------------------

  /** Text that cannot continue a number just before it. */
  predicate ValueStop(rest: string) {
    rest == [] || !(IsDigit(rest[0]) || rest[0] == '.' || rest[0] == 'e' || rest[0] == 'E')
  }

  lemma ParseNatOfNatDigits(n: nat, rest: string)
    requires ValueStop(rest)
    ensures ParseNat(NatDigits(n) + rest) == Some((n, rest))
  {
    var ds := NatDigits(n);
    var t := ds + rest;
    assert t[0] == ds[0];
    if ds[0] != '0' {
      DigitRunOfDigits(ds, rest);
    }
    assert t[..|ds|] == ds && t[|ds|..] == rest;
    DigitsValueOfNatDigits(n);
  }

  lemma ParseNumberOfIntText(i: int, rest: string)
    requires ValueStop(rest)
    ensures ParseNumber(IntText(i) + rest) == Some((i, rest))
  {
    if i < 0 {
      ParseNumberNeg(-i, rest);
    } else {
      ParseNumberNonNeg(i, rest);
    }
  }

  lemma ParseNumberNeg(n: nat, rest: string)
    requires ValueStop(rest) && n > 0
    ensures ParseNumber("-" + NatDigits(n) + rest) == Some((-(n as int), rest))
  {
    var t := NatDigits(n) + rest;
    var s := "-" + NatDigits(n) + rest;
    assert s[0] == '-' && s[1..] == t;
    ParseNatOfNatDigits(n, rest);
  }

  lemma ParseNumberNonNeg(n: nat, rest: string)
    requires ValueStop(rest)
    ensures ParseNumber(NatDigits(n) + rest) == Some((n, rest))
  {
    ParseNatOfNatDigits(n, rest);
  }

  lemma Assoc(a: string, b: string, c: string)
    ensures a + b + c == a + (b + c)
  {
  }

  lemma ParseUnicodeOfHex4(n: nat, t: string)
    requires n < 0x10000 && !(0xd800 <= n <= 0xdfff)
    ensures ParseUnicode(Hex4(n) + t) == Some((n as char, t))
  {
    var s := Hex4(n) + t;
    assert s[..4] == Hex4(n) && s[4..] == t;
    Hex4RoundTrip(n);
  }

  /** The two halves of a surrogate pair combine back into the character. */
  lemma SurrogatesCombine(c: char)
    requires c as int >= 0x10000
    ensures 0x10000 + (HighSurrogate(c) - 0xd800) * 0x400 + (LowSurrogate(c) - 0xdc00) == c as int
  {
    var m := c as int - 0x10000;
    assert m == (m / 0x400) * 0x400 + m % 0x400;
  }

  lemma PairLayout(a: string, b: string, t: string)
    requires |a| == 4 && |b| == 4
    ensures var s := a + ['\\', 'u'] + b + t;
      |s| >= 10 && s[..4] == a && s[4] == '\\' && s[5] == 'u' && s[6..10] == b && s[10..] == t
  {
  }

  lemma ParseUnicodeOfPair(c: char, t: string)
    requires c as int >= 0x10000
    ensures ParseUnicode(PairEscape(c) + t) == Some((c, t))
  {
    var hi, lo := HighSurrogate(c), LowSurrogate(c);
    PairLayout(Hex4(hi), Hex4(lo), t);
    Hex4RoundTrip(hi);
    Hex4RoundTrip(lo);
    SurrogatesCombine(c);
  }

  /** One step of ParseStringBody over a two-character escape such as `\n`. */
  lemma StringBodySimpleEscape(e: char, c: char, t: string, acc: string)
    requires e != 'u' && SimpleEscape(e) == Some(c)
    ensures ParseStringBody(['\\', e] + t, acc) == ParseStringBody(t, acc + [c])
  {
    var s := ['\\', e] + t;
    assert s[0] == '\\' && s[1] == e && s[2..] == t;
  }

  /** One step of ParseStringBody over a `\u` escape. */
  lemma StringBodyUnicode(u: string, c: char, t: string, acc: string)
    requires ParseUnicode(u) == Some((c, t))
    ensures ParseStringBody(['\\', 'u'] + u, acc) == ParseStringBody(t, acc + [c])
  {
    var s := ['\\', 'u'] + u;
    assert s[0] == '\\' && s[1] == 'u' && s[2..] == u;
  }

  /** One step of ParseStringBody over a character that stands for itself. */
  lemma StringBodyPlain(c: char, t: string, acc: string)
    requires c != '\"' && c != '\\' && c as int >= 0x20
    ensures ParseStringBody([c] + t, acc) == ParseStringBody(t, acc + [c])
  {
    var s := [c] + t;
    assert s[0] == c && s[1..] == t;
  }

  lemma StringBodyClose(rest: string, acc: string)
    ensures ParseStringBody(['\"'] + rest, acc) == Some((acc, rest))
  {
    var s := ['\"'] + rest;
    assert s[0] == '\"' && s[1..] == rest;
  }

  /** Every two-character escape the encoder writes is one the decoder reads back. */
  lemma ShortEscapeInverse(c: char)
    requires ShortEscape(c).Some?
    ensures ShortEscape(c).value != 'u' && SimpleEscape(ShortEscape(c).value) == Some(c)
  {
  }

  lemma ParseUnicodeEscape(c: char, t: string, acc: string)
    ensures ParseStringBody(UnicodeEscape(c) + t, acc) == ParseStringBody(t, acc + [c])
  {
    if c as int < 0x10000 {
      ParseBmpEscape(c, t, acc);
    } else {
      ParsePairEscape(c, t, acc);
    }
  }

  lemma ParseBmpEscape(c: char, t: string, acc: string)
    requires c as int < 0x10000
    ensures ParseStringBody(['\\', 'u'] + Hex4(c as int) + t, acc) == ParseStringBody(t, acc + [c])
  {
    var h := Hex4(c as int);
    calc {
      ParseStringBody(['\\', 'u'] + h + t, acc);
      { Assoc(['\\', 'u'], h, t); }
      ParseStringBody(['\\', 'u'] + (h + t), acc);
      { ParseUnicodeOfHex4(c as int, t); StringBodyUnicode(h + t, c, t, acc); }
      ParseStringBody(t, acc + [c]);
    }
  }

  lemma ParsePairEscape(c: char, t: string, acc: string)
    requires c as int >= 0x10000
    ensures ParseStringBody(['\\', 'u'] + PairEscape(c) + t, acc) == ParseStringBody(t, acc + [c])
  {
    var p := PairEscape(c);
    calc {
      ParseStringBody(['\\', 'u'] + p + t, acc);
      { Assoc(['\\', 'u'], p, t); }
      ParseStringBody(['\\', 'u'] + (p + t), acc);
      { ParseUnicodeOfPair(c, t); StringBodyUnicode(p + t, c, t, acc); }
      ParseStringBody(t, acc + [c]);
    }
  }

  /** Decoding the escape of `c` gives `c` back. */
  lemma ParseEscapedChar(c: char, ascii: bool, t: string, acc: string)
    ensures ParseStringBody(EscapeChar(c, ascii) + t, acc) == ParseStringBody(t, acc + [c])
  {
    match ShortEscape(c)
    case Some(e) =>
      ShortEscapeInverse(c);
      StringBodySimpleEscape(e, c, t, acc);
    case None =>
      if c as int < 0x20 || (ascii && c as int > 0x7e) {
        ParseUnicodeEscape(c, t, acc);
      } else {
        StringBodyPlain(c, t, acc);
      }
  }

  lemma EscapeCons(str: string, ascii: bool, rest: string)
    requires str != []
    ensures Escape(str, ascii) + ['\"'] + rest == EscapeChar(str[0], ascii) + (Escape(str[1..], ascii) + ['\"'] + rest)
  {
    var ec, es := EscapeChar(str[0], ascii), Escape(str[1..], ascii);
    assert Escape(str, ascii) == ec + es;
    Assoc(ec, es, ['\"']);
    Assoc(ec, es + ['\"'], rest);
  }

  /** Decoding an escaped string literal gives the string back, and stops at its closing quote. */
  lemma {:induction false} ParseEscaped(str: string, ascii: bool, rest: string, acc: string)
    ensures ParseStringBody(Escape(str, ascii) + ['\"'] + rest, acc) == Some((acc + str, rest))
  {
    if str == [] {
      assert Escape(str, ascii) + ['\"'] + rest == ['\"'] + rest;
      StringBodyClose(rest, acc);
      assert acc + str == acc;
    } else {
      var t := Escape(str[1..], ascii) + ['\"'] + rest;
      calc {
        ParseStringBody(Escape(str, ascii) + ['\"'] + rest, acc);
        { EscapeCons(str, ascii, rest); }
        ParseStringBody(EscapeChar(str[0], ascii) + t, acc);
        { ParseEscapedChar(str[0], ascii, t, acc); }
        ParseStringBody(t, acc + [str[0]]);
        { ParseEscaped(str[1..], ascii, rest, acc + [str[0]]); }
        Some((acc + [str[0]] + str[1..], rest));
        { assert acc + [str[0]] + str[1..] == acc + str; }
        Some((acc + str, rest));
      }
    }
  }

  lemma SkipWsNone(s: string)
    requires s == [] || !IsWs(s[0])
    ensures SkipWs(s) == s
  {
  }

  /** Decoding the encoding of `j` gives `j` back and stops right after it. */
  lemma {:induction false} ParseEncoded(j: Json, ascii: bool, rest: string)
    requires WellFormed(j) && ValueStop(rest)
    ensures ParseValue(Encode(j, ascii) + rest) == Some((j, rest))
    decreases j, 4
  {
    match j
    case JNull => ParseEncodedLiteral("null", JNull, rest);
    case JBool(b) =>
      if b { ParseEncodedLiteral("true", j, rest); } else { ParseEncodedLiteral("false", j, rest); }
    case JInt(n) => ParseEncodedInt(n, rest);
    case JStr(str) => ParseEncodedStr(str, ascii, rest);
    case JArr(items) => ParseEncodedArr(items, ascii, rest);
    case JObj(fields) => ParseEncodedObj(fields, ascii, rest);
  }

  lemma ParseEncodedLiteral(lit: string, j: Json, rest: string)
    requires (lit, j) == ("null", JNull) || (lit, j) == ("true", JBool(true)) || (lit, j) == ("false", JBool(false))
    ensures ParseValue(lit + rest) == Some((j, rest))
  {
    var s := lit + rest;
    assert s[..|lit|] == lit && s[|lit|..] == rest;
  }

  lemma ParseEncodedInt(n: int, rest: string)
    requires ValueStop(rest)
    ensures ParseValue(IntText(n) + rest) == Some((JInt(n), rest))
  {
    var s := IntText(n) + rest;
    ParseNumberOfIntText(n, rest);
    assert s[0] == '-' || IsDigit(s[0]);
  }

  lemma ParseEncodedStr(str: string, ascii: bool, rest: string)
    ensures ParseValue(['\"'] + Escape(str, ascii) + ['\"'] + rest) == Some((JStr(str), rest))
  {
    var body := Escape(str, ascii) + ['\"'] + rest;
    var s := ['\"'] + Escape(str, ascii) + ['\"'] + rest;
    Assoc(['\"'], Escape(str, ascii), ['\"']);
    Assoc(['\"'], Escape(str, ascii) + ['\"'], rest);
    assert s == ['\"'] + body;
    assert s[0] == '\"' && s[1..] == body;
    ParseEscaped(str, ascii, rest, []);
    assert [] + str == str;
  }

  lemma {:induction false} ParseEncodedArr(items: seq<Json>, ascii: bool, rest: string)
    requires WellFormed(JArr(items)) && ValueStop(rest)
    ensures ParseValue("[" + EncodeItems(items, ascii) + "]" + rest) == Some((JArr(items), rest))
    decreases items, 3
  {
    var body := EncodeItems(items, ascii) + "]" + rest;
    var s := "[" + EncodeItems(items, ascii) + "]" + rest;
    OpenClose('[', EncodeItems(items, ascii), ']', rest);
    SkipWsNone(body);
    if items == [] {
      assert body == "]" + rest && body[1..] == rest;
    } else {
      ParseEncodedItems(items, ascii, rest, []);
      EmptyPrefix(items);
    }
  }

  lemma {:induction false} ParseEncodedObj(fields: Dict, ascii: bool, rest: string)
    requires WellFormed(JObj(fields)) && ValueStop(rest)
    ensures ParseValue("{" + EncodeFields(fields, ascii) + "}" + rest) == Some((JObj(fields), rest))
    decreases fields, 3
  {
    var body := EncodeFields(fields, ascii) + "}" + rest;
    var s := "{" + EncodeFields(fields, ascii) + "}" + rest;
    OpenClose('{', EncodeFields(fields, ascii), '}', rest);
    SkipWsNone(body);
    if fields == [] {
      assert body == "}" + rest && body[1..] == rest;
    } else {
      EmptyPrefix(fields);
      ParseEncodedFields(fields, ascii, rest, []);
    }
  }

  /** The encoding of a non-empty list of elements, split after its first element. */
  lemma EncodeItemsCons(items: seq<Json>, ascii: bool, rest: string)
    requires items != []
    ensures EncodeItems(items, ascii) + "]" + rest == Encode(items[0], ascii) + ItemsAfter(items, ascii, rest)
  {
    var e := Encode(items[0], ascii);
    if |items| == 1 {
      Assoc(e, "]", rest);
    } else {
      var more := EncodeItems(items[1..], ascii);
      assert EncodeItems(items, ascii) == e + ", " + more;
      Assoc(e, ", ", more);
      Assoc(e, ", " + more, "]");
      Assoc(e, ", " + more + "]", rest);
      Assoc(", ", more, "]");
      Assoc(", ", more + "]", rest);
    }
  }

  /** What follows the first element of a non-empty list in its encoding. */
  function ItemsAfter(items: seq<Json>, ascii: bool, rest: string): string
    requires items != []
  {
    if |items| == 1 then "]" + rest else ", " + (EncodeItems(items[1..], ascii) + "]" + rest)
  }

  lemma {:induction false} ParseEncodedItems(items: seq<Json>, ascii: bool, rest: string, acc: seq<Json>)
    requires items != []
    requires forall i :: 0 <= i < |items| ==> WellFormed(items[i])
    ensures ParseElements(EncodeItems(items, ascii) + "]" + rest, acc) == Some((JArr(acc + items), rest))
    decreases items, 2
  {
    ItemsStep(items, ascii, rest, acc);
    ConsTail(acc, items);
    if |items| > 1 {
      TailWellFormed(items);
      ParseEncodedItems(items[1..], ascii, rest, acc + [items[0]]);
    }
  }

  /** Parsing the first element of an encoded list, then what follows it. */
  lemma {:induction false} ItemsStep(items: seq<Json>, ascii: bool, rest: string, acc: seq<Json>)
    requires items != [] && WellFormed(items[0])
    ensures ParseElements(EncodeItems(items, ascii) + "]" + rest, acc)
         == if |items| == 1 then Some((JArr(acc + [items[0]]), rest))
            else ParseElements(EncodeItems(items[1..], ascii) + "]" + rest, acc + [items[0]])
    decreases items, 1
  {
    var s := EncodeItems(items, ascii) + "]" + rest;
    EncodeItemsCons(items, ascii, rest);
    ParseEncoded(items[0], ascii, ItemsAfter(items, ascii, rest));
    if |items| == 1 {
      ElementsLast(s, acc, items[0], rest);
    } else {
      ElementsNext(s, acc, items[0], EncodeItems(items[1..], ascii) + "]" + rest);
    }
  }

  /** The text of a bracketed list starts with its opening bracket, and the rest follows. */
  lemma OpenClose(open: char, mid: string, close: char, rest: string)
    ensures ([open] + mid + [close] + rest)[0] == open
    ensures ([open] + mid + [close] + rest)[1..] == mid + [close] + rest
  {
    Assoc([open], mid, [close]);
    Assoc([open], mid + [close], rest);
  }

  lemma EmptyPrefix<T>(xs: seq<T>)
    ensures [] + xs == xs
  {
  }

  lemma ConsTail<T>(acc: seq<T>, items: seq<T>)
    requires items != []
    ensures acc + [items[0]] + items[1..] == acc + items
    ensures |items| == 1 ==> acc + [items[0]] == acc + items
  {
  }

  lemma TailWellFormed(items: seq<Json>)
    requires items != [] && forall i :: 0 <= i < |items| ==> WellFormed(items[i])
    ensures forall i :: 0 <= i < |items[1..]| ==> WellFormed(items[1..][i])
  {
    forall i | 0 <= i < |items[1..]| ensures WellFormed(items[1..][i]) {
      assert items[1..][i] == items[i + 1];
    }
  }

  /** The last element of an array: its value is followed by `]`. */
  lemma ElementsLast(s: string, acc: seq<Json>, x: Json, rest: string)
    requires ParseValue(s) == Some((x, "]" + rest))
    ensures ParseElements(s, acc) == Some((JArr(acc + [x]), rest))
  {
    SkipWsNone("]" + rest);
    assert ("]" + rest)[1..] == rest;
  }

  /** An element followed by `, ` and the text of the next one. */
  lemma ElementsNext(s: string, acc: seq<Json>, x: Json, more: string)
    requires ParseValue(s) == Some((x, ", " + more))
    requires more == [] || !IsWs(more[0])
    ensures ParseElements(s, acc) == ParseElements(more, acc + [x])
  {
    AfterComma(more);
  }

  /** In a dict with distinct keys, the member after `acc` is new to `acc`, so `Put` appends it. */
  lemma PutNextMember(acc: Dict, fields: Dict)
    requires fields != [] && DistinctKeys(acc + fields)
    ensures Put(acc, fields[0].0, fields[0].1) == acc + [fields[0]]
    ensures DistinctKeys(acc + [fields[0]] + fields[1..])
  {
    var all := acc + fields;
    assert all[|acc|] == fields[0];
    forall i | 0 <= i < |acc| ensures acc[i].0 != fields[0].0 {
      assert all[i] == acc[i];
    }
    assert !HasKey(acc, fields[0].0);
    assert acc + [fields[0]] + fields[1..] == all;
  }

  /** The text of one member of an object, up to the end of its value. */
  predicate MemberAt(s: string, key: string, value: string, v: Json, after: string) {
    s != [] && s[0] == '\"'
    && ParseStringBody(s[1..], []) == Some((key, ": " + value))
    && (value == [] || !IsWs(value[0]))
    && ParseValue(value) == Some((v, after))
  }

  /** What follows the first member of a non-empty dict in its encoding. */
  function FieldsAfter(fields: Dict, ascii: bool, rest: string): string
    requires fields != []
  {
    if |fields| == 1 then "}" + rest else ", " + (EncodeFields(fields[1..], ascii) + "}" + rest)
  }

  /** The encoding of a non-empty dict, split after the quote that opens its first key. */
  lemma EncodeFieldsCons(fields: Dict, ascii: bool, rest: string)
    requires fields != []
    ensures EncodeFields(fields, ascii) + "}" + rest
         == ['\"'] + (Escape(fields[0].0, ascii) + ['\"']
              + (": " + (Encode(fields[0].1, ascii) + FieldsAfter(fields, ascii, rest))))
  {
    var f := fields[0];
    var q, k, v := ['\"'], Escape(f.0, ascii), Encode(f.1, ascii);
    var after := FieldsAfter(fields, ascii, rest);
    var field := EncodeField(f.0, f.1, ascii);
    assert field == q + k + q + ": " + v;
    assert EncodeFields(fields, ascii) + "}" + rest == field + after by {
      if |fields| == 1 {
        Assoc(field, "}", rest);
      } else {
        var more := EncodeFields(fields[1..], ascii);
        assert EncodeFields(fields, ascii) == field + ", " + more;
        Assoc(field, ", ", more);
        Assoc(field, ", " + more, "}");
        Assoc(field, ", " + more + "}", rest);
        Assoc(", ", more, "}");
        Assoc(", ", more + "}", rest);
      }
    }
    Assoc(q + k + q + ": ", v, after);
    Assoc(q + k + q, ": ", v + after);
    Assoc(q + k, q, ": " + (v + after));
    Assoc(q, k, q + (": " + (v + after)));
    Assoc(k, q, ": " + (v + after));
  }

  lemma {:induction false} MemberOfEncoded(fields: Dict, ascii: bool, rest: string)
    requires fields != [] && FieldWellFormed(fields, 0)
    requires var f := fields[0]; assert f.1 < f; WellFormed(f.1)
    ensures MemberAt(EncodeFields(fields, ascii) + "}" + rest, fields[0].0,
                     Encode(fields[0].1, ascii) + FieldsAfter(fields, ascii, rest),
                     fields[0].1, FieldsAfter(fields, ascii, rest))
    decreases fields, 0
  {
    var f := fields[0];
    assert f.1 < f;
    var after := FieldsAfter(fields, ascii, rest);
    var value := Encode(f.1, ascii) + after;
    var s := EncodeFields(fields, ascii) + "}" + rest;
    EncodeFieldsCons(fields, ascii, rest);
    assert s[1..] == Escape(f.0, ascii) + ['\"'] + (": " + value);
    ParseEscaped(f.0, ascii, ": " + value, []);
    assert [] + f.0 == f.0;
    ParseEncoded(f.1, ascii, after);
  }

  lemma {:induction false} ParseEncodedFields(fields: Dict, ascii: bool, rest: string, acc: Dict)
    requires fields != []
    requires DistinctKeys(acc + fields)
    requires forall i :: 0 <= i < |fields| ==> FieldWellFormed(fields, i)
    ensures ParseMembers(EncodeFields(fields, ascii) + "}" + rest, acc) == Some((JObj(acc + fields), rest))
    decreases fields, 2
  {
    MembersStep(fields, ascii, rest, acc);
    ConsTail(acc, fields);
    if |fields| > 1 {
      TailFieldsWellFormed(fields);
      ParseEncodedFields(fields[1..], ascii, rest, acc + [fields[0]]);
    }
  }

  /** Parsing the first member of an encoded dict, then what follows it. */
  lemma {:induction false} MembersStep(fields: Dict, ascii: bool, rest: string, acc: Dict)
    requires fields != [] && FieldWellFormed(fields, 0)
    requires DistinctKeys(acc + fields)
    ensures ParseMembers(EncodeFields(fields, ascii) + "}" + rest, acc)
         == if |fields| == 1 then Some((JObj(acc + [fields[0]]), rest))
            else ParseMembers(EncodeFields(fields[1..], ascii) + "}" + rest, acc + [fields[0]])
    ensures DistinctKeys(acc + [fields[0]] + fields[1..])
    decreases fields, 1
  {
    var f := fields[0];
    var s := EncodeFields(fields, ascii) + "}" + rest;
    var value := Encode(f.1, ascii) + FieldsAfter(fields, ascii, rest);
    MemberOfEncoded(fields, ascii, rest);
    PutNextMember(acc, fields);
    if |fields| == 1 {
      MembersLast(s, acc, f.0, value, f.1, rest);
    } else {
      MembersNext(s, acc, f.0, value, f.1, EncodeFields(fields[1..], ascii) + "}" + rest);
    }
  }

  lemma TailFieldsWellFormed(fields: Dict)
    requires fields != [] && forall i :: 0 <= i < |fields| ==> FieldWellFormed(fields, i)
    ensures forall i :: 0 <= i < |fields[1..]| ==> FieldWellFormed(fields[1..], i)
  {
    forall i | 0 <= i < |fields[1..]| ensures FieldWellFormed(fields[1..], i) {
      assert fields[1..][i] == fields[i + 1];
      assert FieldWellFormed(fields, i + 1);
    }
  }

  /** The last member of an object: its value is followed by `}`. */
  lemma MembersLast(s: string, acc: Dict, key: string, value: string, v: Json, rest: string)
    requires MemberAt(s, key, value, v, "}" + rest)
    ensures ParseMembers(s, acc) == Some((JObj(Put(acc, key, v)), rest))
  {
    AfterColon(value);
    SkipWsNone("}" + rest);
    assert ("}" + rest)[1..] == rest;
  }

  /** A member followed by `, ` and the text of the next one. */
  lemma MembersNext(s: string, acc: Dict, key: string, value: string, v: Json, more: string)
    requires MemberAt(s, key, value, v, ", " + more)
    requires more == [] || !IsWs(more[0])
    ensures ParseMembers(s, acc) == ParseMembers(more, Put(acc, key, v))
  {
    AfterColon(value);
    AfterComma(more);
  }

  /** The text after `: ` starts with the value. */
  lemma AfterColon(value: string)
    requires value == [] || !IsWs(value[0])
    ensures SkipWs((": " + value)) == ": " + value
    ensures SkipWs((": " + value)[1..]) == value
  {
    assert (": " + value)[1..] == " " + value;
    assert SkipWs(" " + value) == SkipWs(value);
  }

  /** The text after `, ` starts with the next element or member. */
  lemma AfterComma(more: string)
    requires more == [] || !IsWs(more[0])
    ensures SkipWs((", " + more)) == ", " + more
    ensures SkipWs((", " + more)[1..]) == more
  {
    assert (", " + more)[1..] == " " + more;
    assert SkipWs(" " + more) == SkipWs(more);
  }

  /** `json.loads(json.dumps(j))` gives `j` back, with or without `ensure_ascii`. */
  lemma LoadsDumps(j: Json, ascii: bool)
    requires WellFormed(j)
    ensures Loads(Encode(j, ascii)) == Some(j)
  {
    var s := Encode(j, ascii);
    SkipWsNone(s);
    ParseEncoded(j, ascii, []);
    assert s + [] == s;
  }

  // ---------------------------------------------------------------------------
  // What json.loads returns is a well-formed value (dict keys are distinct)
  // ---------------------------------------------------------------------------

  lemma {:induction false} PutWellFormed(d: Dict, key: string, v: Json)
    requires WellFormed(JObj(d)) && WellFormed(v)
    ensures WellFormed(JObj(Put(d, key, v)))
  {
    PutKeepsKeysDistinct(d, key, v);
    var r := Put(d, key, v);
    if d == [] {
      assert r[0] == (key, v);
      assert FieldWellFormed(r, 0);
    } else if d[0].0 == key {
      forall i | 0 <= i < |r| ensures FieldWellFormed(r, i) {
        if i > 0 { assert r[i] == d[i] && FieldWellFormed(d, i); }
        else { assert r[0] == (key, v); }
      }
    } else {
      var t := Put(d[1..], key, v);
      assert WellFormed(JObj(d[1..])) by {
        forall i, j | 0 <= i < j < |d[1..]| ensures d[1..][i].0 != d[1..][j].0 {
          assert d[1..][i] == d[i + 1] && d[1..][j] == d[j + 1];
        }
        forall i | 0 <= i < |d[1..]| ensures FieldWellFormed(d[1..], i) {
          assert d[1..][i] == d[i + 1] && FieldWellFormed(d, i + 1);
        }
      }
      PutWellFormed(d[1..], key, v);
      assert r == [d[0]] + t;
      forall i | 0 <= i < |r| ensures FieldWellFormed(r, i) {
        if i > 0 { assert r[i] == t[i - 1] && FieldWellFormed(t, i - 1); }
        else { assert r[0] == d[0] && FieldWellFormed(d, 0); }
      }
    }
  }

  lemma {:induction false} ParseValueWellFormed(s: string)
    ensures ParseValue(s).Some? ==> WellFormed(ParseValue(s).value.0)
    decreases |s|, 0
  {
    if s != [] && s[0] == '[' {
      var t := SkipWs(s[1..]);
      if !(t != [] && t[0] == ']') { ParseElementsWellFormed(t, []); }
    } else if s != [] && s[0] == '{' {
      var t := SkipWs(s[1..]);
      if !(t != [] && t[0] == '}') { ParseMembersWellFormed(t, []); }
    }
  }

  lemma {:induction false} ParseElementsWellFormed(s: string, acc: seq<Json>)
    requires forall i :: 0 <= i < |acc| ==> WellFormed(acc[i])
    ensures ParseElements(s, acc).Some? ==> WellFormed(ParseElements(s, acc).value.0)
    decreases |s|, 1
  {
    ParseValueWellFormed(s);
    match ParseValue(s)
    case None =>
    case Some((v, rest)) =>
      var acc' := acc + [v];
      assert forall i :: 0 <= i < |acc'| ==> WellFormed(acc'[i]) by {
        forall i | 0 <= i < |acc'| ensures WellFormed(acc'[i]) {
          if i < |acc| { assert acc'[i] == acc[i]; }
        }
      }
      var t := SkipWs(rest);
      if t != [] && t[0] == ',' {
        ParseElementsWellFormed(SkipWs(t[1..]), acc');
      }
  }

  lemma {:induction false} ParseMembersWellFormed(s: string, acc: Dict)
    requires WellFormed(JObj(acc))
    ensures ParseMembers(s, acc).Some? ==> WellFormed(ParseMembers(s, acc).value.0)
    decreases |s|, 1
  {
    if s != [] && s[0] == '\"' {
      match ParseStringBody(s[1..], [])
      case None =>
      case Some((key, r1)) =>
        var r2 := SkipWs(r1);
        if r2 != [] && r2[0] == ':' {
          ParseValueWellFormed(SkipWs(r2[1..]));
          match ParseValue(SkipWs(r2[1..]))
          case None =>
          case Some((v, r4)) =>
            PutWellFormed(acc, key, v);
            var t := SkipWs(r4);
            if t != [] && t[0] == ',' {
              ParseMembersWellFormed(SkipWs(t[1..]), Put(acc, key, v));
            }
        }
    }
  }

  /** Whatever `json.loads` returns is a value Python can hold: every dict has distinct keys. */
  lemma LoadsWellFormed(s: string)
    ensures Loads(s).Some? ==> WellFormed(Loads(s).value)
  {
    ParseValueWellFormed(SkipWs(s));
  }
}
