/**
 * `json.dumps(v, separators=(',', ':'))` with its default `ensure_ascii=True`: the compact
 * text of a JSON value, and a strict reader of RFC 8259 text without insignificant
 * whitespace, which is the partner the writer is proved against.
 */
module JsonText {

  import opened Wrappers
  import opened Text
  import opened Json

  // ------------------------------------------------------------------- writer

  const HexDigits := "0123456789abcdef"

  /** Four lowercase hexadecimal digits, as `'{0:04x}'.format(n)` writes them. */
  function Hex4(n: nat): (r: string)
    requires n < 0x10000
    ensures |r| == 4
  {
    [HexDigits[n / 4096], HexDigits[n / 256 % 16], HexDigits[n / 16 % 16], HexDigits[n % 16]]
  }

  /** How `ensure_ascii` writes one character of a string: `"` and `\` and five control
      characters get a short escape, the other characters outside ' '..'~' a `\uXXXX` escape,
      and characters beyond the Basic Multilingual Plane a UTF-16 surrogate pair. */
  function EscapeChar(c: char): (r: string)
    ensures |r| > 0 && r[0] != '"'
  {
    if c == '"' then "\\\""
    else if c == '\\' then "\\\\"
    else if c == '\n' then "\\n"
    else if c == '\r' then "\\r"
    else if c == '\t' then "\\t"
    else if c == '\U{8}' then "\\b"
    else if c == '\U{C}' then "\\f"
    else if ' ' <= c <= '~' then [c]
    else if c as int < 0x10000 then "\\u" + Hex4(c as int)
    else
      var n := c as int - 0x10000;
      "\\u" + Hex4(0xD800 + n / 0x400) + "\\u" + Hex4(0xDC00 + n % 0x400)
  }

  function Escape(s: string): string
  {
    if s == [] then [] else EscapeChar(s[0]) + Escape(s[1..])
  }

  /** A string literal. */
  function Quote(s: string): string
  {
    "\"" + Escape(s) + "\""
  }

  /** `json.dumps(v, separators=(',', ':'))`. */
  function Serialize(v: Json): string
    decreases v
  {
    match v
    case Null => "null"
    case Bool(b) => if b then "true" else "false"
    case Num(n) => IntDecimal(n)
    case Str(s) => Quote(s)
    case Arr(items) => "[" + SerializeItems(items) + "]"
    case Obj(fields) => "{" + SerializeFields(fields) + "}"
  }

  /** The items of a list, separated by `,`. */
  function SerializeItems(items: seq<Json>): string
    decreases items
  {
    if items == [] then []
    else if |items| == 1 then Serialize(items[0])
    else Serialize(items[0]) + "," + SerializeItems(items[1..])
  }

  /** The members of a dict, in order, as `"key":value` separated by `,`. */
  function SerializeFields(fields: seq<(string, Json)>): string
    decreases fields
  {
    if fields == [] then []
    else
      assert fields[0].1 < fields[0];
      var member := Quote(fields[0].0) + ":" + Serialize(fields[0].1);
      if |fields| == 1 then member else member + "," + SerializeFields(fields[1..])
  }

  // ------------------------------------------------------------------- reader

  /** The value of a hexadecimal digit, either case. */
  function HexValue(c: char): (r: Option<nat>)
    ensures r.Some? ==> r.value < 16
  {
    if '0' <= c <= '9' then Some(c as int - '0' as int)
    else if 'a' <= c <= 'f' then Some(c as int - 'a' as int + 10)
    else if 'A' <= c <= 'F' then Some(c as int - 'A' as int + 10)
    else None
  }

  function ParseHex4(s: string): (r: Option<nat>)
    requires |s| == 4
    ensures r.Some? ==> r.value < 0x10000
  {
    var d0, d1, d2, d3 := HexValue(s[0]), HexValue(s[1]), HexValue(s[2]), HexValue(s[3]);
    if d0.None? || d1.None? || d2.None? || d3.None? then None
    else Some(d0.value * 4096 + d1.value * 256 + d2.value * 16 + d3.value)
  }

  predicate IsScalar(n: int)
  {
    0 <= n < 0xD800 || 0xE000 <= n < 0x110000
  }

  /** The character a `\` escape at the start of s stands for, with the escape's length. A
      high surrogate must be followed by the escape of a low one; a lone surrogate is
      rejected. */
  function ParseEscape(s: string): (r: Option<(char, nat)>)
    requires |s| > 0 && s[0] == '\\'
    ensures r.Some? ==> 2 <= r.value.1 <= |s|
  {
    if |s| < 2 then None
    else if s[1] == '"' || s[1] == '\\' || s[1] == '/' then Some((s[1], 2))
    else if s[1] == 'b' then Some(('\U{8}', 2))
    else if s[1] == 'f' then Some(('\U{C}', 2))
    else if s[1] == 'n' then Some(('\n', 2))
    else if s[1] == 'r' then Some(('\r', 2))
    else if s[1] == 't' then Some(('\t', 2))
    else if s[1] != 'u' || |s| < 6 then None
    else
      match ParseHex4(s[2..6])
      case None => None
      case Some(h) =>
        if 0xD800 <= h < 0xDC00 then
          if |s| < 12 || s[6] != '\\' || s[7] != 'u' then None
          else
            match ParseHex4(s[8..12])
            case None => None
            case Some(l) =>
              if 0xDC00 <= l < 0xE000 then Some(((0x10000 + (h - 0xD800) * 0x400 + (l - 0xDC00)) as char, 12))
              else None
        else if 0xDC00 <= h < 0xE000 then None
        else Some((h as char, 6))
  }

  /** One character of a string literal other than the closing quote, with the number of
      characters of text it takes. Raw control characters are not allowed. */
  function ParseChar(s: string): (r: Option<(char, nat)>)
    ensures r.Some? ==> 1 <= r.value.1 <= |s|
  {
    if s == [] || s[0] == '"' || s[0] < ' ' then None
    else if s[0] == '\\' then ParseEscape(s)
    else Some((s[0], 1))
  }

  /** The characters of a string literal up to its closing quote, and the text after it. */
  function ParseString(s: string): (r: Option<(string, string)>)
    ensures r.Some? ==> |r.value.1| < |s|
    decreases |s|
  {
    if s == [] then None
    else if s[0] == '"' then Some(([], s[1..]))
    else
      match ParseChar(s)
      case None => None
      case Some((c, k)) =>
        match ParseString(s[k..])
        case None => None
        case Some((t, rest)) => Some(([c] + t, rest))
  }

  /** A JSON number without fraction or exponent: an optional minus sign and a numeral with
      no superfluous leading zero. */
  function ParseNumber(s: string): (r: Option<(Json, string)>)
    ensures r.Some? ==> |r.value.1| < |s|
  {
    var neg := s != [] && s[0] == '-';
    var t := if neg then s[1..] else s;
    var k := DigitRun(t);
    if k == 0 || (k > 1 && t[0] == '0') then None
    else Some((Num(if neg then -(Value(t[..k]) as int) else Value(t[..k])), t[k..]))
  }

  /** Length of the run of ASCII digits s starts with. */
  function DigitRun(s: string): (k: nat)
    ensures k <= |s| && AllDigits(s[..k])
    ensures k < |s| ==> !IsDigit(s[k])
  {
    if s != [] && IsDigit(s[0]) then
      var k := 1 + DigitRun(s[1..]);
      assert forall i :: 0 < i < k ==> s[..k][i] == s[1..][..k - 1][i - 1];
      k
    else 0
  }

  /** One JSON value at the start of s, and the text after it. */
  function ParseValue(s: string): (r: Option<(Json, string)>)
    ensures r.Some? ==> |r.value.1| < |s|
    decreases |s|, 1
  {
    if s == [] then None
    else if |s| >= 4 && s[..4] == "null" then Some((Null, s[4..]))
    else if |s| >= 4 && s[..4] == "true" then Some((Bool(true), s[4..]))
    else if |s| >= 5 && s[..5] == "false" then Some((Bool(false), s[5..]))
    else if s[0] == '"' then
      match ParseString(s[1..])
      case None => None
      case Some((t, rest)) => Some((Str(t), rest))
    else if s[0] == '[' then
      if |s| > 1 && s[1] == ']' then Some((Arr([]), s[2..]))
      else
        match ParseItems(s[1..])
        case None => None
        case Some((items, rest)) => Some((Arr(items), rest))
    else if s[0] == '{' then
      if |s| > 1 && s[1] == '}' then Some((Obj([]), s[2..]))
      else
        match ParseFields(s[1..])
        case None => None
        case Some((fields, rest)) => Some((Obj(fields), rest))
    else ParseNumber(s)
  }

  /** The items of a non-empty list up to and including its `]`. */
  function ParseItems(s: string): (r: Option<(seq<Json>, string)>)
    ensures r.Some? ==> |r.value.1| < |s|
    decreases |s|, 2
  {
    match ParseValue(s)
    case None => None
    case Some((v, rest)) =>
      if rest != [] && rest[0] == ']' then Some(([v], rest[1..]))
      else if rest != [] && rest[0] == ',' then
        match ParseItems(rest[1..])
        case None => None
        case Some((vs, rest')) => Some(([v] + vs, rest'))
      else None
  }

  /** The members of a non-empty dict up to and including its `}`. */
  function ParseFields(s: string): (r: Option<(seq<(string, Json)>, string)>)
    ensures r.Some? ==> |r.value.1| < |s|
    decreases |s|, 2
  {
    if s == [] || s[0] != '"' then None
    else
      match ParseString(s[1..])
      case None => None
      case Some((key, afterKey)) =>
        if afterKey == [] || afterKey[0] != ':' then None
        else
          match ParseValue(afterKey[1..])
          case None => None
          case Some((v, rest)) =>
            if rest != [] && rest[0] == '}' then Some(([(key, v)], rest[1..]))
            else if rest != [] && rest[0] == ',' then
              match ParseFields(rest[1..])
              case None => None
              case Some((fs, rest')) => Some(([(key, v)] + fs, rest'))
            else None
  }

  /** A whole text holding exactly one JSON value. */
  function Parse(s: string): Option<Json>
  {
    match ParseValue(s)
    case Some((v, rest)) => if rest == [] then Some(v) else None
    case None => None
  }

  // ------------------------------------------------------------------- round trip

  lemma HexDigitValue(d: nat)
    requires d < 16
    ensures HexValue(HexDigits[d]) == Some(d)
  {
  }

  /** Reading back four hexadecimal digits gives the number written. */
  lemma Hex4RoundTrip(n: nat)
    requires n < 0x10000
    ensures ParseHex4(Hex4(n)) == Some(n)
  {
    var a, b, c, d := n / 4096, n / 256 % 16, n / 16 % 16, n % 16;
    HexDigitValue(a);
    HexDigitValue(b);
    HexDigitValue(c);
    HexDigitValue(d);
    HexSum(n);
  }

  lemma HexSum(n: nat)
    requires n < 0x10000
    ensures (n / 4096) * 4096 + (n / 256 % 16) * 256 + (n / 16 % 16) * 16 + n % 16 == n
  {
    var a, r1 := n / 4096, n % 4096;
    var b, r2 := r1 / 256, r1 % 256;
    var c, d := r2 / 16, r2 % 16;
    assert n == a * 4096 + b * 256 + c * 16 + d;
    DivMod(n, 256, a * 16 + b, c * 16 + d);
    DivMod(a * 16 + b, 16, a, b);
    DivMod(n, 16, a * 256 + b * 16 + c, d);
    DivMod(a * 256 + b * 16 + c, 16, a * 16 + b, c);
  }

  lemma DivMod(x: int, m: int, q: int, r: int)
    requires m == 16 || m == 256
    requires 0 <= r < m && x == q * m + r
    ensures x / m == q && x % m == r
  {
  }

  lemma CharIsScalar(c: char)
    ensures IsScalar(c as int)
  {
  }

  /** The escape of a character reads back as that character, whatever follows it. */
  lemma EscapeCharParse(c: char, t: string)
    ensures ParseChar(EscapeChar(c) + t) == Some((c, |EscapeChar(c)|))
  {
    if c == '"' || c == '\\' || c == '\n' || c == '\r' || c == '\t' || c == '\U{8}' || c == '\U{C}' {
      var s := EscapeChar(c) + t;
      assert s[0] == '\\' && s[1] == EscapeChar(c)[1];
    } else if ' ' <= c <= '~' {
      assert (EscapeChar(c) + t)[0] == c;
    } else if c as int < 0x10000 {
      BmpEscapeParse(c, t);
    } else {
      PairEscapeParse(c, t);
    }
  }

  /** A character of the Basic Multilingual Plane written as `\uXXXX`. */
  lemma BmpEscapeParse(c: char, t: string)
    requires c as int < 0x10000
    requires EscapeChar(c) == "\\u" + Hex4(c as int)
    ensures ParseChar(EscapeChar(c) + t) == Some((c, 6))
  {
    var e := EscapeChar(c);
    var s := e + t;
    CharIsScalar(c);
    assert s[..6] == e;
    assert s[2..6] == Hex4(c as int);
    Hex4RoundTrip(c as int);
  }

  /** A character beyond the Basic Multilingual Plane written as a surrogate pair. */
  lemma PairEscapeParse(c: char, t: string)
    requires c as int >= 0x10000
    ensures ParseChar(EscapeChar(c) + t) == Some((c, 12))
  {
    var n := c as int - 0x10000;
    var hi, lo := 0xD800 + n / 0x400, 0xDC00 + n % 0x400;
    Surrogates(n);
    var s := EscapeChar(c) + t;
    assert s[..12] == "\\u" + Hex4(hi) + "\\u" + Hex4(lo);
    SurrogatePairParse(s, hi, lo);
  }

  /** The two halves of a supplementary code point, and how they add back up. */
  lemma Surrogates(n: int)
    requires 0 <= n < 0x100000
    ensures 0xD800 <= 0xD800 + n / 0x400 < 0xDC00
    ensures 0xDC00 <= 0xDC00 + n % 0x400 < 0xE000
    ensures 0x10000 + n / 0x400 * 0x400 + n % 0x400 == 0x10000 + n
  {
  }

  /** How a `\\uXXXX\\uXXXX` surrogate pair reads. */
  lemma SurrogatePairParse(s: string, hi: nat, lo: nat)
    requires 0xD800 <= hi < 0xDC00 && 0xDC00 <= lo < 0xE000
    requires |s| >= 12 && s[..12] == "\\u" + Hex4(hi) + "\\u" + Hex4(lo)
    ensures IsScalar(0x10000 + (hi - 0xD800) * 0x400 + (lo - 0xDC00))
    ensures ParseChar(s) == Some(((0x10000 + (hi - 0xD800) * 0x400 + (lo - 0xDC00)) as char, 12))
  {
    PairText(s, Hex4(hi), Hex4(lo));
    Hex4RoundTrip(hi);
    Hex4RoundTrip(lo);
    PairRange(hi, lo);
    PairEscape(s, hi, lo);
  }

  lemma PairText(s: string, a: string, b: string)
    requires |a| == 4 && |b| == 4
    requires |s| >= 12 && s[..12] == "\\u" + a + "\\u" + b
    ensures s[0] == '\\' && s[1] == 'u' && s[6] == '\\' && s[7] == 'u'
    ensures s[2..6] == a && s[8..12] == b
  {
    assert s[..12][0] == '\\' && s[..12][1] == 'u' && s[..12][6] == '\\' && s[..12][7] == 'u';
    assert s[..12][2..6] == a;
    assert s[..12][8..12] == b;
  }

  lemma PairEscape(s: string, hi: nat, lo: nat)
    requires 0xD800 <= hi < 0xDC00 && 0xDC00 <= lo < 0xE000
    requires |s| >= 12 && s[0] == '\\' && s[1] == 'u' && s[6] == '\\' && s[7] == 'u'
    requires ParseHex4(s[2..6]) == Some(hi) && ParseHex4(s[8..12]) == Some(lo)
    requires IsScalar(0x10000 + (hi - 0xD800) * 0x400 + (lo - 0xDC00))
    ensures ParseChar(s) == Some(((0x10000 + (hi - 0xD800) * 0x400 + (lo - 0xDC00)) as char, 12))
  {
  }

  lemma PairRange(hi: int, lo: int)
    requires 0xD800 <= hi < 0xDC00 && 0xDC00 <= lo < 0xE000
    ensures IsScalar(0x10000 + (hi - 0xD800) * 0x400 + (lo - 0xDC00))
  {
  }

  /** A string literal reads back as the string written, up to its closing quote. */
  lemma {:induction false} EscapeParse(s: string, rest: string)
    ensures ParseString(Escape(s) + "\"" + rest) == Some((s, rest))
  {
    if s == [] {
      assert Escape(s) + "\"" + rest == ['"'] + rest;
    } else {
      var e := EscapeChar(s[0]);
      var tail := Escape(s[1..]) + "\"" + rest;
      var x := e + tail;
      assert Escape(s) + "\"" + rest == x;
      EscapeCharParse(s[0], tail);
      assert x[|e|..] == tail;
      EscapeParse(s[1..], rest);
      StringStep(x, s[0], |e|);
      assert [s[0]] + s[1..] == s;
    }
  }

  /** How a string literal reads on past one character that is not the closing quote. */
  lemma StringStep(x: string, c: char, k: nat)
    requires x != [] && x[0] != '"'
    requires ParseChar(x) == Some((c, k))
    ensures ParseString(x) == match ParseString(x[k..])
                              case None => None
                              case Some((t, rest)) => Some(([c] + t, rest))
  {
  }

  /** A run of digits followed by a non-digit is read to its end. */
  lemma {:induction false} DigitRunOf(d: string, rest: string)
    requires AllDigits(d)
    requires rest == [] || !IsDigit(rest[0])
    ensures DigitRun(d + rest) == |d|
  {
    if d != [] {
      assert (d + rest)[1..] == d[1..] + rest;
      DigitRunOf(d[1..], rest);
    }
  }

  /** An integer reads back as the number written when no digit follows it. */
  lemma NumberParse(n: int, rest: string)
    requires rest == [] || !IsDigit(rest[0])
    ensures ParseNumber(IntDecimal(n) + rest) == Some((Num(n), rest))
  {
    if n >= 0 {
      NaturalParse(n, rest);
    } else {
      NegativeParse(-n, rest);
    }
  }

  lemma NaturalParse(n: nat, rest: string)
    requires rest == [] || !IsDigit(rest[0])
    ensures ParseNumber(Decimal(n) + rest) == Some((Num(n), rest))
  {
    var d := Decimal(n);
    NumeralParse(d, rest);
  }

  lemma NegativeParse(m: nat, rest: string)
    requires m > 0
    requires rest == [] || !IsDigit(rest[0])
    ensures ParseNumber("-" + Decimal(m) + rest) == Some((Num(-(m as int)), rest))
  {
    var d := Decimal(m);
    var s := "-" + d + rest;
    NumeralParse(d, rest);
    assert s != [] && s[0] == '-';
    assert s[1..] == d + rest;
  }

  /** What the number reader sees in a canonical numeral followed by a non-digit. */
  lemma NumeralParse(d: string, rest: string)
    requires Canonical(d)
    requires rest == [] || !IsDigit(rest[0])
    ensures var t := d + rest;
      && t != [] && t[0] != '-' && DigitRun(t) == |d|
      && t[..|d|] == d && t[|d|..] == rest
  {
    DigitRunOf(d, rest);
    var t := d + rest;
    assert t[..|d|] == d;
    assert t[|d|..] == rest;
    assert t[0] == d[0];
  }

  /** The text of a value reads back as that value; a number must not be followed by a
      digit, which would extend it. */
  lemma {:induction false} SerializeParse(v: Json, rest: string)
    requires rest == [] || !IsDigit(rest[0])
    ensures ParseValue(Serialize(v) + rest) == Some((v, rest))
    decreases v, 1
  {
    match v
    case Null => KeywordParse(v, rest);
    case Bool(_) => KeywordParse(v, rest);
    case Num(n) =>
      NumberParse(n, rest);
      ValueAtNumber(Serialize(v) + rest);
    case Str(str) => StrParse(str, rest);
    case Arr(items) => ArrParse(items, rest);
    case Obj(fields) => ObjParse(fields, rest);
  }

  lemma KeywordParse(v: Json, rest: string)
    requires v.Null? || v.Bool?
    ensures ParseValue(Serialize(v) + rest) == Some((v, rest))
  {
    var s := Serialize(v) + rest;
    if v.Null? {
      assert s[..4] == "null";
    } else if v.b {
      assert s[..4] == "true";
    } else {
      assert s[..4] == "fals" && s[..5] == "false";
    }
  }

  lemma StrParse(str: string, rest: string)
    ensures ParseValue(Serialize(Str(str)) + rest) == Some((Str(str), rest))
  {
    var s := Serialize(Str(str)) + rest;
    assert s == ['"'] + (Escape(str) + "\"" + rest);
    EscapeParse(str, rest);
    ValueAtQuote(s);
  }

  lemma {:induction false} ArrParse(items: seq<Json>, rest: string)
    ensures ParseValue(Serialize(Arr(items)) + rest) == Some((Arr(items), rest))
    decreases items, 2
  {
    var s := Serialize(Arr(items)) + rest;
    ValueAtBracket(s);
    if items == [] {
      assert s == "[]" + rest;
    } else {
      var body := SerializeItems(items);
      assert s == ['['] + (body + "]" + rest) by {
        Assoc("[" + body, "]", rest);
        Assoc("[", body, "]" + rest);
        Assoc(body, "]", rest);
      }
      ItemsParse(items, rest);
      ItemsStart(items);
      assert s[1] == body[0];
    }
  }

  lemma {:induction false} ObjParse(fields: seq<(string, Json)>, rest: string)
    ensures ParseValue(Serialize(Obj(fields)) + rest) == Some((Obj(fields), rest))
    decreases fields, 2
  {
    var s := Serialize(Obj(fields)) + rest;
    ValueAtBrace(s);
    if fields == [] {
      assert s == "{}" + rest;
    } else {
      var body := SerializeFields(fields);
      assert s == ['{'] + (body + "}" + rest) by {
        Assoc("{" + body, "}", rest);
        Assoc("{", body, "}" + rest);
        Assoc(body, "}", rest);
      }
      FieldsParse(fields, rest);
      FieldsStart(fields);
      assert s[1] == SerializeFields(fields)[0];
    }
  }

  lemma NotKeyword(s: string)
    requires s != [] && s[0] != 'n' && s[0] != 't' && s[0] != 'f'
    ensures |s| >= 4 ==> s[..4] != "null" && s[..4] != "true"
    ensures |s| >= 5 ==> s[..5] != "false"
  {
    if |s| >= 4 {
      assert s[..4][0] == s[0];
    }
    if |s| >= 5 {
      assert s[..5][0] == s[0];
    }
  }

  lemma ValueAtNumber(s: string)
    requires s != [] && (s[0] == '-' || IsDigit(s[0]))
    ensures ParseValue(s) == ParseNumber(s)
  {
    NotKeyword(s);
  }

  lemma ValueAtQuote(s: string)
    requires s != [] && s[0] == '"'
    ensures ParseValue(s) == match ParseString(s[1..])
                             case None => None
                             case Some((t, rest)) => Some((Str(t), rest))
  {
    NotKeyword(s);
  }

  lemma ValueAtBracket(s: string)
    requires s != [] && s[0] == '['
    ensures ParseValue(s) == if |s| > 1 && s[1] == ']' then Some((Arr([]), s[2..]))
                             else match ParseItems(s[1..])
                                  case None => None
                                  case Some((items, rest)) => Some((Arr(items), rest))
  {
    NotKeyword(s);
  }

  lemma ValueAtBrace(s: string)
    requires s != [] && s[0] == '{'
    ensures ParseValue(s) == if |s| > 1 && s[1] == '}' then Some((Obj([]), s[2..]))
                             else match ParseFields(s[1..])
                                  case None => None
                                  case Some((fields, rest)) => Some((Obj(fields), rest))
  {
    NotKeyword(s);
  }

  /** The items of a non-empty list read back up to the closing bracket. */
  lemma {:induction false} ItemsParse(items: seq<Json>, rest: string)
    requires items != []
    ensures ParseItems(SerializeItems(items) + "]" + rest) == Some((items, rest))
    decreases items, 1
  {
    var head := Serialize(items[0]);
    if |items| == 1 {
      assert SerializeItems(items) + "]" + rest == head + ("]" + rest);
      SerializeParse(items[0], "]" + rest);
      assert ("]" + rest)[1..] == rest;
      assert [items[0]] == items;
    } else {
      var more := SerializeItems(items[1..]) + "]" + rest;
      assert SerializeItems(items) + "]" + rest == head + ("," + more);
      SerializeParse(items[0], "," + more);
      assert ("," + more)[1..] == more;
      ItemsParse(items[1..], rest);
      assert [items[0]] + items[1..] == items;
    }
  }

  /** The members of a non-empty dict read back up to the closing brace. */
  lemma {:induction false} FieldsParse(fields: seq<(string, Json)>, rest: string)
    requires fields != []
    ensures ParseFields(SerializeFields(fields) + "}" + rest) == Some((fields, rest))
    decreases fields, 1
  {
    MemberParse(fields, rest);
    if |fields| > 1 {
      FieldsParse(fields[1..], rest);
      assert [fields[0]] + fields[1..] == fields;
    } else {
      assert [fields[0]] == fields;
    }
  }

  /** Reading the first member of a dict's text, and what is read after it. */
  lemma MemberParse(fields: seq<(string, Json)>, rest: string)
    requires fields != []
    ensures ParseFields(SerializeFields(fields) + "}" + rest)
         == if |fields| == 1 then Some(([fields[0]], rest))
            else match ParseFields(SerializeFields(fields[1..]) + "}" + rest)
                 case None => None
                 case Some((fs, r)) => Some(([fields[0]] + fs, r))
    decreases fields, 0
  {
    var key, v := fields[0].0, fields[0].1;
    assert v < fields[0];
    var after := FieldsAfter(fields, rest);
    assert ParseValue(Serialize(v) + after) == Some((v, after)) by {
      SerializeParse(v, after);
    }
    FieldsUnfold(fields, rest);
    FieldStep(SerializeFields(fields) + "}" + rest, key, v, Serialize(v), after);
    assert (key, v) == fields[0];
  }

  /** What follows the first member of a dict's text. */
  function FieldsAfter(fields: seq<(string, Json)>, rest: string): (r: string)
    requires fields != []
    ensures r != [] && (r[0] == '}' || r[0] == ',')
    ensures r[0] == '}' <==> |fields| == 1
    ensures r[0] == '}' ==> r[1..] == rest
    ensures r[0] == ',' ==> r[1..] == SerializeFields(fields[1..]) + "}" + rest
  {
    if |fields| == 1 then ['}'] + rest else [','] + (SerializeFields(fields[1..]) + "}" + rest)
  }

  lemma FieldsUnfold(fields: seq<(string, Json)>, rest: string)
    requires fields != []
    ensures SerializeFields(fields) + "}" + rest
         == ['"'] + (Escape(fields[0].0) + ['"'] + ([':'] + (Serialize(fields[0].1) + FieldsAfter(fields, rest))))
  {
    var e, value := Escape(fields[0].0), Serialize(fields[0].1);
    var m := ['"'] + e + ['"'] + [':'] + value;
    MemberText(fields);
    if |fields| == 1 {
      Regroup(['"'], e, ['"'], [':'], value, ['}'], rest);
    } else {
      var more := SerializeFields(fields[1..]);
      var tail := more + "}" + rest;
      assert SerializeFields(fields) + "}" + rest == m + [','] + tail by {
        Assoc(m + [','] + more, "}", rest);
        Assoc(m + [','], more, "}" + rest);
        Assoc(more, "}", rest);
      }
      Regroup(['"'], e, ['"'], [':'], value, [','], tail);
    }
  }

  lemma Assoc(a: string, b: string, c: string)
    ensures a + b + c == a + (b + c)
  {
  }

  /** The first member's text, and what the text of the others adds after it. */
  lemma MemberText(fields: seq<(string, Json)>)
    requires fields != []
    ensures var m := ['"'] + Escape(fields[0].0) + ['"'] + [':'] + Serialize(fields[0].1);
            SerializeFields(fields) == if |fields| == 1 then m else m + [','] + SerializeFields(fields[1..])
  {
  }

  lemma Regroup(a: string, b: string, c: string, d: string, e: string, f: string, g: string)
    ensures a + b + c + d + e + f + g == a + (b + c + (d + (e + (f + g))))
  {
  }

  /** How the members of a dict read on past one `"key":value` member. */
  lemma FieldStep(s: string, key: string, v: Json, value: string, after: string)
    requires s == ['"'] + (Escape(key) + ['"'] + ([':'] + (value + after)))
    requires ParseValue(value + after) == Some((v, after))
    requires after != [] && (after[0] == '}' || after[0] == ',')
    ensures ParseFields(s) == if after[0] == '}' then Some(([(key, v)], after[1..]))
                              else match ParseFields(after[1..])
                                   case None => None
                                   case Some((fs, rest)) => Some(([(key, v)] + fs, rest))
  {
    var colon := [':'] + (value + after);
    assert s[1..] == Escape(key) + "\"" + colon;
    EscapeParse(key, colon);
    assert ParseString(s[1..]) == Some((key, colon));
    assert colon[1..] == value + after;
  }

  lemma FieldsStart(fields: seq<(string, Json)>)
    requires fields != []
    ensures SerializeFields(fields) != [] && SerializeFields(fields)[0] == '"'
  {
  }

  lemma ItemsStart(items: seq<Json>)
    requires items != []
    ensures SerializeItems(items) != [] && SerializeItems(items)[0] != ']'
  {
    SerializeStart(items[0]);
    assert SerializeItems(items)[0] == Serialize(items[0])[0];
  }

  /** A value's text never starts with a closing bracket. */
  lemma SerializeStart(v: Json)
    ensures Serialize(v) != [] && Serialize(v)[0] != ']'
  {
  }

  /** `json.loads(json.dumps(v))` gives v back. */
  lemma ParseSerialize(v: Json)
    ensures Parse(Serialize(v)) == Some(v)
  {
    SerializeParse(v, []);
    assert Serialize(v) + [] == Serialize(v);
  }

  // ------------------------------------------------------------------- ASCII output

  /** Printable ASCII, ' ' to '~'. */
  predicate Printable(s: string)
  {
    forall i :: 0 <= i < |s| ==> ' ' <= s[i] <= '~'
  }

  lemma PrintableAppend(a: string, b: string)
    requires Printable(a) && Printable(b)
    ensures Printable(a + b)
  {
    assert forall i :: |a| <= i < |a + b| ==> (a + b)[i] == b[i - |a|];
  }

  lemma Hex4Printable(n: nat)
    requires n < 0x10000
    ensures Printable("\\u" + Hex4(n))
  {
    assert forall d :: 0 <= d < 16 ==> '0' <= HexDigits[d] <= 'f';
    var h := Hex4(n);
    assert Printable(h);
    PrintableAppend("\\u", h);
  }

  lemma EscapeCharPrintable(c: char)
    ensures Printable(EscapeChar(c))
  {
    if !(' ' <= c <= '~') && c != '\n' && c != '\r' && c != '\t' && c != '\U{8}' && c != '\U{C}' {
      if c as int < 0x10000 {
        Hex4Printable(c as int);
      } else {
        PairPrintable(c);
      }
    }
  }

  lemma PairPrintable(c: char)
    requires c as int >= 0x10000
    ensures Printable(EscapeChar(c))
  {
    var n := c as int - 0x10000;
    var hi, lo := 0xD800 + n / 0x400, 0xDC00 + n % 0x400;
    Surrogates(n);
    var a, b := "\\u" + Hex4(hi), "\\u" + Hex4(lo);
    assert EscapeChar(c) == a + b;
    assert Printable(a) by { Hex4Printable(hi); }
    assert Printable(b) by { Hex4Printable(lo); }
    PrintableAppend(a, b);
  }

  lemma {:induction false} EscapePrintable(s: string)
    ensures Printable(Escape(s))
  {
    if s != [] {
      EscapeCharPrintable(s[0]);
      EscapePrintable(s[1..]);
      PrintableAppend(EscapeChar(s[0]), Escape(s[1..]));
    }
  }

  lemma QuotePrintable(s: string)
    ensures Printable(Quote(s))
  {
    EscapePrintable(s);
    PrintableAppend("\"", Escape(s));
    PrintableAppend("\"" + Escape(s), "\"");
  }

  /** With `ensure_ascii` the text of every value is printable ASCII, so its UTF-8 encoding
      has one byte per character. */
  lemma {:induction false} SerializePrintable(v: Json)
    ensures Printable(Serialize(v))
    decreases v, 1
  {
    match v
    case Null =>
    case Bool(_) =>
    case Num(n) =>
      var d := if n >= 0 then Decimal(n) else Decimal(-n);
      assert Printable(d);
      if n < 0 {
        PrintableAppend("-", d);
      }
    case Str(str) => QuotePrintable(str);
    case Arr(items) =>
      ItemsPrintable(items);
      PrintableAppend("[", SerializeItems(items));
      PrintableAppend("[" + SerializeItems(items), "]");
    case Obj(fields) =>
      FieldsPrintable(fields);
      PrintableAppend("{", SerializeFields(fields));
      PrintableAppend("{" + SerializeFields(fields), "}");
  }

  lemma {:induction false} ItemsPrintable(items: seq<Json>)
    ensures Printable(SerializeItems(items))
    decreases items, 0
  {
    if items != [] {
      SerializePrintable(items[0]);
      if |items| > 1 {
        ItemsPrintable(items[1..]);
        PrintableAppend(Serialize(items[0]), ",");
        PrintableAppend(Serialize(items[0]) + ",", SerializeItems(items[1..]));
      }
    }
  }

  lemma {:induction false} FieldsPrintable(fields: seq<(string, Json)>)
    ensures Printable(SerializeFields(fields))
    decreases fields, 0
  {
    if fields != [] {
      assert fields[0].1 < fields[0];
      var key := Quote(fields[0].0);
      QuotePrintable(fields[0].0);
      SerializePrintable(fields[0].1);
      PrintableAppend(key, ":");
      PrintableAppend(key + ":", Serialize(fields[0].1));
      var m := key + ":" + Serialize(fields[0].1);
      if |fields| > 1 {
        FieldsPrintable(fields[1..]);
        PrintableAppend(m, ",");
        PrintableAppend(m + ",", SerializeFields(fields[1..]));
      }
    }
  }

  // ------------------------------------------------------------------- layout

  /** One `"key":value` member as the compact separators write it. */
  function Member(key: string, v: Json): string
  {
    Quote(key) + ":" + Serialize(v)
  }

  /** A key of printable characters other than `"` and `\` is written as it is. */
  predicate PlainKey(key: string)
  {
    forall i :: 0 <= i < |key| ==> ' ' <= key[i] <= '~' && key[i] != '"' && key[i] != '\\'
  }

  lemma {:induction false} EscapePlain(s: string)
    requires PlainKey(s)
    ensures Escape(s) == s
  {
    if s != [] {
      EscapePlain(s[1..]);
      assert [s[0]] + s[1..] == s;
    }
  }

  /** A plain key's member is the key in quotes, a colon and the value, with no space. */
  lemma MemberPlain(key: string, v: Json)
    requires PlainKey(key)
    ensures Member(key, v) == "\"" + key + "\":" + Serialize(v)
  {
    EscapePlain(key);
  }

  /** The members of a dict follow each other separated by a bare comma. */
  lemma FieldsCons(fields: seq<(string, Json)>)
    requires |fields| > 1
    ensures SerializeFields(fields) == Member(fields[0].0, fields[0].1) + "," + SerializeFields(fields[1..])
  {
  }

  lemma FieldsOne(fields: seq<(string, Json)>)
    requires |fields| == 1
    ensures SerializeFields(fields) == Member(fields[0].0, fields[0].1)
  {
  }

  /** A dict of five members, written out. */
  lemma FiveFields(f: seq<(string, Json)>)
    requires |f| == 5
    ensures Serialize(Obj(f)) == "{" + Member(f[0].0, f[0].1) + "," + Member(f[1].0, f[1].1) + ","
                                     + Member(f[2].0, f[2].1) + "," + Member(f[3].0, f[3].1) + ","
                                     + Member(f[4].0, f[4].1) + "}"
  {
    var m0, m1, m2 := Member(f[0].0, f[0].1), Member(f[1].0, f[1].1), Member(f[2].0, f[2].1);
    var m3, m4 := Member(f[3].0, f[3].1), Member(f[4].0, f[4].1);
    var t4 := SerializeFields(f[3..]);
    assert t4 == m3 + "," + m4 by {
      FieldsCons(f[3..]);
      FieldsOne(f[3..][1..]);
    }
    var t3 := SerializeFields(f[2..]);
    assert t3 == m2 + "," + t4 by {
      FieldsCons(f[2..]);
      assert f[2..][1..] == f[3..];
    }
    var t2 := SerializeFields(f[1..]);
    assert t2 == m1 + "," + t3 by {
      FieldsCons(f[1..]);
      assert f[1..][1..] == f[2..];
    }
    var t1 := SerializeFields(f);
    assert t1 == m0 + "," + t2 by {
      FieldsCons(f);
    }
    Flatten(m0, m1, m2, m3, m4);
  }

  lemma Flatten(m0: string, m1: string, m2: string, m3: string, m4: string)
    ensures "{" + (m0 + "," + (m1 + "," + (m2 + "," + (m3 + "," + m4)))) + "}"
         == "{" + m0 + "," + m1 + "," + m2 + "," + m3 + "," + m4 + "}"
  {
  }
}
