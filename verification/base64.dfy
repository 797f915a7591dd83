/**
 * The base64 encoding of section 4 of RFC 4648, as `base64.b64encode` applies it, and the
 * UTF-8 encoding of ASCII text (`str.encode()` on a string whose characters are all below
 * 128). A strict decoder is the partner the encoder is proved against.
 */
module Base64 {

  import opened Wrappers

  type Byte = b: int | 0 <= b < 256

  /** The 64-character alphabet of RFC 4648, table 1. */
  function Alphabet(v: nat): (c: char)
    requires v < 64
    ensures IsAlphabet(c)
  {
    if v < 26 then ('A' as int + v) as char
    else if v < 52 then ('a' as int + (v - 26)) as char
    else if v < 62 then ('0' as int + (v - 52)) as char
    else if v == 62 then '+'
    else '/'
  }

  predicate IsAlphabet(c: char)
  {
    || 'A' <= c <= 'Z' || 'a' <= c <= 'z' || '0' <= c <= '9' || c == '+' || c == '/'
  }

  /** The value an alphabet character stands for. */
  function SextetOf(c: char): (v: Option<nat>)
    ensures v.Some? <==> IsAlphabet(c)
    ensures v.Some? ==> v.value < 64 && Alphabet(v.value) == c
  {
    if 'A' <= c <= 'Z' then Some(c as int - 'A' as int)
    else if 'a' <= c <= 'z' then Some(c as int - 'a' as int + 26)
    else if '0' <= c <= '9' then Some(c as int - '0' as int + 52)
    else if c == '+' then Some(62)
    else if c == '/' then Some(63)
    else None
  }

  /** Each alphabet character stands for exactly one value. */
  lemma SextetOfAlphabet(v: nat)
    requires v < 64
    ensures SextetOf(Alphabet(v)) == Some(v)
  {
  }

  // ----------------------------------------------------------------- encoding

  /** The 24-bit group of three bytes, as four 6-bit characters. */
  function EncodeGroup(b0: Byte, b1: Byte, b2: Byte): string
  {
    [Alphabet(b0 / 4), Alphabet((b0 % 4) * 16 + b1 / 16), Alphabet((b1 % 16) * 4 + b2 / 64),
     Alphabet(b2 % 64)]
  }

  /** `base64.b64encode(b)`: groups of three bytes, the last group padded with `=`. */
  function Encode(b: seq<Byte>): string
  {
    if |b| == 0 then []
    else if |b| == 1 then EncodeLastOne(b[0])
    else if |b| == 2 then EncodeLastTwo(b[0], b[1])
    else EncodeGroup(b[0], b[1], b[2]) + Encode(b[3..])
  }

  /** A last group of one byte: two characters and two `=`. */
  function EncodeLastOne(b0: Byte): (s: string)
    ensures |s| == 4
  {
    [Alphabet(b0 / 4), Alphabet((b0 % 4) * 16), '=', '=']
  }

  /** A last group of two bytes: three characters and one `=`. */
  function EncodeLastTwo(b0: Byte, b1: Byte): (s: string)
    ensures |s| == 4
  {
    [Alphabet(b0 / 4), Alphabet((b0 % 4) * 16 + b1 / 16), Alphabet((b1 % 16) * 4), '=']
  }

  /** Four characters for every started group of three bytes. */
  lemma {:induction false} EncodeLength(b: seq<Byte>)
    ensures |Encode(b)| == 4 * ((|b| + 2) / 3)
  {
    if |b| > 2 {
      EncodeLength(b[3..]);
      assert (|b| + 2) / 3 == (|b[3..]| + 2) / 3 + 1;
    }
  }

  /** The encoding uses the alphabet, and `=` only as padding at the end. */
  lemma {:induction false} EncodeAlphabet(b: seq<Byte>)
    ensures forall i :: 0 <= i < |Encode(b)| ==>
      IsAlphabet(Encode(b)[i]) || (Encode(b)[i] == '=' && i >= |Encode(b)| - 2)
  {
    if |b| > 2 {
      EncodeAlphabet(b[3..]);
      var s, g, t := Encode(b), EncodeGroup(b[0], b[1], b[2]), Encode(b[3..]);
      assert s == g + t;
      forall i | 0 <= i < |s|
        ensures IsAlphabet(s[i]) || (s[i] == '=' && i >= |s| - 2)
      {
        if i >= 4 {
          assert s[i] == t[i - 4];
          assert IsAlphabet(t[i - 4]) || (t[i - 4] == '=' && i - 4 >= |t| - 2);
        } else {
          assert s[i] == g[i];
        }
      }
    }
  }

  // ----------------------------------------------------------------- decoding

  /** Decoding of one group of four characters; `last` says whether padding may appear. */
  function DecodeGroup(g: string, last: bool): (r: Option<seq<Byte>>)
    requires |g| == 4
    ensures r.Some? ==> 1 <= |r.value| <= 3 && (!last ==> |r.value| == 3)
  {
    var v0, v1, v2, v3 := SextetOf(g[0]), SextetOf(g[1]), SextetOf(g[2]), SextetOf(g[3]);
    if v0.None? || v1.None? then None
    else if last && g[2] == '=' && g[3] == '=' then
      Some([v0.value * 4 + v1.value / 16])
    else if v2.None? then None
    else if last && g[3] == '=' then
      Some([v0.value * 4 + v1.value / 16, (v1.value % 16) * 16 + v2.value / 4])
    else if v3.None? then None
    else
      Some([v0.value * 4 + v1.value / 16, (v1.value % 16) * 16 + v2.value / 4,
            (v2.value % 4) * 64 + v3.value])
  }

  /** A strict decoder: a whole number of groups, `=` only in the last one. */
  function Decode(s: string): (r: Option<seq<Byte>>)
    decreases |s|
  {
    if s == [] then Some([])
    else if |s| < 4 then None
    else
      match DecodeGroup(s[..4], |s| == 4)
      case None => None
      case Some(g) =>
        match Decode(s[4..])
        case None => None
        case Some(rest) => Some(g + rest)
  }

  /** Decoding undoes the encoding: the partner of `Encode`. */
  lemma {:induction false} DecodeEncode(b: seq<Byte>)
    ensures Decode(Encode(b)) == Some(b)
    decreases |b|
  {
    if |b| == 1 {
      DecodeEncodeOne(b);
    } else if |b| == 2 {
      DecodeEncodeTwo(b);
    } else if |b| > 2 {
      DecodeEncode(b[3..]);
      DecodeEncodeGroup(b);
    }
  }

  lemma DecodeEncodeGroup(b: seq<Byte>)
    requires |b| > 2 && Decode(Encode(b[3..])) == Some(b[3..])
    ensures Decode(Encode(b)) == Some(b)
  {
    EncodeSplit(b);
    EncodeEmpty(b[3..]);
    DecodeFirstGroup(b, EncodeGroup(b[0], b[1], b[2]), Encode(b[3..]));
  }

  lemma DecodeFirstGroup(b: seq<Byte>, g: string, t: string)
    requires |b| > 2 && g == EncodeGroup(b[0], b[1], b[2]) && Decode(t) == Some(b[3..])
    requires t == [] <==> |b| == 3
    ensures Decode(g + t) == Some(b)
  {
    GroupThree(b[0], b[1], b[2], t == []);
    DecodeGroups(g, t, [b[0], b[1], b[2]], b[3..]);
    assert b == [b[0], b[1], b[2]] + b[3..];
  }

  /** Only the empty byte string has the empty encoding. */
  lemma EncodeEmpty(b: seq<Byte>)
    ensures Encode(b) == [] <==> b == []
  {
  }

  lemma DecodeEncodeOne(b: seq<Byte>)
    requires |b| == 1
    ensures Decode(Encode(b)) == Some(b)
  {
    var s := Encode(b);
    assert s == EncodeLastOne(b[0]);
    GroupOne(b[0]);
    DecodeLast(s, [b[0]]);
    assert [b[0]] == b;
  }

  lemma DecodeEncodeTwo(b: seq<Byte>)
    requires |b| == 2
    ensures Decode(Encode(b)) == Some(b)
  {
    var s := Encode(b);
    assert s == EncodeLastTwo(b[0], b[1]);
    GroupTwo(b[0], b[1]);
    DecodeLast(s, [b[0], b[1]]);
    assert [b[0], b[1]] == b;
  }

  lemma EncodeSplit(b: seq<Byte>)
    requires |b| > 2
    ensures Encode(b) == EncodeGroup(b[0], b[1], b[2]) + Encode(b[3..])
  {
  }

  /** Decoding a single, last group. */
  lemma DecodeLast(g: string, x: seq<Byte>)
    requires |g| == 4 && DecodeGroup(g, true) == Some(x)
    ensures Decode(g) == Some(x)
  {
    assert g[..4] == g && g[4..] == [];
    assert x + [] == x;
  }

  /** Decoding a first group and the rest. */
  lemma DecodeGroups(g: string, t: string, x: seq<Byte>, y: seq<Byte>)
    requires |g| == 4 && DecodeGroup(g, t == []) == Some(x) && Decode(t) == Some(y)
    ensures Decode(g + t) == Some(x + y)
  {
    assert (g + t)[..4] == g && (g + t)[4..] == t;
  }

  lemma GroupOne(b0: Byte)
    ensures DecodeGroup(EncodeLastOne(b0), true) == Some([b0])
  {
    SextetOfAlphabet(b0 / 4);
    SextetOfAlphabet((b0 % 4) * 16);
  }

  lemma GroupTwo(b0: Byte, b1: Byte)
    ensures DecodeGroup(EncodeLastTwo(b0, b1), true) == Some([b0, b1])
  {
    SextetOfAlphabet(b0 / 4);
    SextetOfAlphabet((b0 % 4) * 16 + b1 / 16);
    SextetOfAlphabet((b1 % 16) * 4);
  }

  lemma GroupThree(b0: Byte, b1: Byte, b2: Byte, last: bool)
    ensures DecodeGroup(EncodeGroup(b0, b1, b2), last) == Some([b0, b1, b2])
  {
    var v0, v1, v2, v3 := b0 / 4, (b0 % 4) * 16 + b1 / 16, (b1 % 16) * 4 + b2 / 64, b2 % 64;
    SextetOfAlphabet(v0);
    SextetOfAlphabet(v1);
    SextetOfAlphabet(v2);
    SextetOfAlphabet(v3);
    Split16(b0 % 4, b1 / 16);
    Split4(b1 % 16, b2 / 64);
  }

  /** Reading back the two parts of a number written as q * 16 + r. */
  lemma Split16(q: nat, r: nat)
    requires r < 16
    ensures (q * 16 + r) / 16 == q && (q * 16 + r) % 16 == r
  {
  }

  /** Reading back the two parts of a number written as q * 4 + r. */
  lemma Split4(q: nat, r: nat)
    requires r < 4
    ensures (q * 4 + r) / 4 == q && (q * 4 + r) % 4 == r
  {
  }

  /** Two byte strings with the same encoding are equal. */
  lemma EncodeInjective(a: seq<Byte>, b: seq<Byte>)
    requires Encode(a) == Encode(b)
    ensures a == b
  {
    DecodeEncode(a);
    DecodeEncode(b);
  }

  // -------------------------------------------------------------- ASCII text

  predicate IsAscii(s: string)
  {
    forall i :: 0 <= i < |s| ==> s[i] as int < 128
  }

  /** `s.encode()` for ASCII text: one byte per character, its code. */
  function AsciiBytes(s: string): (b: seq<Byte>)
    requires IsAscii(s)
    ensures |b| == |s| && forall i :: 0 <= i < |s| ==> b[i] == s[i] as int
  {
    if s == [] then [] else [s[0] as int as Byte] + AsciiBytes(s[1..])
  }

  /** `b.decode()` for bytes below 128. */
  function AsciiText(b: seq<Byte>): (s: string)
    requires forall i :: 0 <= i < |b| ==> b[i] < 128
    ensures |s| == |b| && forall i :: 0 <= i < |b| ==> s[i] as int == b[i]
  {
    if b == [] then [] else [b[0] as char] + AsciiText(b[1..])
  }

  /** Decoding the bytes of ASCII text gives the text back. */
  lemma AsciiRoundTrip(s: string)
    requires IsAscii(s)
    ensures AsciiText(AsciiBytes(s)) == s
  {
    var t := AsciiText(AsciiBytes(s));
    assert forall i :: 0 <= i < |s| ==> t[i] == s[i];
  }

  /** The text carried by a base64 string, when it decodes to ASCII. */
  function DecodeAscii(s: string): Option<string>
  {
    match Decode(s)
    case None => None
    case Some(b) =>
      if forall i :: 0 <= i < |b| ==> b[i] < 128 then Some(AsciiText(b)) else None
  }

  /** Text sent as base64 of its ASCII bytes is read back unchanged. */
  lemma DecodeAsciiEncode(s: string)
    requires IsAscii(s)
    ensures DecodeAscii(Encode(AsciiBytes(s))) == Some(s)
  {
    DecodeEncode(AsciiBytes(s));
    AsciiRoundTrip(s);
  }
}
