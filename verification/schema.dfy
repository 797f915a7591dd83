/**
 * api/schema.py: the CNJ mask `NNNNNNN-DD.AAAA.J.TR.OOOO`, the second implementation of the
 * MOD 97-10 check digits, and the input validator of the search request.
 */
module Schema {

  import opened Text
  import opened Wrappers
  import opened Util

  // ------------------------------------------------------------- format_cnj

  /** `format_cnj(digits)`. Indexing `digits[13]` raises for shorter strings; every slice
      is clamped as Python clamps it. */
  function FormatCnj(d: string): (r: string)
    requires |d| > 13
    ensures |d| == 20 ==> |r| == 25
  {
    Take(d, 7) + "-" + Slice(d, 7, 9) + "." + Slice(d, 9, 13) + "." + [d[13]] + "."
      + Slice(d, 14, 16) + "." + Slice(d, 16, 20)
  }

  /** Where each character of a 20-character input lands in the mask, and where the
      separators stand. */
  lemma FormatCnjLayout(d: string)
    requires |d| == 20
    ensures var r := FormatCnj(d);
      && r[7] == '-' && r[10] == '.' && r[15] == '.' && r[17] == '.' && r[20] == '.'
      && r[..7] == d[..7] && r[8..10] == d[7..9] && r[11..15] == d[9..13] && r[16] == d[13]
      && r[18..20] == d[14..16] && r[21..] == d[16..]
  {
    var n, dv, year, j, tr, origin := d[..7], d[7..9], d[9..13], d[13..14], d[14..16], d[16..];
    assert d == n + dv + year + j + tr + origin;
    MaskPieces(n, dv, year, j, tr, origin);
    PiecesLayout(n, dv, year, j, tr, origin);
  }

  /** Where the fields and separators of a mask stand. */
  lemma PiecesLayout(n: string, dv: string, year: string, j: string, tr: string, origin: string)
    requires |n| == 7 && |dv| == 2 && |year| == 4 && |j| == 1 && |tr| == 2 && |origin| == 4
    ensures var r := n + "-" + dv + "." + year + "." + j + "." + tr + "." + origin;
      && r[7] == '-' && r[10] == '.' && r[15] == '.' && r[17] == '.' && r[20] == '.'
      && r[..7] == n && r[8..10] == dv && r[11..15] == year && r[16] == j[0]
      && r[18..20] == tr && r[21..] == origin
  {
  }

  /** The mask of 20 digits, field by field. */
  lemma MaskPieces(n: string, dv: string, year: string, j: string, tr: string, origin: string)
    requires |n| == 7 && |dv| == 2 && |year| == 4 && |j| == 1 && |tr| == 2 && |origin| == 4
    ensures FormatCnj(n + dv + year + j + tr + origin)
         == n + "-" + dv + "." + year + "." + j + "." + tr + "." + origin
  {
    var d := n + dv + year + j + tr + origin;
    assert Take(d, 7) == n;
    assert Slice(d, 7, 9) == dv by { assert d[..9][7..] == dv; }
    assert Slice(d, 9, 13) == year by { assert d[..13][9..] == year; }
    assert [d[13]] == j;
    assert Slice(d, 14, 16) == tr by { assert d[..16][14..] == tr; }
    assert Slice(d, 16, 20) == origin by { assert d[..20][16..] == origin; }
  }

  /** Deleting the separators from the mask gives the digits back, for any deletion that
      removes `-` and `.` and keeps digits. */
  lemma FormatCnjUnmask(d: string, bad: char -> bool)
    requires |d| == 20 && AllDigits(d)
    requires bad('-') && bad('.')
    requires forall c :: IsDigit(c) ==> !bad(c)
    ensures Without(FormatCnj(d), bad) == d
  {
    var p0, p1, p2, p3, p4, p5 := d[..7], d[7..9], d[9..13], d[13..14], d[14..16], d[16..];
    Unmasked(p0, bad);
    var a1 := p0 + ['-'] + p1;
    UnmaskStep(p0, '-', p1, bad);
    var a2 := a1 + ['.'] + p2;
    UnmaskStep(a1, '.', p2, bad);
    var a3 := a2 + ['.'] + p3;
    UnmaskStep(a2, '.', p3, bad);
    var a4 := a3 + ['.'] + p4;
    UnmaskStep(a3, '.', p4, bad);
    var a5 := a4 + ['.'] + p5;
    UnmaskStep(a4, '.', p5, bad);
    assert FormatCnj(d) == a5;
    assert d == p0 + p1 + p2 + p3 + p4 + p5;
  }

  /** One separator and one group of digits of the mask. */
  lemma UnmaskStep(acc: string, sep: char, p: string, bad: char -> bool)
    requires bad(sep) && AllDigits(p)
    requires forall c :: IsDigit(c) ==> !bad(c)
    ensures Without(acc + [sep] + p, bad) == Without(acc, bad) + p
  {
    Unmasked(p, bad);
    WithoutAppend(acc + [sep], p, bad);
    WithoutAppend(acc, [sep], bad);
    assert Without([sep], bad) == [];
  }

  lemma Unmasked(p: string, bad: char -> bool)
    requires AllDigits(p)
    requires forall c :: IsDigit(c) ==> !bad(c)
    ensures Without(p, bad) == p
  {
    WithoutNone(p, bad);
  }

  /** The round trip of the mask: `valida_npu`'s deletion of `.` and `-`, and the cleaning of
      `remove_special_characters`, both turn the masked number back into its 20 digits. */
  lemma FormatCnjRoundTrip(d: string)
    requires |d| == 20 && AllDigits(d)
    ensures NpuDigits(FormatCnj(d)) == d
    ensures RemoveSpecialCharacters(FormatCnj(d)) == d
  {
    FormatCnjUnmask(d, IsNpuPunctuation);
    FormatCnjUnmask(d, IsSpecial);
    RemoveSpecialCharactersFirstStep(FormatCnj(d));
    RemoveSpecialCharactersFirstStep(d);
    RemoveSpecialCharactersDigits(d);
  }

  // ---------------------------------------------------- calc_digito_verificador

  /** `digits[:7] + digits[9:] + "00"`: the number without its check digits, times 100. */
  function CheckBase(d: string): string
  {
    NpuBody(d) + "00"
  }

  /** `calc_digito_verificador(digits)`: `int(base)` raises unless the body is made of
      digits. The result is the two-digit, zero-padded MOD 97-10 check pair of the body. */
  function CalcDigitoVerificador(d: string): (r: string)
    requires AllDigits(NpuBody(d))
    ensures |r| == 2 && AllDigits(r)
    ensures Mod97Accepts(Value(NpuBody(d)), Value(r))
  {
    var base := CheckBase(d);
    ValueAppend(NpuBody(d), "00");
    assert Value("00") == 0 by {
      assert "00"[..1] == "0";
    }
    var dv := 98 - Value(base) % 97;
    assert dv == CheckDigits(Value(NpuBody(d)));
    ZeroPadValue(dv);
    ZeroPad2(dv)
  }

  /** A two-digit number printed with `:02d` reads back as itself. */
  lemma ZeroPadValue(n: nat)
    requires n < 100
    ensures |ZeroPad2(n)| == 2 && AllDigits(ZeroPad2(n)) && Value(ZeroPad2(n)) == n
  {
    var z := ZeroPad2(n);
    if n < 10 {
      assert z == ['0', DigitChar(n)];
    } else {
      assert Decimal(n / 10) == [DigitChar(n / 10)];
      assert z == [DigitChar(n / 10), DigitChar(n % 10)];
    }
    assert z[..1] == [z[0]];
    assert z[..1][..0] == [];
  }

  /** `digits[:7] + x + digits[9:]`: positions 7 and 8 replaced by x. */
  function WithCheckPair(d: string, x: string): (r: string)
    requires |d| == 20 && |x| == 2
    ensures |r| == 20 && r[7..9] == x
    ensures forall i :: 0 <= i < 20 && i != 7 && i != 8 ==> r[i] == d[i]
  {
    d[..7] + x + d[9..]
  }

  /** The computation never reads positions 7 and 8. */
  lemma CalcIgnoresCheckPair(d: string, x: string)
    requires |d| == 20 && |x| == 2 && AllDigits(NpuBody(d))
    ensures NpuBody(WithCheckPair(d, x)) == NpuBody(d)
    ensures CalcDigitoVerificador(WithCheckPair(d, x)) == CalcDigitoVerificador(d)
  {
    var e := WithCheckPair(d, x);
    assert e[..7] == d[..7] && e[9..] == d[9..];
  }

  /** The two implementations agree: on 20 digits, the check pair computed by
      `calc_digito_verificador` is the one written in the number exactly when `valida_npu`
      accepts the number. */
  lemma CalcAgreesWithValidaNpu(d: string)
    requires |d| == 20 && AllDigits(d)
    ensures CalcDigitoVerificador(d) == NpuCheckPair(d) <==> ValidaNpu(d) == Some(true)
  {
    WithoutNone(d, IsNpuPunctuation);
    assert NpuDigits(d) == d;
    var body, pair := NpuBody(d), NpuCheckPair(d);
    assert pair == d[7..9];
    assert body == d[..7] + d[9..];
    var c := CalcDigitoVerificador(d);
    var dv := CheckDigits(Value(body));
    CheckDigitsUnique(Value(body), Value(c));
    CheckDigitsUnique(Value(body), Value(pair));
    ValueBelow100(pair);
    ValueBelow100(c);
    ZeroPad2Exact(pair, dv);
    ZeroPad2Exact(c, dv);
    assert c == pair <==> Value(pair) == dv;
  }

  lemma ValueBelow100(x: string)
    requires |x| == 2 && AllDigits(x)
    ensures Value(x) == 10 * DigitValue(x[0]) + DigitValue(x[1]) < 100
  {
    assert x[..1][..0] == [];
    assert Value(x[..1]) == DigitValue(x[0]);
  }

  /** Two two-digit strings with the same value are the same string. */
  lemma SameTwoDigits(x: string, y: string)
    requires |x| == 2 && AllDigits(x) && |y| == 2 && AllDigits(y)
    requires Value(x) == Value(y)
    ensures x == y
  {
    ValueBelow100(x);
    ValueBelow100(y);
    assert x[0] == y[0] && x[1] == y[1];
  }

  /** Writing the computed pair into positions 7 and 8 of any 20 digits gives a number the
      validator of crawler_jus/util.py accepts. */
  lemma FilledCheckPairAccepted(d: string)
    requires |d| == 20 && AllDigits(d)
    ensures var e := WithCheckPair(d, CalcDigitoVerificador(d));
      AllDigits(e) && ValidaNpu(e) == Some(true)
  {
    var c := CalcDigitoVerificador(d);
    var e := WithCheckPair(d, c);
    assert AllDigits(e) by {
      forall i | 0 <= i < 20
        ensures IsDigit(e[i])
      {
        if i == 7 || i == 8 {
          assert e[i] == e[7..9][i - 7];
        }
      }
    }
    CalcIgnoresCheckPair(d, c);
    CalcAgreesWithValidaNpu(e);
  }

  /** The example number 5001646-66.2026.8.21.0008: its check digits 66 are the computed
      ones. */
  lemma CheckDigitsExample()
    ensures CheckDigits(500164620268210008) == 66
  {
  }

  // ------------------------------------------- normalize_and_validate_npu

  /** The raw `npu` field before validation: a string, or any other JSON value. */
  datatype RawNpu = RawStr(s: string) | RawOther

  /** The ValueErrors the validator raises (pydantic turns each into a validation error). */
  datatype InputError =
    | NotAString        // "NPU deve ser string"
    | NotNormalizable   // raised inside normalize_npu_to_20_digits
    | InvalidCheckDigits

  /** A stand-in for `normalize_npu_to_20_digits`, which is not part of this model: every
      result it returns is 20 ASCII digits; None stands for its raising. */
  ghost predicate NormalizesTo20Digits(normalize: string -> Option<string>)
  {
    forall s :: normalize(s).Some? ==> |normalize(s).value| == 20 && AllDigits(normalize(s).value)
  }

  /** `ClienteInput.normalize_and_validate_npu(npu)`. */
  function NormalizeAndValidateNpu(npu: RawNpu, normalize: string -> Option<string>)
    : (r: Result<string, InputError>)
    requires NormalizesTo20Digits(normalize)
    ensures npu.RawOther? <==> r == Err(NotAString)
    ensures npu.RawStr? && normalize(npu.s).None? <==> r == Err(NotNormalizable)
    ensures r.Ok? <==>
      npu.RawStr? && normalize(npu.s).Some? && ValidaNpu(normalize(npu.s).value) == Some(true)
    ensures r.Ok? ==> r.value == FormatCnj(normalize(npu.s).value)
    ensures r.Ok? ==> |r.value| == 25 && NpuDigits(r.value) == normalize(npu.s).value
    ensures r.Ok? ==> ValidaNpu(r.value) == Some(true)
  {
    match npu
    case RawOther => Err(NotAString)
    case RawStr(s) =>
      match normalize(s)
      case None => Err(NotNormalizable)
      case Some(digits20) =>
        var expected := CalcDigitoVerificador(digits20);
        var given := Slice(digits20, 7, 9);
        CalcAgreesWithValidaNpu(digits20);
        if given != expected then Err(InvalidCheckDigits)
        else
          FormatCnjRoundTrip(digits20);
          MaskedValid(digits20);
          Ok(FormatCnj(digits20))
  }

  /** `valida_npu` reads the masked number as it reads the bare digits. */
  lemma MaskedValid(d: string)
    requires |d| == 20 && AllDigits(d)
    ensures ValidaNpu(FormatCnj(d)) == ValidaNpu(Without(d, IsNpuPunctuation))
  {
    FormatCnjUnmask(d, IsNpuPunctuation);
    WithoutNone(d, IsNpuPunctuation);
  }
}

module SchemaExamples {
  import opened Text
  import opened Wrappers
  import opened Util
  import opened Schema

  /** The example of tests/test_util.py: the punctuation of the CNJ mask is removed. */
  lemma MaskExample(masked: string, d: string)
    requires masked == "5001646-66.2026.8.21.0008" && d == "50016466620268210008"
    ensures RemoveSpecialCharacters(masked) == d
  {
    MaskExampleLayout(masked, d);
    FormatCnjRoundTrip(d);
  }

  /** The masked string of the test is the CNJ mask of its digits. */
  lemma MaskExampleLayout(masked: string, d: string)
    requires masked == "5001646-66.2026.8.21.0008" && d == "50016466620268210008"
    ensures |d| == 20 && AllDigits(d) && FormatCnj(d) == masked
  {
    ExampleFields(d);
    ExampleMask(masked);
    MaskPieces("5001646", "66", "2026", "8", "21", "0008");
  }

  lemma ExampleFields(d: string)
    requires d == "50016466620268210008"
    ensures AllDigits(d) && d == "5001646" + "66" + "2026" + "8" + "21" + "0008"
  {
  }

  lemma ExampleMask(masked: string)
    requires masked == "5001646-66.2026.8.21.0008"
    ensures masked == "5001646" + "-" + "66" + "." + "2026" + "." + "8" + "." + "21" + "." + "0008"
  {
  }

  /** The example number is accepted by `valida_npu`: its check digits 66 are the computed
      ones for the body 500164620268210008. */
  lemma ValidaExample(d: string)
    requires d == "50016466620268210008"
    ensures ValidaNpu(d) == Some(true)
  {
    ValidaExampleParts(d);
  }

  lemma ValidaExampleParts(d: string)
    requires d == "50016466620268210008"
    ensures IsNumeral(NpuBody(NpuDigits(d))) && IsNumeral(NpuCheckPair(NpuDigits(d)))
    ensures Mod97Accepts(Value(NpuBody(NpuDigits(d))), Value(NpuCheckPair(NpuDigits(d))))
  {
    ExampleSplit(d);
    WithoutNone(d, IsNpuPunctuation);
    BodyAndPair("5001646", "66", "20268210008");
    BodyValueExample();
    PairValueExample();
    assert Mod97Accepts(500164620268210008, 66);
  }

  lemma ExampleSplit(d: string)
    requires d == "50016466620268210008"
    ensures AllDigits(d) && d == "5001646" + "66" + "20268210008"
    ensures "5001646" + "20268210008" == "500164620268210008"
  {
  }

  /** `npu[:7] + npu[9:]` and `npu[7:9]` of a number split after its seventh and ninth
      characters. */
  lemma BodyAndPair(n: string, dv: string, rest: string)
    requires |n| == 7 && |dv| == 2
    ensures NpuBody(n + dv + rest) == n + rest && NpuCheckPair(n + dv + rest) == dv
  {
    var d := n + dv + rest;
    assert d[..7] == n && d[9..] == rest;
    assert d[..9][7..] == dv;
  }

  lemma PairValueExample()
    ensures AllDigits("66") && Value("66") == 66
  {
    ValueSnoc("6", '6');
    assert "6" + ['6'] == "66";
  }

  /** The body reads as its number, in three six-digit groups. */
  lemma BodyValueExample()
    ensures AllDigits("500164620268210008") && Value("500164620268210008") == 500164620268210008
  {
    var a, b, c := "500164", "620268", "210008";
    GroupValue(a, 500164);
    GroupValue(b, 620268);
    GroupValue(c, 210008);
    ValueAppend(a, b);
    ValueAppend(a + b, c);
    assert Pow10(6) == 1000000;
    assert a + b + c == "500164620268210008";
  }

  /** A six-digit group read digit by digit. */
  lemma GroupValue(s: string, n: nat)
    requires |s| == 6 && AllDigits(s)
    requires n == DigitValue(s[0]) * 100000 + DigitValue(s[1]) * 10000 + DigitValue(s[2]) * 1000
                + DigitValue(s[3]) * 100 + DigitValue(s[4]) * 10 + DigitValue(s[5])
    ensures Value(s) == n
  {
    var t := s[..1];
    assert Value(t) == DigitValue(s[0]) by { assert t[..0] == []; }
    ValueSnoc(t, s[1]);
    t := t + [s[1]];
    ValueSnoc(t, s[2]);
    t := t + [s[2]];
    ValueSnoc(t, s[3]);
    t := t + [s[3]];
    ValueSnoc(t, s[4]);
    t := t + [s[4]];
    ValueSnoc(t, s[5]);
    t := t + [s[5]];
    assert t == s;
  }

  lemma ValueSnoc(a: string, c: char)
    requires AllDigits(a) && IsDigit(c)
    ensures AllDigits(a + [c]) && Value(a + [c]) == 10 * Value(a) + DigitValue(c)
  {
    assert (a + [c])[..|a|] == a;
  }
}
