/**
 * crawler_jus/util.py: cleaning of judicial process numbers (NPU), the district (comarca)
 * code, the two upstream query URLs and the MOD 97-10 check of ISO/IEC 7064 that the CNJ
 * unified numbering uses.
 *
 * Every regular-expression substitution of the source becomes a recursive character filter.
 */
module Util {

  import opened Text
  import opened Wrappers

  // ------------------------------------------------------------ whitespace

  /** Length of the whitespace run s starts with. */
  function SpaceRun(s: string): (k: nat)
    ensures k <= |s|
    ensures forall i :: 0 <= i < k ==> IsSpace(s[i])
    ensures k < |s| ==> !IsSpace(s[k])
  {
    if s != [] && IsSpace(s[0]) then 1 + SpaceRun(s[1..]) else 0
  }

  /** Length of the run of non-whitespace characters s starts with. */
  function WordLength(s: string): (k: nat)
    ensures k <= |s|
    ensures forall i :: 0 <= i < k ==> !IsSpace(s[i])
    ensures k < |s| ==> IsSpace(s[k])
  {
    if s != [] && !IsSpace(s[0]) then 1 + WordLength(s[1..]) else 0
  }

  /** No whitespace at either end. */
  predicate NoEdgeSpace(s: string)
  {
    s != [] ==> !IsSpace(s[0]) && !IsSpace(s[|s| - 1])
  }

  /** No two whitespace characters next to each other. */
  predicate NoSpaceRun(s: string)
  {
    forall i :: 0 < i < |s| ==> !(IsSpace(s[i - 1]) && IsSpace(s[i]))
  }

  /** `re.sub(r"\s{2,}", " ", s)`: every run of two or more whitespace characters becomes one
      space; a lone whitespace character is kept as it is. */
  function CollapseSpaceRuns(s: string): (r: string)
    decreases |s|
  {
    if s == [] then []
    else if IsSpace(s[0]) then
      var k := SpaceRun(s);
      (if k >= 2 then " " else s[..1]) + CollapseSpaceRuns(s[k..])
    else s[..1] + CollapseSpaceRuns(s[1..])
  }

  /** `re.sub(r"^\s+", "", s)`, which is also `s.lstrip()`. */
  function DropLeadingSpace(s: string): (r: string)
    ensures |r| <= |s|
    ensures r != [] ==> !IsSpace(r[0])
  {
    s[SpaceRun(s)..]
  }

  /** `re.sub(r"\s+$", "", s)`, which is also `s.rstrip()`. */
  function DropTrailingSpace(s: string): (r: string)
    ensures |r| <= |s| && r == s[..|r|]
    ensures forall i :: |r| <= i < |s| ==> IsSpace(s[i])
    ensures r != [] ==> !IsSpace(r[|r| - 1])
  {
    if s != [] && IsSpace(s[|s| - 1]) then DropTrailingSpace(s[..|s| - 1]) else s
  }

  /** `s.strip()`. */
  function Strip(s: string): string
  {
    DropTrailingSpace(DropLeadingSpace(s))
  }

  // ------------------------------------------------------ remove_blank_space

  /** `s.split()`: the maximal runs of non-whitespace characters, in order. */
  function Split(s: string): (words: seq<string>)
    ensures forall i :: 0 <= i < |words| ==> IsWord(words[i])
    decreases |s|
  {
    var t := DropLeadingSpace(s);
    if t == [] then []
    else
      var w := t[..WordLength(t)];
      [w] + Split(t[|w|..])
  }

  /** What `split()` yields: a non-empty string without whitespace. */
  predicate IsWord(w: string)
  {
    w != [] && forall i :: 0 <= i < |w| ==> !IsSpace(w[i])
  }

  /** `" ".join(words)`. */
  function JoinWords(words: seq<string>): string
  {
    if words == [] then []
    else if |words| == 1 then words[0]
    else words[0] + " " + JoinWords(words[1..])
  }

  /** `remove_blank_space(txt)`. */
  function RemoveBlankSpace(txt: string): (r: string)
    ensures r == JoinWords(Split(txt))
    ensures Split(r) == Split(txt)
    ensures NoEdgeSpace(r) && NoSpaceRun(r)
    ensures forall i :: 0 <= i < |r| && IsSpace(r[i]) ==> r[i] == ' '
  {
    var words := Split(txt);
    JoinedShape(words);
    SplitJoin(words);
    var j := JoinWords(words);
    assert DropLeadingSpace(j) == j by {
      assert SpaceRun(j) == 0;
    }
    StripClean(j);
    Strip(j)
  }

  // ------------------------------------------------ remove_special_characters

  /** The character class of the first substitution: `[\\\/,;<>\.\?\/\!\*\-\+\_\=\@\#%:\(\)]`.
      The `" "` written after the pattern is a second string literal that Python concatenates,
      so the space is not in the class. */
  predicate IsSpecial(c: char)
  {
    || c == '\\' || c == '/' || c == ',' || c == ';' || c == '<' || c == '>' || c == '.'
    || c == '?' || c == '!' || c == '*' || c == '-' || c == '+' || c == '_' || c == '='
    || c == '@' || c == '#' || c == '%' || c == ':' || c == '(' || c == ')'
  }

  /** Deleted by the cleaning wherever it stands: special characters and whitespace. */
  predicate IsSpecialOrSpace(c: char)
  {
    IsSpecial(c) || IsSpace(c)
  }

  /** `remove_special_characters(texto)`: delete the special characters, delete "()" pairs,
      collapse whitespace runs, then trim both ends. */
  function RemoveSpecialCharacters(texto: string): (r: string)
    ensures forall i :: 0 <= i < |r| ==> !IsSpecial(r[i])
    ensures NoEdgeSpace(r) && NoSpaceRun(r)
  {
    var a := Without(texto, IsSpecial);
    WithoutExcludes(texto, IsSpecial);
    RemoveAllAbsent(a, "()");
    CleanedShape(a);
    Strip(CollapseSpaceRuns(RemoveAll(a, "()")))
  }

  lemma CleanedShape(a: string)
    requires forall i :: 0 <= i < |a| ==> !IsSpecial(a[i])
    ensures var r := Strip(CollapseSpaceRuns(a));
      (forall i :: 0 <= i < |r| ==> !IsSpecial(r[i])) && NoEdgeSpace(r) && NoSpaceRun(r)
  {
    var c := CollapseSpaceRuns(a);
    CollapseShape(a);
    CollapseAvoids(a, IsSpecial);
    StripClean(c);
  }

  /** The cleaning only deletes: the non-whitespace characters left are exactly the input's
      characters that are neither special nor whitespace, in their order. */
  lemma RemoveSpecialCharactersKeeps(texto: string)
    ensures Without(RemoveSpecialCharacters(texto), IsSpace) == Without(texto, IsSpecialOrSpace)
  {
    var a := Without(texto, IsSpecial);
    WithoutExcludes(texto, IsSpecial);
    RemoveAllAbsent(a, "()");
    StripKeepsNonSpace(CollapseSpaceRuns(a));
    CollapseKeepsNonSpace(a);
    WithoutTwice(texto, IsSpecial, IsSpace, IsSpecialOrSpace);
  }

  /** A cleaned string is left as it is by a second cleaning. */
  lemma RemoveSpecialCharactersIdempotent(texto: string)
    ensures RemoveSpecialCharacters(RemoveSpecialCharacters(texto)) == RemoveSpecialCharacters(texto)
  {
    var r := RemoveSpecialCharacters(texto);
    WithoutNone(r, IsSpecial);
    RemoveAllAbsent(r, "()");
    CollapseNoRun(r);
    assert SpaceRun(r) == 0;
    assert DropTrailingSpace(r) == r;
  }

  /** The cleaning depends only on what is left once the special characters are deleted. */
  lemma RemoveSpecialCharactersFirstStep(texto: string)
    ensures RemoveSpecialCharacters(texto) == RemoveSpecialCharacters(Without(texto, IsSpecial))
  {
    var a := Without(texto, IsSpecial);
    WithoutExcludes(texto, IsSpecial);
    WithoutNone(a, IsSpecial);
  }

  lemma DigitsArePlain(s: string)
    requires AllDigits(s)
    ensures Without(s, IsSpecial) == s
  {
    WithoutNone(s, IsSpecial);
  }

  /** A string of digits only is not changed by the cleaning. */
  lemma RemoveSpecialCharactersDigits(s: string)
    requires AllDigits(s)
    ensures RemoveSpecialCharacters(s) == s
  {
    assert forall i :: 0 <= i < |s| ==> !IsSpecial(s[i]) && !IsSpace(s[i]);
    WithoutNone(s, IsSpecial);
    RemoveAllAbsent(s, "()");
    CollapseNoRun(s);
    assert SpaceRun(s) == 0;
  }

  // --------------------------------------------------------- extract_comarca

  /** `extract_comarca(npu)`: `str(int(npu[-4:]))`; `int()` raises unless those characters
      are digits. */
  function ExtractComarca(npu: string): (comarca: string)
    requires IsNumeral(Tail(npu, 4))
    ensures comarca == StripZeros(Tail(npu, 4))
    ensures Canonical(comarca) && 1 <= |comarca| <= 4
  {
    DecimalOfValue(Tail(npu, 4));
    StripZerosShorter(Tail(npu, 4));
    Decimal(Value(Tail(npu, 4)))
  }

  lemma {:induction false} StripZerosShorter(s: string)
    requires IsNumeral(s)
    ensures |StripZeros(s)| <= |s|
    decreases |s|
  {
    if |s| > 1 && s[0] == '0' {
      StripZerosShorter(s[1..]);
    }
  }

  // -------------------------------------------------------------- the URLs

  /** The host and path prefix both URLs start with. */
  const ServiceBase := "https://consulta-processual-service.tjrs.jus.br/api/consulta-service/v1/"

  /** The query string both URLs end with. */
  function Query(npu: string, comarca: string): string
  {
    "?numeroProcesso=" + npu + "&codComarca=" + comarca
  }

  /** `build_url_processo(npu, comarca)`. */
  function BuildUrlProcesso(npu: string, comarca: string): string
  {
    ServiceBase + "consultaProcesso" + Query(npu, comarca)
  }

  /** `build_url_movimento(npu, comarca)`. */
  function BuildUrlMovimento(npu: string, comarca: string): string
  {
    ServiceBase + "consultaMovimentacao" + Query(npu, comarca)
  }

  /** The two URLs share the host, the path prefix and the whole query, and differ in the
      endpoint name only, so they are never equal; the query carries the number and the
      district code verbatim. */
  lemma UrlsDifferOnlyInEndpoint(npu: string, comarca: string)
    ensures var p, m := BuildUrlProcesso(npu, comarca), BuildUrlMovimento(npu, comarca);
      && p[..|ServiceBase|] == m[..|ServiceBase|] == ServiceBase
      && p[|p| - |Query(npu, comarca)|..] == m[|m| - |Query(npu, comarca)|..] == Query(npu, comarca)
      && p != m
  {
    var p, m := BuildUrlProcesso(npu, comarca), BuildUrlMovimento(npu, comarca);
    var q := Query(npu, comarca);
    assert p == ServiceBase + ("consultaProcesso" + q);
    assert m == ServiceBase + ("consultaMovimentacao" + q);
    assert |p| + 4 == |m|;
  }

  // ------------------------------------------------------------- valida_npu

  /** The characters `valida_npu` deletes before it reads digits. */
  predicate IsNpuPunctuation(c: char)
  {
    c == '.' || c == '-'
  }

  /** `npu[:7] + npu[9:]`: the number without its two check digits. */
  function NpuBody(d: string): string
  {
    Take(d, 7) + Drop(d, 9)
  }

  /** `npu[7:9]`: the two check digits. */
  function NpuCheckPair(d: string): string
  {
    Slice(d, 7, 9)
  }

  /** `98 - ((body * 100) % 97)`: the check digits of ISO/IEC 7064 MOD 97-10. */
  function CheckDigits(body: nat): (dv: nat)
    ensures 2 <= dv <= 98
    ensures (body * 100 + dv) % 97 == 1
  {
    var m := (body * 100) % 97;
    assert body * 100 == 97 * ((body * 100) / 97) + m;
    assert body * 100 + (98 - m) == 97 * ((body * 100) / 97 + 1) + 1;
    98 - m
  }

  /** The check digits are the unique pair in [2, 98] that makes the whole number
      congruent to 1 modulo 97; of the two pairs in [0, 99] that satisfy the congruence
      when there are two (01 and 98, or 00 and 97), the larger is chosen. */
  lemma CheckDigitsUnique(body: nat, dv: nat)
    ensures dv == CheckDigits(body) <==> Mod97Accepts(body, dv)
  {
    var c := CheckDigits(body);
    if 2 <= dv <= 98 && (body * 100 + dv) % 97 == 1 {
      SameResidue(body * 100, dv, c);
    }
  }

  lemma SameResidue(x: nat, a: nat, b: nat)
    requires 2 <= a <= 98 && 2 <= b <= 98
    requires (x + a) % 97 == 1 && (x + b) % 97 == 1
    ensures a == b
  {
    var qa := (x + a) / 97;
    var qb := (x + b) / 97;
    assert x + a == 97 * qa + 1;
    assert x + b == 97 * qb + 1;
    assert a - b == 97 * (qa - qb);
  }

  /** The acceptance rule of ISO/IEC 7064 MOD 97-10 as the code applies it: the number
      followed by its check digits is 1 modulo 97, and the check digits lie in [2, 98]. */
  predicate Mod97Accepts(body: nat, dv: nat)
  {
    2 <= dv <= 98 && (body * 100 + dv) % 97 == 1
  }

  /** `npu.replace('.', '').replace('-', '')`. */
  function NpuDigits(npu: string): string
  {
    Without(npu, IsNpuPunctuation)
  }

  /** `valida_npu(npu)`. None stands for the ValueError of `int(npu[7:9])`, which sits
      outside the `try` and escapes when the body parsed but the check pair did not. */
  function ValidaNpu(npu: string): (r: Option<bool>)
    ensures r.None? <==> IsNumeral(NpuBody(NpuDigits(npu))) && !IsNumeral(NpuCheckPair(NpuDigits(npu)))
    ensures !IsNumeral(NpuBody(NpuDigits(npu))) ==> r == Some(false)
    ensures r == Some(true) <==>
      && IsNumeral(NpuBody(NpuDigits(npu)))
      && IsNumeral(NpuCheckPair(NpuDigits(npu)))
      && Mod97Accepts(Value(NpuBody(NpuDigits(npu))), Value(NpuCheckPair(NpuDigits(npu))))
  {
    var body := NpuBody(NpuDigits(npu));
    var pair := NpuCheckPair(NpuDigits(npu));
    if !IsNumeral(body) then Some(false)
    else if !IsNumeral(pair) then None
    else
      CheckDigitsUnique(Value(body), Value(pair));
      Some(Value(pair) == CheckDigits(Value(body)))
  }

  /** Check pairs 00, 01 and 99 are never accepted, although 00 and 01 can satisfy the
      congruence of ISO/IEC 7064. */
  lemma ValidaNpuRejectsOutOfRange(npu: string)
    requires NpuCheckPair(NpuDigits(npu)) in {"00", "01", "99"}
    ensures ValidaNpu(npu) != Some(true)
  {
    var x := NpuCheckPair(NpuDigits(npu));
    assert x[..1][..0] == [];
    assert Value(x) == 10 * DigitValue(x[0]) + DigitValue(x[1]) by {
      assert Value(x[..1]) == DigitValue(x[0]);
    }
  }

  // ----------------------------------------------------------- lemmas, shape

  lemma {:induction false} JoinedShape(words: seq<string>)
    requires forall i :: 0 <= i < |words| ==> IsWord(words[i])
    ensures var j := JoinWords(words);
      NoEdgeSpace(j) && NoSpaceRun(j) && (forall i :: 0 <= i < |j| && IsSpace(j[i]) ==> j[i] == ' ')
    ensures words != [] ==> JoinWords(words) != [] && !IsSpace(JoinWords(words)[0])
    decreases |words|
  {
    if |words| > 1 {
      JoinedShape(words[1..]);
      var w, rest := words[0], JoinWords(words[1..]);
      var j := w + " " + rest;
      assert j == JoinWords(words);
      forall i | 0 < i < |j|
        ensures !(IsSpace(j[i - 1]) && IsSpace(j[i]))
      {
        if i > |w| + 1 {
          assert j[i - 1] == rest[i - 2 - |w|] && j[i] == rest[i - 1 - |w|];
        }
      }
    }
  }

  /** Splitting words joined by single spaces gives the words back. */
  lemma {:induction false} SplitJoin(words: seq<string>)
    requires forall i :: 0 <= i < |words| ==> IsWord(words[i])
    ensures Split(JoinWords(words)) == words
    decreases |words|
  {
    if words == [] {
      assert SpaceRun([]) == 0;
    } else if |words| == 1 {
      SplitFirstWord(words[0], []);
      assert words[0] + [] == words[0];
      assert Split([]) == [] by { assert SpaceRun([]) == 0; }
    } else {
      var w, rest := words[0], JoinWords(words[1..]);
      SplitFirstWord(w, " " + rest);
      assert JoinWords(words) == w + (" " + rest);
      SplitSpace(rest);
      SplitJoin(words[1..]);
      assert [w] + words[1..] == words;
    }
  }

  /** The first word of a string that starts with one. */
  lemma SplitFirstWord(w: string, after: string)
    requires IsWord(w)
    requires after == [] || IsSpace(after[0])
    ensures Split(w + after) == [w] + Split(after)
  {
    var j := w + after;
    assert SpaceRun(j) == 0 by { assert j[0] == w[0]; }
    assert DropLeadingSpace(j) == j;
    WordLengthOf(w, after);
    assert j[..|w|] == w;
    assert j[|w|..] == after;
  }

  lemma {:induction false} WordLengthOf(w: string, rest: string)
    requires forall i :: 0 <= i < |w| ==> !IsSpace(w[i])
    requires rest == [] || IsSpace(rest[0])
    ensures WordLength(w + rest) == |w|
    decreases |w|
  {
    if w != [] {
      assert (w + rest)[1..] == w[1..] + rest;
      WordLengthOf(w[1..], rest);
    } else {
      assert w + rest == rest;
    }
  }

  /** A space in front does not change the words. */
  lemma SplitSpace(rest: string)
    ensures Split(" " + rest) == Split(rest)
  {
    assert (" " + rest)[1..] == rest;
    assert DropLeadingSpace(" " + rest) == DropLeadingSpace(rest);
  }

  /** `replace`-style removal of a pattern whose first character does not occur. */
  lemma {:induction false} RemoveAllAbsent(s: string, pat: string)
    requires pat != []
    requires forall i :: 0 <= i < |s| ==> s[i] != pat[0]
    ensures RemoveAll(s, pat) == s
    decreases |s|
  {
    if s != [] {
      assert |pat| <= |s| ==> s[..|pat|][0] == s[0];
      RemoveAllAbsent(s[1..], pat);
      assert s == s[..1] + s[1..];
    }
  }

  /** After collapsing, no two whitespace characters are adjacent; and the result starts with
      whitespace exactly when the input does. Only the space is new. */
  lemma {:induction false} CollapseShape(s: string)
    ensures var r := CollapseSpaceRuns(s);
      NoSpaceRun(r)
      && (r != [] <==> s != [])
      && (r != [] ==> (IsSpace(r[0]) <==> IsSpace(s[0])))
    decreases |s|
  {
    if s != [] {
      var k := if IsSpace(s[0]) then SpaceRun(s) else 1;
      var head: string := if IsSpace(s[0]) && k >= 2 then " " else s[..1];
      var tail := CollapseSpaceRuns(s[k..]);
      CollapseShape(s[k..]);
      var r := head + tail;
      assert r == CollapseSpaceRuns(s);
      forall i | 0 < i < |r|
        ensures !(IsSpace(r[i - 1]) && IsSpace(r[i]))
      {
        if i == 1 && IsSpace(s[0]) {
          assert k < |s| ==> !IsSpace(s[k]);
        } else if i > 1 {
          assert r[i - 1] == tail[i - 2] && r[i] == tail[i - 1];
        }
      }
    }
  }

  /** Collapsing adds no character other than the space. */
  lemma {:induction false} CollapseAvoids(s: string, bad: char -> bool)
    requires !bad(' ')
    requires forall i :: 0 <= i < |s| ==> !bad(s[i])
    ensures forall i :: 0 <= i < |CollapseSpaceRuns(s)| ==> !bad(CollapseSpaceRuns(s)[i])
    decreases |s|
  {
    if s != [] {
      var k := if IsSpace(s[0]) then SpaceRun(s) else 1;
      var head: string := if IsSpace(s[0]) && k >= 2 then " " else s[..1];
      CollapseAvoids(s[k..], bad);
      assert CollapseSpaceRuns(s) == head + CollapseSpaceRuns(s[k..]);
    }
  }

  /** Collapsing changes nothing once no two whitespace characters are adjacent. */
  lemma {:induction false} CollapseNoRun(s: string)
    requires NoSpaceRun(s)
    ensures CollapseSpaceRuns(s) == s
    decreases |s|
  {
    if s != [] {
      if IsSpace(s[0]) {
        assert |s| > 1 ==> !IsSpace(s[1]);
        assert SpaceRun(s) == 1 by {
          assert s[1..] != [] ==> SpaceRun(s[1..]) == 0;
        }
      }
      CollapseNoRun(s[1..]);
      assert s == s[..1] + s[1..];
    }
  }

  /** Collapsing keeps the non-whitespace characters, in order. */
  lemma {:induction false} CollapseKeepsNonSpace(s: string)
    ensures Without(CollapseSpaceRuns(s), IsSpace) == Without(s, IsSpace)
    decreases |s|
  {
    if s != [] {
      var k := if IsSpace(s[0]) then SpaceRun(s) else 1;
      var head: string := if IsSpace(s[0]) && k >= 2 then " " else s[..1];
      CollapseKeepsNonSpace(s[k..]);
      WithoutAppend(head, CollapseSpaceRuns(s[k..]), IsSpace);
      assert s == s[..k] + s[k..];
      WithoutAppend(s[..k], s[k..], IsSpace);
      if IsSpace(s[0]) {
        AllSpacesVanish(s[..k]);
      }
    }
  }

  lemma {:induction false} AllSpacesVanish(s: string)
    requires forall i :: 0 <= i < |s| ==> IsSpace(s[i])
    ensures Without(s, IsSpace) == []
    decreases |s|
  {
    if s != [] {
      AllSpacesVanish(s[1..]);
    }
  }

  /** Trimming keeps the non-whitespace characters, in order. */
  lemma StripKeepsNonSpace(s: string)
    ensures Without(Strip(s), IsSpace) == Without(s, IsSpace)
  {
    LeadingKeepsNonSpace(s);
    TrailingKeepsNonSpace(DropLeadingSpace(s));
  }

  lemma {:induction false} LeadingKeepsNonSpace(s: string)
    ensures Without(DropLeadingSpace(s), IsSpace) == Without(s, IsSpace)
    decreases |s|
  {
    if s != [] && IsSpace(s[0]) {
      LeadingKeepsNonSpace(s[1..]);
      assert DropLeadingSpace(s) == DropLeadingSpace(s[1..]);
    }
  }

  lemma {:induction false} TrailingKeepsNonSpace(s: string)
    ensures Without(DropTrailingSpace(s), IsSpace) == Without(s, IsSpace)
    decreases |s|
  {
    if s != [] && IsSpace(s[|s| - 1]) {
      var p := s[..|s| - 1];
      TrailingKeepsNonSpace(p);
      assert s == p + [s[|s| - 1]];
      WithoutAppend(p, [s[|s| - 1]], IsSpace);
    }
  }

  /** Trimming a string that has no adjacent whitespace leaves none at the ends and creates
      no run; it only cuts characters away. */
  lemma StripClean(s: string)
    requires NoSpaceRun(s)
    ensures var r := Strip(s);
      NoEdgeSpace(r) && NoSpaceRun(r) && r == s[SpaceRun(s)..SpaceRun(s) + |r|]
  {
    var k := SpaceRun(s);
    var t := DropLeadingSpace(s);
    assert t == s[k..];
    var r := DropTrailingSpace(t);
    assert r == t[..|r|];
    assert r == s[k..k + |r|];
    if r != [] {
      assert r[0] == t[0];
    }
    forall i | 0 < i < |r|
      ensures !(IsSpace(r[i - 1]) && IsSpace(r[i]))
    {
      assert r[i - 1] == s[k + i - 1] && r[i] == s[k + i];
    }
  }
}
