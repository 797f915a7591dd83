/**
 * Python string helpers shared by the model: the whitespace class, decimal digits and
 * numerals, `str(n)`, clamped slicing, character deletion and `str.replace(pat, "")`.
 */
module Text {

  import opened Wrappers

  /** The characters for which Python's `str.isspace()` holds; `\s` in a str pattern and
      `str.split()` / `str.strip()` without arguments use exactly this class. */
  predicate IsSpace(c: char)
  {
    var n := c as int;
    || 0x09 <= n <= 0x0D || 0x1C <= n <= 0x20 || n == 0x85 || n == 0xA0 || n == 0x1680
    || 0x2000 <= n <= 0x200A || n == 0x2028 || n == 0x2029 || n == 0x202F || n == 0x205F
    || n == 0x3000
  }

  predicate IsDigit(c: char) { '0' <= c <= '9' }

  predicate AllDigits(s: string) { forall i :: 0 <= i < |s| ==> IsDigit(s[i]) }

  /** The strings `int()` accepts in this model: one or more ASCII digits. */
  predicate IsNumeral(s: string) { |s| > 0 && AllDigits(s) }

  /** A numeral as `str(n)` prints it: no leading zero unless it is "0". */
  predicate Canonical(s: string) { IsNumeral(s) && (s[0] == '0' ==> |s| == 1) }

  function DigitValue(c: char): nat
    requires IsDigit(c)
  {
    c as int - '0' as int
  }

  function DigitChar(d: nat): (c: char)
    requires d < 10
    ensures IsDigit(c) && DigitValue(c) == d
  {
    ('0' as int + d) as char
  }

  /** The value of a digit string read in base 10 (the empty string reads as 0). */
  function Value(s: string): nat
    requires AllDigits(s)
  {
    if s == [] then 0 else 10 * Value(s[..|s| - 1]) + DigitValue(s[|s| - 1])
  }

  /** `str(n)` for a non-negative integer. */
  function Decimal(n: nat): (r: string)
    ensures Canonical(r)
    ensures Value(r) == n
  {
    if n < 10 then [DigitChar(n)]
    else
      var p := Decimal(n / 10);
      var r := p + [DigitChar(n % 10)];
      assert r[..|r| - 1] == p;
      r
  }

  /** `str(i)` for any integer. */
  function IntDecimal(i: int): (r: string)
    ensures i >= 0 ==> r == Decimal(i)
    ensures i < 0 ==> r == "-" + Decimal(-i)
  {
    if i < 0 then "-" + Decimal(-i) else Decimal(i)
  }

  /** `int(s)` restricted to an optional sign followed by ASCII digits. */
  function ParseInt(s: string): (r: Option<int>)
    ensures IsNumeral(s) ==> r == Some(Value(s))
    ensures r.Some? <==> IsNumeral(s) || (|s| > 1 && s[0] in {'-', '+'} && IsNumeral(s[1..]))
    ensures r.Some? && !IsNumeral(s) ==> r.value == (if s[0] == '-' then -(Value(s[1..]) as int) else Value(s[1..]))
  {
    if IsNumeral(s) then Some(Value(s))
    else if |s| > 1 && s[0] == '-' && IsNumeral(s[1..]) then Some(-(Value(s[1..]) as int))
    else if |s| > 1 && s[0] == '+' && IsNumeral(s[1..]) then Some(Value(s[1..]))
    else None
  }

  /** Leading zeros removed from a numeral, keeping at least one digit. */
  function StripZeros(s: string): (r: string)
    requires IsNumeral(s)
    ensures Canonical(r)
  {
    if |s| > 1 && s[0] == '0' then StripZeros(s[1..]) else s
  }

  /** `f"{n:02d}"`: the decimal of n, left-padded with one zero when it has one digit. */
  function ZeroPad2(n: nat): string
  {
    if n < 10 then "0" + Decimal(n) else Decimal(n)
  }

  // ---------------------------------------------------------------- slicing

  /** `s[:k]` for k >= 0. */
  function Take(s: string, k: nat): (r: string)
    ensures |r| == if k <= |s| then k else |s|
  {
    if k <= |s| then s[..k] else s
  }

  /** `s[k:]` for k >= 0. */
  function Drop(s: string, k: nat): (r: string)
    ensures |r| == if k <= |s| then |s| - k else 0
  {
    if k <= |s| then s[k..] else []
  }

  /** `s[i:j]` for i, j >= 0. */
  function Slice(s: string, i: nat, j: nat): string
  {
    Drop(Take(s, j), i)
  }

  /** `s[-k:]` for k > 0. */
  function Tail(s: string, k: nat): string
  {
    if k <= |s| then s[|s| - k..] else s
  }

  // ------------------------------------------------------- deleting characters

  /** s with every character satisfying `bad` deleted, the rest kept in order. */
  function Without(s: string, bad: char -> bool): (r: string)
    ensures |r| <= |s|
  {
    if s == [] then [] else (if bad(s[0]) then [] else [s[0]]) + Without(s[1..], bad)
  }

  /** None of the deleted characters is left. */
  lemma {:induction false} WithoutExcludes(s: string, bad: char -> bool)
    ensures forall i :: 0 <= i < |Without(s, bad)| ==> !bad(Without(s, bad)[i])
    decreases |s|
  {
    if s != [] {
      WithoutExcludes(s[1..], bad);
    }
  }

  /** `s.replace(pat, "")`: every non-overlapping occurrence of pat, scanning left to right,
      removed. */
  function RemoveAll(s: string, pat: string): (r: string)
    requires pat != []
    ensures |r| <= |s|
    decreases |s|
  {
    if s == [] then []
    else if |pat| <= |s| && s[..|pat|] == pat then RemoveAll(s[|pat|..], pat)
    else [s[0]] + RemoveAll(s[1..], pat)
  }

  // ------------------------------------------------------------------ lemmas

  lemma {:induction false} ValueLeadingZero(s: string)
    requires AllDigits(s) && |s| > 0 && s[0] == '0'
    ensures Value(s) == Value(s[1..])
    decreases |s|
  {
    if |s| > 1 {
      var p := s[..|s| - 1];
      assert p[1..] == s[1..][..|s[1..]| - 1];
      ValueLeadingZero(p);
    }
  }

  lemma {:induction false} ValuePositive(s: string)
    requires IsNumeral(s) && s[0] != '0'
    ensures Value(s) > 0
    decreases |s|
  {
    if |s| > 1 {
      ValuePositive(s[..|s| - 1]);
    }
  }

  /** `str(int(s))` gives back a numeral that has no superfluous leading zero. */
  lemma {:induction false} DecimalOfValue(s: string)
    requires IsNumeral(s)
    ensures Decimal(Value(s)) == StripZeros(s)
    decreases |s|
  {
    if |s| > 1 && s[0] == '0' {
      ValueLeadingZero(s);
      DecimalOfValue(s[1..]);
    } else if |s| > 1 {
      var p := s[..|s| - 1];
      ValuePositive(p);
      DecimalOfValue(p);
      assert StripZeros(p) == p;
      assert s == p + [s[|s| - 1]];
    }
  }

  /** Reading a concatenation: the left part is shifted by the length of the right part. */
  lemma {:induction false} ValueAppend(a: string, b: string)
    requires AllDigits(a) && AllDigits(b)
    ensures AllDigits(a + b)
    ensures Value(a + b) == Value(a) * Pow10(|b|) + Value(b)
    decreases |b|
  {
    if b != [] {
      var ab := a + b;
      var b' := b[..|b| - 1];
      assert ab[..|ab| - 1] == a + b';
      ValueAppend(a, b');
      var d := DigitValue(b[|b| - 1]);
      assert Value(ab) == 10 * Value(a + b') + d;
      assert Value(b) == 10 * Value(b') + d;
      Shift(Value(a), Pow10(|b'|), Value(b'), d);
    } else {
      assert a + b == a;
    }
  }

  lemma Shift(x: int, p: int, y: int, d: int)
    ensures 10 * (x * p + y) + d == x * (10 * p) + (10 * y + d)
  {
  }

  function Pow10(k: nat): (r: nat)
    ensures r > 0
  {
    if k == 0 then 1 else 10 * Pow10(k - 1)
  }

  /** A two-digit string is the zero-padded rendering of n exactly when it reads as n. */
  lemma ZeroPad2Exact(x: string, n: nat)
    requires |x| == 2 && AllDigits(x) && n < 100
    ensures x == ZeroPad2(n) <==> Value(x) == n
  {
    assert Value(x) == 10 * DigitValue(x[0]) + DigitValue(x[1]) by {
      assert x[..1][..0] == [];
      assert Value(x[..1]) == DigitValue(x[0]);
    }
    var z := ZeroPad2(n);
    assert |z| == 2 && z[0] == DigitChar(n / 10) && z[1] == DigitChar(n % 10) by {
      if n < 10 {
        assert Decimal(n) == [DigitChar(n)];
      } else {
        assert Decimal(n / 10) == [DigitChar(n / 10)];
      }
    }
    if Value(x) == n {
      assert x[0] == z[0] && x[1] == z[1];
    }
  }

  /** What `RemoveAll` keeps comes from its input. */
  lemma {:induction false} RemoveAllKeeps(s: string, pat: string)
    requires pat != []
    ensures forall c :: c in RemoveAll(s, pat) ==> c in s
    decreases |s|
  {
    if s == [] {
    } else if |pat| <= |s| && s[..|pat|] == pat {
      RemoveAllKeeps(s[|pat|..], pat);
    } else {
      RemoveAllKeeps(s[1..], pat);
    }
  }

  /** Deleting characters twice is deleting both sets once. */
  lemma {:induction false} WithoutTwice(s: string, a: char -> bool, b: char -> bool, ab: char -> bool)
    requires forall c :: ab(c) <==> a(c) || b(c)
    ensures Without(Without(s, a), b) == Without(s, ab)
    decreases |s|
  {
    if s != [] {
      WithoutTwice(s[1..], a, b, ab);
      WithoutAppend((if a(s[0]) then [] else [s[0]]), Without(s[1..], a), b);
    }
  }

  lemma {:induction false} WithoutAppend(x: string, y: string, bad: char -> bool)
    ensures Without(x + y, bad) == Without(x, bad) + Without(y, bad)
    decreases |x|
  {
    if x != [] {
      assert (x + y)[1..] == x[1..] + y;
      WithoutAppend(x[1..], y, bad);
    } else {
      assert x + y == y;
    }
  }

  /** Deleting characters that do not occur changes nothing. */
  lemma {:induction false} WithoutNone(s: string, bad: char -> bool)
    requires forall i :: 0 <= i < |s| ==> !bad(s[i])
    ensures Without(s, bad) == s
    decreases |s|
  {
    if s != [] {
      WithoutNone(s[1..], bad);
    }
  }
}
