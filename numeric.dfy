/** `clean_numeric` (app.py:26-33): a locale-formatted amount such as
    "R$ 1.234,56" is rewritten to "1234.56" and parsed; text that does not
    parse becomes 0.0 and a cell that is not text is returned unchanged. */
module Numeric {
  import opened Cells
  import opened Text

  predicate IsDigit(c: char) { '0' <= c <= '9' }

  predicate AllDigits(s: string) { forall i :: 0 <= i < |s| ==> IsDigit(s[i]) }

  function DigitValue(c: char): nat
    requires IsDigit(c)
  {
    c as int - '0' as int
  }

  function Pow10(n: nat): (p: nat)
    ensures p >= 1
  {
    if n == 0 then 1 else 10 * Pow10(n - 1)
  }

  /** The number a string of decimal digits denotes. */
  function DigitsValue(s: string): nat
    requires AllDigits(s)
  {
    if s == [] then 0 else 10 * DigitsValue(s[..|s| - 1]) + DigitValue(s[|s| - 1])
  }

  lemma {:induction false} DigitsValueAppend(a: string, b: string)
    requires AllDigits(a) && AllDigits(b)
    ensures AllDigits(a + b)
    ensures DigitsValue(a + b) == DigitsValue(a) * Pow10(|b|) + DigitsValue(b)
  {
    if b == [] {
      assert a + b == a;
    } else {
      var b' := b[..|b| - 1];
      assert (a + b)[..|a + b| - 1] == a + b';
      assert (a + b)[|a + b| - 1] == b[|b| - 1];
      DigitsValueAppend(a, b');
      var x, p, y, d := DigitsValue(a), Pow10(|b'|), DigitsValue(b'), DigitValue(b[|b| - 1]);
      assert DigitsValue(a + b) == 10 * (x * p + y) + d;
      assert Pow10(|b|) == 10 * p;
      MulShift(x, p);
    }
  }

  lemma MulShift(x: int, p: int)
    ensures 10 * (x * p) == x * (10 * p)
  {
  }

  /** Position of the first '.' of `s`, or |s| when there is none. */
  function DotIndex(s: string): (k: nat)
    ensures k <= |s| && (k < |s| ==> s[k] == '.')
    ensures forall j :: 0 <= j < k ==> s[j] != '.'
  {
    if s == [] || s[0] == '.' then 0 else 1 + DotIndex(s[1..])
  }

  /** The number written `whole.frac` in decimal notation. */
  function DecimalValue(whole: string, frac: string): real
    requires AllDigits(whole) && AllDigits(frac)
  {
    DigitsValue(whole) as real + DigitsValue(frac) as real / Pow10(|frac|) as real
  }

  /** Python's `float()` on unsigned plain decimal notation: digits, an
      optional point and more digits, with at least one digit in all. */
  function ParseUnsigned(s: string): (r: Option<real>)
    ensures r.Some? ==> r.value >= 0.0
  {
    var k := DotIndex(s);
    var whole := s[..k];
    var frac := if k < |s| then s[k + 1..] else [];
    if AllDigits(whole) && AllDigits(frac) && |whole| + |frac| > 0 then
      Some(DecimalValue(whole, frac))
    else
      None
  }

  /** Python's `float()` on plain decimal notation with an optional sign;
      `None` stands for the ValueError it raises on anything else. */
  function ParseFloat(s: string): (r: Option<real>)
    ensures r.Some? && r.value < 0.0 ==> s != [] && s[0] == '-'
  {
    if s != [] && (s[0] == '+' || s[0] == '-') then
      match ParseUnsigned(s[1..])
      case None => None
      case Some(v) => Some(if s[0] == '-' then -v else v)
    else
      ParseUnsigned(s)
  }

  /** What the two separator replacements make of one character: a point
      (the thousands separator) disappears, a comma (the decimal separator)
      becomes a point, and any other character stays. */
  function Separator(c: char): string {
    if c == '.' then "" else if c == ',' then "." else [c]
  }

  /** The separators rewritten character by character. */
  function SwapSeparators(s: string): string {
    if s == [] then [] else Separator(s[0]) + SwapSeparators(s[1..])
  }

  /** The text that `clean_numeric` hands to `float()`: with "R$" deleted,
      every point dropped and every comma turned into a point, character by
      character, and the whitespace at both ends stripped. */
  function Rewrite(s: string): (r: string)
    ensures r == Strip(SwapSeparators(Replace(s, "R$", "")))
  {
    SeparatorsByChar(Replace(s, "R$", ""));
    Strip(Replace(Replace(Replace(s, "R$", ""), ".", ""), ",", "."))
  }

  /** Deleting the points and then turning the commas into points is the
      character-by-character rewrite. */
  lemma {:induction false} SeparatorsByChar(t: string)
    ensures Replace(Replace(t, ".", ""), ",", ".") == SwapSeparators(t)
  {
    if t != [] {
      SeparatorsByChar(t[1..]);
      var d := Replace(t[1..], ".", "");
      var h := if t[0] == '.' then "" else [t[0]];
      assert "." <= t <==> t[0] == '.';
      assert Replace(t, ".", "") == h + d;
      ReplaceCharAppend(h, d, ',', ".");
      assert Replace(h, ",", ".") == Separator(t[0]) by {
        if h != [] {
          assert "," <= h <==> t[0] == ',';
          assert h[1..] == [];
        }
      }
    }
  }

  /** The value of a text cell: the parsed rewrite, or 0.0 when it does not
      parse; a rewrite made of digits only is read as the number they denote. */
  function TextValue(s: string): (v: real)
    ensures ParseFloat(Rewrite(s)) == None ==> v == 0.0
    ensures AllDigits(Rewrite(s)) && Rewrite(s) != [] ==> v == DigitsValue(Rewrite(s)) as real
  {
    var t := Rewrite(s);
    assert AllDigits(t) && t != [] ==> ParseFloat(t) == Some(DigitsValue(t) as real) by {
      if AllDigits(t) && t != [] {
        ParseWholeNumeral(t);
      }
    }
    match ParseFloat(t)
    case Some(v) => v
    case None => 0.0
  }

  /** `clean_numeric`: never fails; text becomes a number, anything else is returned unchanged. */
  function CleanNumeric(c: Cell): (r: Cell)
    ensures c.Str? ==> r.Num?
    ensures !c.Str? ==> r == c
  {
    match c
    case Str(s) => Num(TextValue(s))
    case _ => c
  }

  // ---------------------------------------------------------------------
  // The parser accepts exactly plain decimal numerals.

  /** A numeral with a point parses to its whole part plus its fraction. */
  lemma ParsePointNumeral(a: string, b: string)
    requires AllDigits(a) && AllDigits(b) && |a| + |b| > 0
    ensures ParseFloat(a + "." + b) == Some(DecimalValue(a, b))
  {
    var s := a + "." + b;
    DotBeforeDigits(a, b);
    assert s[..|a|] == a;
    assert s[|a| + 1..] == b;
    var k := DotIndex(s);
    assert k == |a|;
    assert k < |s|;
    assert s[..k] == a;
    assert s[k + 1..] == b;
    assert ParseUnsigned(s) == Some(DecimalValue(a, b));
    assert s[0] == if a == [] then '.' else a[0];
  }

  /** A leading sign gives the unsigned value, negated for '-'. */
  lemma ParseSignedPoint(sign: char, a: string, b: string)
    requires sign == '+' || sign == '-'
    requires AllDigits(a) && AllDigits(b) && |a| + |b| > 0
    ensures ParseFloat([sign] + (a + "." + b)) == Some(if sign == '-' then -DecimalValue(a, b) else DecimalValue(a, b))
  {
    UnsignedPoint(a, b);
    SignedValue(sign, a + "." + b, DecimalValue(a, b));
  }

  lemma UnsignedPoint(a: string, b: string)
    requires AllDigits(a) && AllDigits(b) && |a| + |b| > 0
    ensures ParseUnsigned(a + "." + b) == Some(DecimalValue(a, b))
  {
    var t := a + "." + b;
    ParsePointNumeral(a, b);
    assert t[0] == if a == [] then '.' else a[0];
  }

  lemma SignedValue(sign: char, t: string, v: real)
    requires sign == '+' || sign == '-'
    requires ParseUnsigned(t) == Some(v)
    ensures ParseFloat([sign] + t) == Some(if sign == '-' then -v else v)
  {
    assert ([sign] + t)[1..] == t;
  }

  /** A leading sign before digits gives their number, negated for '-'. */
  lemma ParseSignedWhole(sign: char, a: string)
    requires sign == '+' || sign == '-'
    requires AllDigits(a) && a != []
    ensures ParseFloat([sign] + a) == Some(if sign == '-' then -(DigitsValue(a) as real) else DigitsValue(a) as real)
  {
    assert ParseUnsigned(a) == Some(DigitsValue(a) as real) by {
      ParseWholeNumeral(a);
    }
    SignedValue(sign, a, DigitsValue(a) as real);
  }

  /** Empty text, a lone point, a lone sign and a sign before a lone point hold no digit, so `float()` raises. */
  lemma ParseRejectsBare()
    ensures ParseFloat("") == None && ParseFloat(".") == None
    ensures ParseFloat("+") == None && ParseFloat("-") == None
    ensures ParseFloat("+.") == None && ParseFloat("-.") == None
  {
    assert "+"[1..] == [];
    assert "-"[1..] == [];
    assert "+."[1..] == ".";
    assert "-."[1..] == ".";
  }

  lemma DotBeforeDigits(a: string, b: string)
    requires AllDigits(a)
    ensures DotIndex(a + "." + b) == |a|
  {
    var s := a + "." + b;
    assert forall j :: 0 <= j < |a| ==> s[j] == a[j];
    assert s[|a|] == '.';
  }

  /** A numeral without a point parses to the number its digits denote. */
  lemma ParseWholeNumeral(a: string)
    requires AllDigits(a) && a != []
    ensures ParseFloat(a) == Some(DigitsValue(a) as real)
  {
    assert forall k :: 0 <= k < |a| ==> a[k] != '.';
    assert DotIndex(a) == |a|;
    assert a[..|a|] == a;
  }

  /** A character that is neither a digit nor a point, other than a leading
      sign, makes `float()` fail. */
  lemma ParseRejectsForeign(s: string, i: nat)
    requires i < |s| && !IsDigit(s[i]) && s[i] != '.'
    requires i == 0 ==> s[i] != '+' && s[i] != '-'
    ensures ParseFloat(s) == None
  {
    if s[0] == '+' || s[0] == '-' {
      UnsignedRejectsForeign(s[1..], i - 1);
    } else {
      UnsignedRejectsForeign(s, i);
    }
  }

  lemma UnsignedRejectsForeign(s: string, i: nat)
    requires i < |s| && !IsDigit(s[i]) && s[i] != '.'
    ensures ParseUnsigned(s) == None
  {
    var k := DotIndex(s);
    if i < k {
      assert s[..k][i] == s[i];
    } else {
      assert s[k + 1..][i - k - 1] == s[i];
    }
  }

  /** A second point makes `float()` fail. */
  lemma ParseRejectsTwoPoints(s: string, i: nat, j: nat)
    requires i < j < |s| && s[i] == '.' && s[j] == '.'
    ensures ParseFloat(s) == None
  {
    if s[0] == '+' || s[0] == '-' {
      UnsignedRejectsTwoPoints(s[1..], i - 1, j - 1);
    } else {
      UnsignedRejectsTwoPoints(s, i, j);
    }
  }

  lemma UnsignedRejectsTwoPoints(s: string, i: nat, j: nat)
    requires i < j < |s| && s[i] == '.' && s[j] == '.'
    ensures ParseUnsigned(s) == None
  {
    var k := DotIndex(s);
    assert k <= i;
    assert s[k + 1..][j - k - 1] == s[j];
  }

  // ---------------------------------------------------------------------
  // What the rewrite does to separators.

  /** After the rewrite no comma is left, and every point in it stands for a
      comma of the input: a point of the input is a thousands separator and
      is dropped, a comma is the decimal separator. */
  lemma RewriteSeparators(s: string)
    ensures ',' !in Rewrite(s)
    ensures Count(Rewrite(s), '.') == Count(s, ',')
    ensures forall c :: !IsSpace(c) && c !in ".,R$" ==> Count(Rewrite(s), c) == Count(s, c)
  {
    forall c | !IsSpace(c) && c !in ".,R$"
      ensures Count(Rewrite(s), c) == Count(s, c)
    {
      OthersKept(s, c);
    }
    var t2 := Replace(Replace(s, "R$", ""), ".", "");
    var t3 := Replace(t2, ",", ".");
    assert Rewrite(s) == Strip(t3);
    PointsDropped(s);
    CommasBecomePoints(t2);
    StripKeepsCount(t3, '.');
    StripKeepsCount(t3, ',');
    CountZero(t3, ',');
    CountZero(Strip(t3), ',');
  }

  lemma OthersKept(s: string, c: char)
    requires !IsSpace(c) && c !in ".,R$"
    ensures Count(Rewrite(s), c) == Count(s, c)
  {
    var t1 := Replace(s, "R$", "");
    var t2 := Replace(t1, ".", "");
    var t3 := Replace(t2, ",", ".");
    assert c != 'R' && c != '$' && c != '.' && c != ',';
    assert Count(t1, c) == Count(s, c) by {
      DeleteKeepsCount(s, "R$", c);
    }
    assert Count(t2, c) == Count(t1, c) by {
      ReplaceCharCount(t1, '.', "", c);
      assert Count("", c) == 0;
    }
    assert Count(t3, c) == Count(t2, c) by {
      ReplaceCharCount(t2, ',', ".", c);
      assert Count(".", c) == 0;
    }
    assert Count(Rewrite(s), c) == Count(t3, c) by {
      StripKeepsCount(t3, c);
    }
  }

  lemma PointsDropped(s: string)
    ensures var t2 := Replace(Replace(s, "R$", ""), ".", "");
      '.' !in t2 && Count(t2, ',') == Count(s, ',')
  {
    var t1 := Replace(s, "R$", "");
    DeleteKeepsCount(s, "R$", ',');
    ReplaceCharCount(t1, '.', "", ',');
    ReplaceCharGone(t1, '.', "");
    assert Count("", ',') == 0;
  }

  lemma CommasBecomePoints(t2: string)
    requires '.' !in t2
    ensures var t3 := Replace(t2, ",", ".");
      ',' !in t3 && Count(t3, '.') == Count(t2, ',')
  {
    CountZero(t2, '.');
    ReplaceCharCount(t2, ',', ".", '.');
    ReplaceCharGone(t2, ',', ".");
    assert Count(".", '.') == 1;
  }

  /** Text without a comma always yields a whole number: "12.5" is read as 125. */
  lemma NoCommaGivesWholeNumber(s: string)
    requires ',' !in s
    ensures TextValue(s) == TextValue(s).Floor as real
  {
    var t := Rewrite(s);
    RewriteSeparators(s);
    CountZero(s, ',');
    CountZero(t, '.');
    WholeParse(t);
    assert (0.0).Floor == 0;
  }

  lemma WholeParse(t: string)
    requires '.' !in t
    ensures ParseFloat(t).Some? ==> ParseFloat(t).value == ParseFloat(t).value.Floor as real
  {
    if t != [] && (t[0] == '+' || t[0] == '-') {
      assert t == [t[0]] + t[1..];
      UnsignedWhole(t[1..]);
      if ParseUnsigned(t[1..]).Some? {
        NegWhole(ParseUnsigned(t[1..]).value);
      }
    } else {
      UnsignedWhole(t);
    }
  }

  lemma NegWhole(v: real)
    requires v == v.Floor as real
    ensures -v == (-v).Floor as real
  {
    var k := v.Floor;
    assert -v == (-k) as real;
    assert ((-k) as real).Floor == -k;
  }

  lemma UnsignedWhole(t: string)
    requires '.' !in t
    ensures ParseUnsigned(t).Some? ==> ParseUnsigned(t).value == ParseUnsigned(t).value.Floor as real
  {
    var k := DotIndex(t);
    assert k == |t|;
    if ParseUnsigned(t).Some? {
      assert t[..k] == t;
      assert ParseUnsigned(t).value == DecimalValue(t, []);
      assert DigitsValue([]) == 0;
    }
  }

  /** Text in which no rewrite step applies is handed to `float()` as it is. */
  lemma RewriteUntouched(s: string)
    requires 'R' !in s && '.' !in s && ',' !in s
    requires s == [] || (!IsSpace(s[0]) && !IsSpace(s[|s| - 1]))
    ensures Rewrite(s) == s
  {
    ReplaceAbsent(s, "R$", "");
    ReplaceAbsent(s, ".", "");
    ReplaceAbsent(s, ",", ".");
  }

  /** A point between two runs of digits is a thousands separator: it is dropped. */
  lemma PointIsThousandsSeparator(a: string, b: string)
    requires AllDigits(a) && AllDigits(b) && a != []
    ensures AllDigits(a + b) && TextValue(a + "." + b) == DigitsValue(a + b) as real
  {
    PointDropped(a, b);
    ParseWholeNumeral(a + b);
  }

  lemma PointDropped(a: string, b: string)
    requires AllDigits(a) && AllDigits(b) && a != []
    ensures AllDigits(a + b) && Rewrite(a + "." + b) == a + b
  {
    var s, ab := a + "." + b, a + b;
    assert Replace(s, "R$", "") == s by {
      DigitsLack(a, 'R');
      DigitsLack(b, 'R');
      ReplaceAbsent(s, "R$", "");
    }
    assert Replace(s, ".", "") == ab by {
      GroupPointDropped(a, b);
      DigitsUntouched(a, ".", "");
    }
    assert AllDigits(ab) by {
      DigitsValueAppend(a, b);
    }
    assert Replace(ab, ",", ".") == ab by {
      DigitsUntouched(ab, ",", ".");
    }
    assert Strip(ab) == ab by {
      assert !IsSpace(ab[0]) && !IsSpace(ab[|ab| - 1]);
    }
  }

  /** A string of digits holds no other character. */
  lemma DigitsLack(d: string, c: char)
    requires AllDigits(d) && !IsDigit(c)
    ensures c !in d
  {
  }

  lemma ExampleDotIsThousands()
    ensures CleanNumeric(Str("12.5")) == Num(125.0)
  {
    assert "12.5" == "12" + "." + "5";
    PointIsThousandsSeparator("12", "5");
    assert DigitsValue("12" + "5") == 125 by {
      WholeExample();
    }
  }

  lemma WholeExample()
    ensures DigitsValue("125") == 125
  {
    assert DigitChar(1) == '1' && DigitChar(2) == '2' && DigitChar(5) == '5';
    assert Numeral(12) == "12";
    assert Numeral(125) == "12" + "5";
  }

  lemma ExampleNotANumber()
    ensures CleanNumeric(Str("abc")) == Num(0.0)
    ensures CleanNumeric(Str("25%")) == Num(0.0)
  {
    LettersRejected();
    PercentRejected();
  }

  lemma LettersRejected()
    ensures ParseFloat(Rewrite("abc")) == None
  {
    RewriteUntouched("abc");
    ParseRejectsForeign("abc", 0);
  }

  lemma PercentRejected()
    ensures ParseFloat(Rewrite("25%")) == None
  {
    RewriteUntouched("25%");
    ParseRejectsForeign("25%", 2);
  }

  // ---------------------------------------------------------------------
  // Round trip with the Brazilian currency format.

  function DigitChar(d: nat): (c: char)
    requires d < 10
    ensures IsDigit(c) && DigitValue(c) == d
  {
    ('0' as int + d) as char
  }

  /** The decimal numeral of `n`, without separators. */
  function Numeral(n: nat): (s: string)
    ensures s != [] && AllDigits(s) && DigitsValue(s) == n
  {
    if n < 10 then [DigitChar(n)]
    else
      var s := Numeral(n / 10) + [DigitChar(n % 10)];
      assert s[..|s| - 1] == Numeral(n / 10);
      s
  }

  function Pad2(n: nat): (s: string)
    requires n < 100
    ensures |s| == 2 && AllDigits(s) && DigitsValue(s) == n
  {
    var s := [DigitChar(n / 10), DigitChar(n % 10)];
    assert s[..1] == [DigitChar(n / 10)];
    assert s[..1][..0] == [];
    assert DigitsValue(s[..1]) == n / 10;
    s
  }

  function Pad3(n: nat): (s: string)
    requires n < 1000
    ensures |s| == 3 && AllDigits(s) && DigitsValue(s) == n
  {
    var s := [DigitChar(n / 100), DigitChar(n / 10 % 10), DigitChar(n % 10)];
    assert s[..2] == [DigitChar(n / 100), DigitChar(n / 10 % 10)];
    assert s[..2][..1] == [DigitChar(n / 100)];
    assert s[..2][..1][..0] == [];
    assert DigitsValue(s[..2][..1]) == n / 100;
    assert DigitsValue(s[..2]) == 10 * (n / 100) + n / 10 % 10;
    s
  }

  /** `n` with a '.' between groups of three digits, as in "1.234.567". */
  function Grouped(n: nat): string {
    if n < 1000 then Numeral(n) else Grouped(n / 1000) + "." + Pad3(n % 1000)
  }

  /** An amount as the report writes it: "R$ 1.234,56". */
  function FormatBRL(units: nat, cents: nat): string
    requires cents < 100
  {
    "R$ " + Grouped(units) + "," + Pad2(cents)
  }

  /** Digits are left alone by a replacement whose pattern starts with a non-digit. */
  lemma DigitsUntouched(d: string, pat: string, rep: string)
    requires AllDigits(d) && pat != [] && !IsDigit(pat[0])
    ensures Replace(d, pat, rep) == d
  {
    assert pat[0] !in d;
    ReplaceAbsent(d, pat, rep);
  }

  /** Dropping the thousands separators of `Grouped(n)` leaves the plain numeral of `n`. */
  lemma {:induction false} GroupedWithoutPoints(n: nat)
    ensures var d := Replace(Grouped(n), ".", "");
      d != [] && AllDigits(d) && DigitsValue(d) == n
  {
    if n < 1000 {
      DigitsUntouched(Numeral(n), ".", "");
    } else {
      var g, p := Grouped(n / 1000), Pad3(n % 1000);
      GroupedWithoutPoints(n / 1000);
      var d := Replace(g, ".", "");
      GroupPointDropped(g, p);
      DigitsValueAppend(d, p);
      ThousandsSplit(n, DigitsValue(d), DigitsValue(p));
    }
  }

  /** The separator in front of the last group of three is dropped. */
  lemma GroupPointDropped(g: string, p: string)
    requires AllDigits(p)
    ensures Replace(g + "." + p, ".", "") == Replace(g, ".", "") + p
  {
    var d := Replace(g, ".", "");
    assert Replace(g + "." + p, ".", "") == Replace(g + ".", ".", "") + p by {
      ReplaceCharAppend(g + ".", p, '.', "");
      DigitsUntouched(p, ".", "");
    }
    assert Replace(g + ".", ".", "") == d by {
      ReplaceCharAppend(g, ".", '.', "");
      assert Replace(".", ".", "") == "";
      assert d + "" == d;
    }
  }

  lemma ThousandsSplit(n: nat, high: nat, low: nat)
    requires high == n / 1000 && low == n % 1000
    ensures high * Pow10(3) + low == n
  {
    assert Pow10(3) == 1000;
  }

  /** The grouped numeral holds no currency marker. */
  lemma {:induction false} GroupedHasNoMarker(n: nat)
    ensures 'R' !in Grouped(n)
  {
    if n < 1000 {
      assert forall k :: 0 <= k < |Numeral(n)| ==> IsDigit(Numeral(n)[k]);
    } else {
      GroupedHasNoMarker(n / 1000);
      var g, p := Grouped(n / 1000), Pad3(n % 1000);
      assert forall k :: 0 <= k < |p| ==> IsDigit(p[k]);
      assert Grouped(n) == g + ("." + p);
    }
  }

  /** Cleaning an amount written in the report's currency format gives back the amount. */
  lemma {:induction false} FormatRoundTrip(units: nat, cents: nat)
    requires cents < 100
    ensures CleanNumeric(Str(FormatBRL(units, cents))) == Num(units as real + cents as real / 100.0)
  {
    var d, p := Replace(Grouped(units), ".", ""), Pad2(cents);
    GroupedWithoutPoints(units);
    FormatRewrite(units, cents);
    ParsePointNumeral(d, p);
    CentsValue(d, p);
    CleanParsed(FormatBRL(units, cents), d + "." + p, DecimalValue(d, p));
  }

  /** Text whose rewrite does not parse is cleaned to 0.0 (the `except` branch). */
  lemma CleanUnparsed(s: string)
    requires ParseFloat(Rewrite(s)) == None
    ensures CleanNumeric(Str(s)) == Num(0.0)
  {
  }

  /** Text whose rewrite parses is cleaned to the parsed value. */
  lemma CleanParsed(s: string, t: string, v: real)
    requires Rewrite(s) == t && ParseFloat(t) == Some(v)
    ensures CleanNumeric(Str(s)) == Num(v)
  {
  }

  /** Two decimals after the point count hundredths. */
  lemma CentsValue(d: string, p: string)
    requires AllDigits(d) && AllDigits(p) && |p| == 2
    ensures DecimalValue(d, p) == DigitsValue(d) as real + DigitsValue(p) as real / 100.0
  {
    assert Pow10(|p|) == 100;
  }

  /** The rewrite of "R$ 1.234,56" is "1234.56". */
  lemma FormatRewrite(units: nat, cents: nat)
    requires cents < 100
    ensures Rewrite(FormatBRL(units, cents)) == Replace(Grouped(units), ".", "") + "." + Pad2(cents)
  {
    var g, p := Grouped(units), Pad2(cents);
    var d := Replace(g, ".", "");
    var s := FormatBRL(units, cents);
    var body := " " + g + "," + p;
    GroupedWithoutPoints(units);
    assert Replace(s, "R$", "") == body by {
      GroupedHasNoMarker(units);
      assert body[1..] == g + ("," + p);
      assert forall k :: 0 <= k < |p| ==> IsDigit(p[k]);
      assert s == "R$" + body;
      MarkerDropped(body);
    }
    GroupPointsDropped(g, p);
    CommaBecomesPoint(d, p);
    StripMarkerBlank(d + "." + p);
  }

  lemma MarkerDropped(t: string)
    requires t != [] && t[0] != 'R' && 'R' !in t[1..]
    ensures Replace("R$" + t, "R$", "") == t
  {
    var s := "R$" + t;
    assert "R$" <= s;
    assert s[2..] == t;
    assert !("R$" <= t);
    assert t == [t[0]] + t[1..];
    ReplaceAbsent(t[1..], "R$", "");
  }

  lemma GroupPointsDropped(g: string, p: string)
    requires AllDigits(p)
    ensures Replace(" " + g + "," + p, ".", "") == " " + Replace(g, ".", "") + "," + p
  {
    var d := Replace(g, ".", "");
    assert Replace(" " + g + "," + p, ".", "") == Replace(" " + g + ",", ".", "") + p by {
      ReplaceCharAppend(" " + g + ",", p, '.', "");
      DigitsUntouched(p, ".", "");
    }
    assert Replace(" " + g + ",", ".", "") == Replace(" " + g, ".", "") + "," by {
      ReplaceCharAppend(" " + g, ",", '.', "");
      assert Replace(",", ".", "") == ",";
    }
    assert Replace(" " + g, ".", "") == " " + d by {
      ReplaceCharAppend(" ", g, '.', "");
      assert Replace(" ", ".", "") == " ";
    }
  }

  lemma CommaBecomesPoint(d: string, p: string)
    requires AllDigits(d) && AllDigits(p)
    ensures Replace(" " + d + "," + p, ",", ".") == " " + (d + "." + p)
  {
    assert Replace(" " + d + "," + p, ",", ".") == Replace(" " + d + ",", ",", ".") + p by {
      ReplaceCharAppend(" " + d + ",", p, ',', ".");
      DigitsUntouched(p, ",", ".");
    }
    assert Replace(" " + d + ",", ",", ".") == Replace(" " + d, ",", ".") + "." by {
      ReplaceCharAppend(" " + d, ",", ',', ".");
      assert Replace(",", ",", ".") == ".";
    }
    assert Replace(" " + d, ",", ".") == " " + d by {
      ReplaceCharAppend(" ", d, ',', ".");
      DigitsUntouched(d, ",", ".");
      assert Replace(" ", ",", ".") == " ";
    }
    assert " " + d + "." + p == " " + (d + "." + p);
  }

  lemma StripMarkerBlank(n: string)
    requires n != [] && IsDigit(n[0]) && IsDigit(n[|n| - 1])
    ensures Strip(" " + n) == n
  {
    var t := " " + n;
    assert t[1..] == n;
    assert StripLeft(t) == StripLeft(n);
    assert StripLeft(n) == n;
    assert StripRight(n) == n;
  }

  lemma ExampleCurrency()
    ensures CleanNumeric(Str("R$ 1.234,56")) == Num(1234.56)
  {
    assert FormatBRL(1234, 56) == "R$ 1.234,56";
    FormatRoundTrip(1234, 56);
  }
}
