/** `safe_float_convert` and `safe_int_convert`: turn a loosely formatted spreadsheet cell into a number,
    never failing; whatever cannot be parsed becomes zero. Python's `float()` is modelled by `ParseFloat`,
    a decimal parser over exact reals. */
module Coercion {
  import opened Wrappers
  import opened Text

  /** One cell as the table loader hands it over: missing (pandas NaN or Python None) or text.
      A numeric cell stands for its Python `str()` text. */
  datatype Cell = Missing | Str(text: string)

  /** `str(value)`: a missing cell prints as "nan". */
  function CellText(c: Cell): string {
    match c
    case Missing => "nan"
    case Str(s) => s
  }

  predicate IsDigit(c: char) {
    '0' <= c <= '9'
  }

  predicate AllDigits(s: string) {
    forall i :: 0 <= i < |s| ==> IsDigit(s[i])
  }

  /** The number a string of decimal digits spells. */
  function DigitsValue(s: string): nat
    requires AllDigits(s)
    decreases |s|
  {
    if s == [] then 0 else DigitsValue(s[..|s| - 1]) * 10 + (s[|s| - 1] as int - '0' as int)
  }

  function Pow10(n: nat): (r: nat)
    ensures r >= 1
  {
    if n == 0 then 1 else 10 * Pow10(n - 1)
  }

  /** 10 to the power `e`, for a signed exponent. */
  function Scale(e: int): real {
    if e >= 0 then Pow10(e) as real else 1.0 / Pow10(-e) as real
  }

  /** The first position in `s` holding `c` or `d`, or `|s|` when there is none. */
  function IndexOf(s: string, c: char, d: char): (i: nat)
    ensures i <= |s|
    ensures i < |s| ==> s[i] == c || s[i] == d
    ensures forall j :: 0 <= j < i ==> s[j] != c && s[j] != d
    decreases |s|
  {
    if s == [] then 0
    else if s[0] == c || s[0] == d then 0
    else 1 + IndexOf(s[1..], c, d)
  }

  /** An exponent: an optional sign and at least one digit. */
  function ParseExponent(s: string): Option<int> {
    var signed := |s| > 0 && (s[0] == '+' || s[0] == '-');
    var ds := if signed then s[1..] else s;
    if ds != [] && AllDigits(ds) then
      Some(if signed && s[0] == '-' then -(DigitsValue(ds) as int) else DigitsValue(ds))
    else None
  }

  /** An unsigned decimal: digits, an optional '.' and fraction digits (at least one digit in all),
      then an optional exponent introduced by 'e' or 'E'. */
  function ParseUnsigned(s: string): Option<real> {
    var e := IndexOf(s, 'e', 'E');
    var mantissa := s[..e];
    var exponent := if e < |s| then ParseExponent(s[e + 1..]) else Some(0);
    var dot := IndexOf(mantissa, '.', '.');
    var whole := mantissa[..dot];
    var fraction := if dot < |mantissa| then mantissa[dot + 1..] else "";
    if exponent.Some? && AllDigits(whole) && AllDigits(fraction) && |whole| + |fraction| > 0 then
      Some((DigitsValue(whole) as real + DigitsValue(fraction) as real / Pow10(|fraction|) as real)
           * Scale(exponent.value))
    else None
  }

  /** Python's `float(s)` on finite decimal text: surrounding whitespace is ignored, one optional sign.
      `None` stands for the `ValueError` that `float()` raises. */
  function ParseFloat(s: string): Option<real> {
    var t := Strip(s);
    if |t| > 0 && (t[0] == '+' || t[0] == '-') then
      match ParseUnsigned(t[1..])
      case Some(v) => Some(if t[0] == '-' then -v else v)
      case None => None
    else ParseUnsigned(t)
  }

  /** The characters that can appear in text `ParseFloat` accepts, once stripped. */
  predicate IsNumberChar(c: char) {
    IsDigit(c) || c == '+' || c == '-' || c == '.' || c == 'e' || c == 'E'
  }

  /** `float()` rejects any text holding a character outside digits, signs, '.', 'e' and 'E'
      (so a currency glyph, a parenthesis or a percent sign makes it fail). */
  lemma ParseFloatCharset(s: string)
    requires ParseFloat(s).Some?
    ensures forall i :: 0 <= i < |Strip(s)| ==> IsNumberChar(Strip(s)[i])
  {
    var t := Strip(s);
    var signed := |t| > 0 && (t[0] == '+' || t[0] == '-');
    var u := if signed then t[1..] else t;
    UnsignedCharset(u);
    forall i | 0 <= i < |t|
      ensures IsNumberChar(t[i])
    {
      if signed && i > 0 {
        assert t[i] == u[i - 1];
      }
    }
  }

  lemma UnsignedCharset(s: string)
    requires ParseUnsigned(s).Some?
    ensures forall i :: 0 <= i < |s| ==> IsNumberChar(s[i])
  {
    var e := IndexOf(s, 'e', 'E');
    var mantissa := s[..e];
    var dot := IndexOf(mantissa, '.', '.');
    forall i | 0 <= i < |s|
      ensures IsNumberChar(s[i])
    {
      if i > e {
        var x := s[e + 1..];
        assert s[i] == x[i - e - 1];
      } else if i < e && i > dot {
        assert s[i] == mantissa[dot + 1..][i - dot - 1];
      } else if i < dot {
        assert s[i] == mantissa[..dot][i];
      }
    }
  }

  lemma DigitNotSpace(c: char)
    requires IsDigit(c)
    ensures !IsSpace(c) && c != ','
  {
  }

  /** Text that neither starts nor ends with whitespace is left alone by `strip()`. */
  lemma StripUnchanged(s: string)
    requires s != [] && !IsSpace(s[0]) && !IsSpace(s[|s| - 1])
    ensures Strip(s) == s
  {
    assert LeadingSpaces(s) == 0;
    assert s[0..] == s;
    assert TrailingSpaces(s) == 0;
  }

  lemma UnsignedDigits(ds: string)
    requires ds != [] && AllDigits(ds)
    ensures ParseUnsigned(ds) == Some(DigitsValue(ds) as real)
  {
    var e := IndexOf(ds, 'e', 'E');
    assert ds[..e] == ds;
  }

  /** A plain digit string parses to the number it spells. */
  lemma ParseDigits(ds: string)
    requires ds != [] && AllDigits(ds)
    ensures ParseFloat(ds) == Some(DigitsValue(ds) as real)
  {
    assert IsDigit(ds[0]) && IsDigit(ds[|ds| - 1]);
    StripUnchanged(ds);
    UnsignedDigits(ds);
  }

  /** Python's `int(x)` on a float: truncation toward zero. */
  function Trunc(x: real): (n: int)
    ensures x >= 0.0 ==> n as real <= x < n as real + 1.0
    ensures x < 0.0 ==> n as real - 1.0 < x <= n as real
  {
    if x >= 0.0 then x.Floor else -((-x).Floor)
  }

  /** The text both converters pass on: stripped, then every comma and every space removed. */
  function Cleaned(s: string): string {
    RemoveAll(RemoveAll(Strip(s), ','), ' ')
  }

  /** `safe_float_convert`: missing or empty gives 0; otherwise clean, drop one trailing '%',
      parse, and give 0 when parsing fails. */
  function SafeFloatConvert(c: Cell): real {
    match c
    case Missing => 0.0
    case Str(s) =>
      if s == "" then 0.0
      else
        ParseFloat(DropPercent(Cleaned(s))).GetOr(0.0)
  }

  /** `str_value[:-1]` when the text ends in '%', else the text itself. */
  function DropPercent(t: string): (u: string)
    ensures EndsWith(t, '%') ==> t == u + "%"
    ensures !EndsWith(t, '%') ==> u == t
  {
    if EndsWith(t, '%') then t[..|t| - 1] else t
  }

  /** `safe_int_convert`: as `SafeFloatConvert` but keeping a trailing '%' (which then fails to parse),
      and truncating the parsed value toward zero. */
  function SafeIntConvert(c: Cell): int {
    match c
    case Missing => 0
    case Str(s) =>
      if s == "" then 0
      else
        match ParseFloat(Cleaned(s))
        case Some(v) => Trunc(v)
        case None => 0
  }

  /** Missing and empty cells give zero in both converters. */
  lemma EmptyIsZero(c: Cell)
    requires c == Missing || c == Str("")
    ensures SafeFloatConvert(c) == 0.0 && SafeIntConvert(c) == 0
  {
  }

  /** Whenever the cleaned text does not end in '%', the integer converter truncates what the float
      converter returns (including the 0 of a failed parse). */
  lemma IntTruncatesFloat(s: string)
    requires !EndsWith(Cleaned(s), '%')
    ensures SafeIntConvert(Str(s)) == Trunc(SafeFloatConvert(Str(s)))
  {
  }

  lemma {:induction false} RemoveAllAbsent(s: string, c: char)
    requires c !in s
    ensures RemoveAll(s, c) == s
    decreases |s|
  {
    if s != [] {
      assert s[0] != c;
      assert c !in s[1..] by { assert forall x :: x in s[1..] ==> x in s; }
      RemoveAllAbsent(s[1..], c);
      assert [s[0]] + s[1..] == s;
    }
  }

  lemma SpacesOnly(h: string)
    requires forall i :: 0 <= i < |h| ==> h[i] == ' '
    ensures RemoveAll(h, ',') == h && RemoveAll(h, ' ') == []
  {
    RemoveAllAbsent(h, ',');
    RemoveAllMembers(h, ' ');
  }

  /** When the only whitespace in `s` is the plain space, stripping changes nothing once spaces are removed. */
  lemma CleanedIgnoresStrip(s: string)
    requires forall i :: 0 <= i < |s| && IsSpace(s[i]) ==> s[i] == ' '
    ensures Cleaned(s) == RemoveAll(RemoveAll(s, ','), ' ')
  {
    var head, r, tail := StripSplit(s);
    forall i | 0 <= i < |head| ensures head[i] == ' ' {
      assert head[i] == s[i];
    }
    forall i | 0 <= i < |tail| ensures tail[i] == ' ' {
      var j := |head| + |r| + i;
      assert tail[i] == s[j];
    }
    SpacesOnly(head);
    SpacesOnly(tail);
    RemoveAllConcat(head + r, tail, ',');
    RemoveAllConcat(head, r, ',');
    var r1 := RemoveAll(r, ',');
    assert RemoveAll(s, ',') == head + r1 + tail;
    RemoveAllConcat(head + r1, tail, ' ');
    RemoveAllConcat(head, r1, ' ');
  }

  /** `float()` fails on text holding a character it never accepts. */
  lemma ParseFloatRejects(s: string, i: nat)
    requires i < |Strip(s)| && !IsNumberChar(Strip(s)[i])
    ensures ParseFloat(s) == None
  {
    if ParseFloat(s).Some? {
      ParseFloatCharset(s);
    }
  }

  /** What the float converter does with non-empty text, in terms of its cleaned form. */
  lemma SafeFloatOfText(s: string, t: string)
    requires s != "" && Cleaned(s) == t
    ensures SafeFloatConvert(Str(s)) == ParseFloat(DropPercent(t)).GetOr(0.0)
  {
  }

  /** What the integer converter does with non-empty text, in terms of its cleaned form. */
  lemma SafeIntOfText(s: string, t: string)
    requires s != "" && Cleaned(s) == t
    ensures SafeIntConvert(Str(s)) == match ParseFloat(t) case Some(v) => Trunc(v) case None => 0
  {
  }

  /** Both converters read a non-empty text only through its cleaned form: texts that clean alike convert alike. */
  lemma SameCleanedSameValue(s1: string, s2: string)
    requires s1 != "" && s2 != "" && Cleaned(s1) == Cleaned(s2)
    ensures SafeFloatConvert(Str(s1)) == SafeFloatConvert(Str(s2))
    ensures SafeIntConvert(Str(s1)) == SafeIntConvert(Str(s2))
  {
  }

  /** Text `float()` rejects once cleaned gives zero instead of an error: 0.0 from the float converter
      (after the '%' is dropped), 0 from the integer converter. */
  lemma RejectedIsZero(s: string)
    ensures ParseFloat(DropPercent(Cleaned(s))).None? ==> SafeFloatConvert(Str(s)) == 0.0
    ensures ParseFloat(Cleaned(s)).None? ==> SafeIntConvert(Str(s)) == 0
  {
  }

  lemma {:induction false} LeadingSpacesPad(pad: string, s: string)
    requires forall i :: 0 <= i < |pad| ==> IsSpace(pad[i])
    ensures LeadingSpaces(pad + s) == |pad| + LeadingSpaces(s)
    decreases |pad|
  {
    if pad == [] {
      assert pad + s == s;
    } else {
      assert (pad + s)[1..] == pad[1..] + s;
      LeadingSpacesPad(pad[1..], s);
    }
  }

  lemma StripPad(pad: string, s: string)
    requires forall i :: 0 <= i < |pad| ==> IsSpace(pad[i])
    ensures Strip(pad + s) == Strip(s)
  {
    LeadingSpacesPad(pad, s);
    assert (pad + s)[|pad| + LeadingSpaces(s)..] == s[LeadingSpaces(s)..];
  }

  /** Leading whitespace never changes what a cell converts to, since `strip()` removes it first. */
  lemma LeadingWhitespaceIgnored(pad: string, s: string)
    requires forall i :: 0 <= i < |pad| ==> IsSpace(pad[i])
    ensures Cleaned(pad + s) == Cleaned(s)
    ensures SafeFloatConvert(Str(pad + s)) == SafeFloatConvert(Str(s))
    ensures SafeIntConvert(Str(pad + s)) == SafeIntConvert(Str(s))
  {
    StripPad(pad, s);
    if pad == "" {
      assert pad + s == s;
    } else if s == "" {
      assert Cleaned(pad + s) == [];
      assert ParseFloat([]) == None;
    } else {
      SameCleanedSameValue(pad + s, s);
    }
  }

  /** Text free of whitespace and commas is its own cleaned form. */
  lemma CleanedPlain(w: string)
    requires forall i :: 0 <= i < |w| ==> !IsSpace(w[i]) && w[i] != ','
    ensures Cleaned(w) == w
  {
    CleanedIgnoresStrip(w);
    RemoveAllAbsent(w, ',');
    assert ' ' !in w by { assert IsSpace(' '); }
    RemoveAllAbsent(w, ' ');
  }

  /** Digits, commas and spaces in any arrangement, with one digit at least */
  predicate IsGroupedNumber(s: string) {
    && (forall i :: 0 <= i < |s| ==> IsDigit(s[i]) || s[i] == ',' || s[i] == ' ')
    && (exists i :: 0 <= i < |s| && IsDigit(s[i]))
  }

  lemma {:induction false} GroupedDigits(s: string)
    requires IsGroupedNumber(s)
    ensures AllDigits(RemoveAll(RemoveAll(s, ','), ' ')) && RemoveAll(RemoveAll(s, ','), ' ') != []
  {
    var d := RemoveAll(RemoveAll(s, ','), ' ');
    RemoveAllMembers(s, ',');
    RemoveAllMembers(RemoveAll(s, ','), ' ');
    forall i | 0 <= i < |d|
      ensures IsDigit(d[i])
    {
      assert d[i] in d;
    }
    var i :| 0 <= i < |s| && IsDigit(s[i]);
    assert s[i] in s;
    assert s[i] in d;
  }

  /** The only whitespace in a grouped number followed by an optional '%' is the plain space. */
  lemma GroupedPlainSpaces(s: string, suffix: string)
    requires IsGroupedNumber(s) && (suffix == "" || suffix == "%")
    ensures forall i :: 0 <= i < |s + suffix| && IsSpace((s + suffix)[i]) ==> (s + suffix)[i] == ' '
  {
    var w := s + suffix;
    forall i | 0 <= i < |w| && IsSpace(w[i])
      ensures w[i] == ' '
    {
      if i < |s| {
        assert w[i] == s[i];
      }
    }
  }

  lemma RemoveBeforeSuffix(s: string, suffix: string)
    requires suffix == "" || suffix == "%"
    ensures RemoveAll(RemoveAll(s + suffix, ','), ' ') == RemoveAll(RemoveAll(s, ','), ' ') + suffix
  {
    RemoveAllConcat(s, suffix, ',');
    RemoveAllAbsent(suffix, ',');
    RemoveAllConcat(RemoveAll(s, ','), suffix, ' ');
    RemoveAllAbsent(suffix, ' ');
  }

  /** The cleaned form of a grouped number, with or without a '%' after it, is its digits (and the '%'). */
  lemma CleanedGrouped(s: string, suffix: string)
    requires IsGroupedNumber(s) && (suffix == "" || suffix == "%")
    ensures Cleaned(s + suffix) == RemoveAll(RemoveAll(s, ','), ' ') + suffix
  {
    GroupedPlainSpaces(s, suffix);
    CleanedIgnoresStrip(s + suffix);
    RemoveBeforeSuffix(s, suffix);
  }

  /** Thousands separators, spaces and one trailing '%' are ignored by the float converter:
      "1,234" and " 12 %" read as 1234 and 12. */
  lemma SafeFloatGrouped(s: string, percent: bool)
    requires IsGroupedNumber(s)
    ensures var d := RemoveAll(RemoveAll(s, ','), ' ');
            AllDigits(d) && SafeFloatConvert(Str(s + (if percent then "%" else ""))) == DigitsValue(d) as real
  {
    var suffix := if percent then "%" else "";
    var d := RemoveAll(RemoveAll(s, ','), ' ');
    GroupedDigits(s);
    CleanedGrouped(s, suffix);
    assert s + suffix != "";
    SafeFloatOfText(s + suffix, d + suffix);
    ParseDigits(d);
    if percent {
      assert (d + "%")[..|d|] == d;
    } else {
      assert d + suffix == d;
      assert !EndsWith(d, '%') by { assert IsDigit(d[|d| - 1]); }
    }
  }

  /** The integer converter reads the same text as the same whole number, but a trailing '%' makes it give 0. */
  lemma SafeIntGrouped(s: string)
    requires IsGroupedNumber(s)
    ensures var d := RemoveAll(RemoveAll(s, ','), ' ');
            AllDigits(d) && SafeIntConvert(Str(s)) == DigitsValue(d) && SafeIntConvert(Str(s + "%")) == 0
  {
    var d := RemoveAll(RemoveAll(s, ','), ' ');
    GroupedDigits(s);
    assert SafeIntConvert(Str(s)) == DigitsValue(d) by {
      CleanedGrouped(s, "");
      assert s + "" == s;
      ParseDigits(d);
      SafeIntOfText(s, d);
    }
    assert SafeIntConvert(Str(s + "%")) == 0 by {
      CleanedGrouped(s, "%");
      PercentRejected(d);
      SafeIntOfText(s + "%", d + "%");
    }
  }

  /** `float()` refuses a number followed by '%'. */
  lemma PercentRejected(d: string)
    requires d != [] && AllDigits(d)
    ensures ParseFloat(d + "%") == None
  {
    var w := d + "%";
    assert w[0] == d[0] && w[|w| - 1] == '%';
    DigitNotSpace(d[0]);
    StripUnchanged(w);
    ParseFloatRejects(w, |w| - 1);
  }

  /** Text that is its own cleaned form, does not end in '%', and that `float()` rejects reads as 0.0. */
  lemma PlainRejectedIsZero(w: string)
    requires w != "" && Cleaned(w) == w && !EndsWith(w, '%') && ParseFloat(w) == None
    ensures SafeFloatConvert(Str(w)) == 0.0
  {
    SafeFloatOfText(w, w);
  }

  /** A currency glyph is not removed: "$500" and "₹500" read as 0. */
  lemma CurrencyNotStripped(ds: string, glyph: char)
    requires ds != [] && AllDigits(ds)
    requires glyph == '$' || glyph == '₹'
    ensures SafeFloatConvert(Str([glyph] + ds)) == 0.0
  {
    var w := [glyph] + ds;
    assert IsDigit(w[|w| - 1]) && !IsNumberChar(w[0]);
    assert Cleaned(w) == w by {
      forall i | 0 <= i < |w| ensures !IsSpace(w[i]) && w[i] != ',' {
        if i > 0 { assert w[i] == ds[i - 1]; assert IsDigit(w[i]); }
      }
      CleanedPlain(w);
    }
    assert ParseFloat(w) == None by {
      StripUnchanged(w);
      ParseFloatRejects(w, 0);
    }
    PlainRejectedIsZero(w);
  }

  /** Accounting notation is not understood: "(500)" reads as 0, not -500. */
  lemma ParenthesesNotNegated(ds: string)
    requires ds != [] && AllDigits(ds)
    ensures SafeFloatConvert(Str("(" + ds + ")")) == 0.0
  {
    var w := "(" + ds + ")";
    assert !IsNumberChar(w[0]) && w[|w| - 1] == ')';
    assert Cleaned(w) == w by {
      forall i | 0 <= i < |w| ensures !IsSpace(w[i]) && w[i] != ',' {
        if 0 < i < |w| - 1 { assert w[i] == ds[i - 1]; assert IsDigit(w[i]); }
      }
      CleanedPlain(w);
    }
    assert ParseFloat(w) == None by {
      StripUnchanged(w);
      ParseFloatRejects(w, 0);
    }
    PlainRejectedIsZero(w);
  }
}
