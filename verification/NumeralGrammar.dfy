/** Which texts the array parser's stream takes as one numeral, spelled out. */
module NumeralGrammar {
  import opened Options
  import opened ArrayParser

  predicate AllDigits(s: string) {
    forall c :: c in s ==> '0' <= c <= '9'
  }

  /** A point and digits, either of which may end there. */
  predicate FractionForm(s: string) {
    s == "" || (s[0] == '.' && AllDigits(s[1..]))
  }

  /** An exponent letter, and a sign and digits, either of which may end there. */
  predicate ExponentForm(s: string) {
    s == "" || ((s[0] == 'e' || s[0] == 'E') && ExponentTail(s[1..]))
  }

  predicate ExponentTail(s: string) {
    s == "" || ((s[0] == '+' || s[0] == '-' || '0' <= s[0] <= '9') && AllDigits(s[1..]))
  }

  /** sign, digits, fraction and exponent; the exponent only after some digit. */
  predicate Form(sign: string, whole: string, fraction: string, exponent: string) {
    && (sign == "" || sign == "+" || sign == "-") && AllDigits(whole) && FractionForm(fraction) &&
       ExponentForm(exponent)
    && (exponent != "" ==> whole != "" || |fraction| > 1)
  }

  // ---------- what the stream reads ----------

  /** From progress p on the stream takes all of s. */
  predicate Reads(p: Progress, s: string) {
    NumeralLength(s, p) == |s|
  }

  lemma ReadsStep(p: Progress, s: string)
    requires s != ""
    ensures Reads(p, s) <==> Advance(p, s[0]).Some? && Reads(Advance(p, s[0]).value, s[1..])
  {
    hide Advance;
  }

  lemma ReadsNothing(p: Progress)
    ensures Reads(p, "")
  {
  }

  lemma FirstDigit(s: string)
    requires s != ""
    ensures AllDigits(s) <==> Digit(s[0]) && AllDigits(s[1..])
  {
    assert s == [s[0]] + s[1..];
    forall c ensures c in s <==> c == s[0] || c in s[1..] {
    }
    assert s[0] in s;
  }

  lemma {:induction false} ReadsExponent(s: string)
    ensures Reads(Exponent, s) <==> AllDigits(s)
    decreases |s|
  {
    hide Reads;
    if s == "" {
      ReadsNothing(Exponent);
    } else {
      ReadsStep(Exponent, s);
      ReadsExponent(s[1..]);
      FirstDigit(s);
    }
  }

  lemma ReadsAfterE(s: string)
    ensures Reads(AfterE, s) <==> ExponentTail(s)
  {
    hide Reads, AllDigits;
    ReadsNothing(AfterE);
    if s != "" {
      ReadsStep(AfterE, s);
      ReadsExponent(s[1..]);
    }
  }

  lemma ReadsExponentPart(digits: bool, point: bool, s: string)
    requires s == "" || (!Digit(s[0]) && (point || s[0] != '.'))
    ensures Reads(Mantissa(digits, point), s) <==> ExponentForm(s) && (s != "" ==> digits)
  {
    hide Reads, ExponentTail;
    ReadsNothing(Mantissa(digits, point));
    if s != "" {
      ReadsStep(Mantissa(digits, point), s);
      ReadsAfterE(s[1..]);
    }
  }

  /** Digits of the mantissa are taken whatever follows. */
  lemma {:induction false} ReadsDigits(digits: bool, point: bool, d: string, rest: string)
    requires AllDigits(d)
    ensures Reads(Mantissa(digits, point), d + rest) <==> Reads(Mantissa(digits || d != "", point), rest)
    decreases |d|
  {
    hide Reads;
    if d == "" {
      assert d + rest == rest;
    } else {
      assert d[0] in d && (d + rest)[1..] == d[1..] + rest;
      assert forall c :: c in d[1..] ==> c in d;
      ReadsStep(Mantissa(digits, point), d + rest);
      ReadsDigits(true, point, d[1..], rest);
    }
  }

  lemma {:induction false} SplitDigits(s: string) returns (d: string, rest: string)
    ensures s == d + rest && AllDigits(d) && (rest == "" || !Digit(rest[0]))
    decreases |s|
  {
    if s == "" || !Digit(s[0]) {
      d, rest := "", s;
    } else {
      var e, r := SplitDigits(s[1..]);
      d, rest := [s[0]] + e, r;
      assert s == [s[0]] + s[1..];
    }
  }

  /** After a point: digits and an exponent. */
  lemma ReadsFraction(digits: bool, d: string, exponent: string)
    requires AllDigits(d) && (exponent == "" || !Digit(exponent[0]))
    ensures Reads(Mantissa(digits, true), d + exponent) <==>
            ExponentForm(exponent) && (exponent != "" ==> digits || d != "")
  {
    hide Reads, ExponentForm, AllDigits;
    ReadsDigits(digits, true, d, exponent);
    ReadsExponentPart(digits || d != "", true, exponent);
  }

  lemma ExponentStarts(exponent: string)
    requires ExponentForm(exponent)
    ensures exponent == "" || (!Digit(exponent[0]) && exponent[0] != '.')
  {
  }

  /** A text without its sign. */
  lemma ReadsForm(whole: string, fraction: string, exponent: string)
    requires Form("", whole, fraction, exponent)
    ensures Reads(Mantissa(false, false), whole + (fraction + exponent))
  {
    hide Reads, ExponentForm, AllDigits;
    ExponentStarts(exponent);
    ReadsDigits(false, false, whole, fraction + exponent);
    if fraction == "" {
      assert fraction + exponent == exponent;
      ReadsExponentPart(whole != "", false, exponent);
    } else {
      var s := fraction + exponent;
      assert s[1..] == fraction[1..] + exponent;
      ReadsStep(Mantissa(whole != "", false), s);
      ReadsFraction(whole != "", fraction[1..], exponent);
    }
  }

  lemma SignedReads(sign: string, rest: string)
    requires sign == "+" || sign == "-"
    ensures Reads(Start, sign + rest) <==> Reads(Mantissa(false, false), rest)
  {
    hide Reads;
    ReadsStep(Start, sign + rest);
    assert (sign + rest)[1..] == rest;
  }

  lemma UnsignedReads(s: string)
    requires s == "" || (s[0] != '+' && s[0] != '-')
    ensures Reads(Start, s) <==> Reads(Mantissa(false, false), s)
  {
    hide Reads;
    ReadsNothing(Start);
    ReadsNothing(Mantissa(false, false));
    if s != "" {
      ReadsStep(Start, s);
      ReadsStep(Mantissa(false, false), s);
    }
  }

  lemma FormStarts(whole: string, fraction: string, exponent: string)
    requires Form("", whole, fraction, exponent)
    ensures var s := whole + (fraction + exponent); s == "" || (s[0] != '+' && s[0] != '-')
  {
    if whole != "" { assert whole[0] in whole; }
  }

  /** Every number so written, not empty, is taken whole. */
  lemma WrittenIsNumeral(sign: string, whole: string, fraction: string, exponent: string)
    requires Form(sign, whole, fraction, exponent) && sign + (whole + (fraction + exponent)) != ""
    ensures Numeral(sign + (whole + (fraction + exponent)))
  {
    hide Reads, FractionForm, ExponentForm, AllDigits, NumeralLength;
    var s := whole + (fraction + exponent);
    ReadsForm(whole, fraction, exponent);
    FormStarts(whole, fraction, exponent);
    if sign == "" {
      assert sign + s == s;
      UnsignedReads(s);
    } else {
      SignedReads(sign, s);
    }
    ReadsIsNumeral(sign + s);
  }

  lemma ReadsIsNumeral(text: string)
    ensures Numeral(text) <==> text != "" && Reads(Start, text)
  {
  }

  lemma UnsignedParts(s: string) returns (whole: string, fraction: string, exponent: string)
    requires Reads(Mantissa(false, false), s)
    ensures s == whole + (fraction + exponent) && Form("", whole, fraction, exponent)
  {
    hide Reads, ExponentForm;
    var d, rest := SplitDigits(s);
    whole := d;
    ReadsDigits(false, false, d, rest);
    if rest != "" && rest[0] == '.' {
      var e, tail := SplitDigits(rest[1..]);
      ReadsStep(Mantissa(d != "", false), rest);
      ReadsFraction(d != "", e, tail);
      fraction, exponent := "." + e, tail;
      assert fraction[1..] == e && rest == ['.'] + rest[1..];
    } else {
      ReadsExponentPart(d != "", false, rest);
      fraction, exponent := "", rest;
      assert fraction + exponent == exponent;
    }
  }

  /** And nothing else is: a numeral has such parts. */
  lemma NumeralIsWritten(text: string) returns (sign: string, whole: string, fraction: string, exponent: string)
    requires Numeral(text)
    ensures text == sign + (whole + (fraction + exponent)) && Form(sign, whole, fraction, exponent)
  {
    hide Reads, FractionForm, ExponentForm, AllDigits;
    ReadsIsNumeral(text);
    if text[0] == '+' || text[0] == '-' {
      sign := [text[0]];
      assert text == sign + text[1..];
      SignedReads(sign, text[1..]);
      whole, fraction, exponent := UnsignedParts(text[1..]);
    } else {
      sign := "";
      UnsignedReads(text);
      whole, fraction, exponent := UnsignedParts(text);
      assert sign + (whole + (fraction + exponent)) == whole + (fraction + exponent);
    }
  }

  /** From a longer text the longest such front is taken. */
  lemma {:induction false} LongestTaken(s: string, p: Progress, m: nat)
    requires m <= |s|
    ensures Reads(p, s[..m]) <==> m <= NumeralLength(s, p)
    decreases |s|
  {
    hide Advance;
    if m > 0 {
      assert s[..m][1..] == s[1..][..m - 1];
      if Advance(p, s[0]).Some? { LongestTaken(s[1..], Advance(p, s[0]).value, m - 1); }
    }
  }

  /** White space before a numeral is skipped: blanks, and line ends too. */
  lemma {:induction false} SpacesSkipped(blank: string, s: string)
    requires forall c :: c in blank ==> c == ' ' || '\t' <= c <= '\r'
    requires s == "" || !(s[0] == ' ' || '\t' <= s[0] <= '\r')
    ensures LeadingSpaces(blank + s) == |blank|
    decreases |blank|
  {
    if blank == "" {
      assert blank + s == s;
    } else {
      assert blank[0] in blank && (blank + s)[1..] == blank[1..] + s;
      assert forall c :: c in blank[1..] ==> c in blank;
      SpacesSkipped(blank[1..], s);
    }
  }

  /** Reading a number: the numeral after the white space, up to a delimiter, whatever it converts to. */
  lemma NumberRead(convert: Conversion, blank: string, text: string, s: string)
    requires Numeral(text) && forall c :: c in blank ==> c == ' ' || '\t' <= c <= '\r'
    requires s == "" || s[0] == ',' || s[0] == ' ' || s[0] == '\t' || s[0] == '[' || s[0] == ']'
    ensures Extract(convert, blank + (text + s)) == (convert(text), |blank| + |text|)
  {
    hide Numeral, LeadingSpaces, NumeralLength;
    NumeralBegins(text);
    assert (text + s)[0] == text[0];
    SpacesSkipped(blank, text + s);
    NumeralTaken(text, s);
    assert (blank + (text + s))[|blank|..] == text + s && (text + s)[..|text|] == text;
  }

  lemma NumeralBegins(text: string)
    requires Numeral(text)
    ensures text != "" && !(text[0] == ' ' || '\t' <= text[0] <= '\r')
  {
  }

  lemma NumeralTaken(text: string, s: string)
    requires Numeral(text) && Delimited(s)
    ensures NumeralLength(text + s, Start) == |text|
  {
    NumeralEnds(text, s, Start);
  }
}
