/**
  `clean_num` (app.py:18-22): turns a spreadsheet cell into a number. A missing
  cell or a numeric zero gives 0.0, a number is passed through, and text is read
  in the Brazilian convention (`.` groups thousands, `,` marks the decimals):
  every `.` is deleted, every `,` becomes `.`, and the result goes to Python's
  `float()`, which raises on anything it cannot read.
 */
module Numbers {
  import opened Strings

  /** A cell of the player sheet as pandas hands it over. */
  datatype Cell =
    | Missing           // None or NaN: what `pd.isna` recognises
    | Num(x: real)      // an int or float cell
    | Text(s: string)   // a str cell

  /** The outcome of a conversion; `Err` carries the text `float()` could not read. */
  datatype Result<T> = Ok(value: T) | Err(rejected: string)

  datatype Option<T> = None | Some(value: T)

  predicate IsDigit(c: char) {
    '0' <= c <= '9'
  }

  predicate AllDigits(s: string) {
    forall i :: 0 <= i < |s| ==> IsDigit(s[i])
  }

  function DigitValue(c: char): (d: nat)
    requires IsDigit(c)
    ensures d < 10
  {
    c as int - '0' as int
  }

  /** The value of a string of decimal digits, most significant first. */
  function DigitsValue(s: string): nat
    requires AllDigits(s)
  {
    if s == [] then 0 else DigitsValue(s[..|s| - 1]) * 10 + DigitValue(s[|s| - 1])
  }

  /** The value of the digits after the decimal point: "25" is 0.25. */
  function FractionValue(s: string): (v: real)
    requires AllDigits(s)
    ensures 0.0 <= v < 1.0
  {
    if s == [] then 0.0 else (DigitValue(s[0]) as real + FractionValue(s[1..])) / 10.0
  }

  /** Position of the first occurrence of `c` in `s`. */
  function IndexOf(s: string, c: char): (i: nat)
    requires c in s
    ensures i < |s| && s[i] == c && c !in s[..i]
  {
    if s[0] == c then 0 else 1 + IndexOf(s[1..], c)
  }

  /**
    The decimal literals Python's `float()` accepts, without exponent, underscores,
    `inf` or `nan`: digits with at most one `.`, at least one digit in all.
   */
  function ParseUnsigned(t: string): (r: Option<real>)
    ensures r.Some? ==> r.value >= 0.0
    ensures r.Some? ==> exists i :: 0 <= i < |t| && IsDigit(t[i])
  {
    if '.' in t then
      var i := IndexOf(t, '.');
      var whole, frac := t[..i], t[i + 1..];
      if AllDigits(whole) && AllDigits(frac) && |whole| + |frac| > 0 then
        Some(DigitsValue(whole) as real + FractionValue(frac))
      else
        None
    else if AllDigits(t) && |t| > 0 then
      Some(DigitsValue(t) as real)
    else
      None
  }

  /**
    `float(text)` for the decimal notation a spreadsheet cell carries:
    surrounding whitespace, then an optional sign, then a decimal literal.
    Exponents, `inf` and `nan` are outside this grammar, so only text holding a
    digit is accepted.
   */
  function ParseFloat(text: string): (r: Option<real>)
  {
    var t := Strip(text, FloatSpaces);
    if |t| > 0 && (t[0] == '-' || t[0] == '+') then
      match ParseUnsigned(t[1..])
      case None => None
      case Some(v) => Some(if t[0] == '-' then -v else v)
    else
      ParseUnsigned(t)
  }

  /** What `clean_num` hands to `float()` for a text cell. */
  function Delocalize(s: string): string
  {
    Replace(Delete(s, '.'), ',', '.')
  }

  /**
    The delocalised text is never longer than the cell, holds no comma, keeps
    every other character but the point, and holds a point exactly when the
    cell held a comma.
   */
  lemma DelocalizeSpec(s: string)
    ensures |Delocalize(s)| <= |s|
    ensures ',' !in Delocalize(s)
    ensures forall x :: x != '.' && x != ',' ==> (x in Delocalize(s) <==> x in s)
    ensures '.' in Delocalize(s) <==> ',' in s
  {
    var d := Delete(s, '.');
    var r := Delocalize(s);
    assert forall i :: 0 <= i < |r| ==> r[i] == if d[i] == ',' then '.' else d[i];
    if ',' in d {
      var j :| 0 <= j < |d| && d[j] == ',';
      assert r[j] == '.';
    }
    if '.' in r {
      var j :| 0 <= j < |r| && r[j] == '.';
      assert d[j] in d;
    }
  }

  /** The modelled `float()`, which has no `inf` or `nan`, accepts only text that holds a digit. */
  lemma ParseFloatNeedsDigit(text: string)
    ensures ParseFloat(text).Some? ==> exists i :: 0 <= i < |text| && IsDigit(text[i])
  {
    var u := TrimStart(text, FloatSpaces);
    var t := Strip(text, FloatSpaces);
    TrimStartSpec(text, FloatSpaces);
    TrimEndSpec(u, FloatSpaces);
    var k := |text| - |u|;
    if |t| > 0 && (t[0] == '-' || t[0] == '+') {
      if ParseUnsigned(t[1..]).Some? {
        var j :| 0 <= j < |t[1..]| && IsDigit(t[1..][j]);
        assert text[k + 1 + j] == t[1 + j];
      }
    } else if ParseUnsigned(t).Some? {
      var j :| 0 <= j < |t| && IsDigit(t[j]);
      assert text[k + j] == t[j];
    }
  }

  /** `clean_num(val)`. */
  function CleanNum(cell: Cell): (r: Result<real>)
    ensures cell.Missing? ==> r == Ok(0.0)
    ensures cell.Num? ==> r == Ok(cell.x)
    ensures cell.Text? && r.Err? ==> r.rejected == Delocalize(cell.s)
  {
    match cell
    case Missing => Ok(0.0)
    case Num(x) => if x == 0.0 then Ok(0.0) else Ok(x)
    case Text(s) =>
      var t := Delocalize(s);
      match ParseFloat(t)
      case Some(v) => Ok(v)
      case None => Err(t)
  }

  /** A `.` anywhere in a text cell is a thousands separator and never changes the value. */
  lemma ThousandsSeparatorIgnored(s: string, i: nat)
    requires i <= |s|
    ensures CleanNum(Text(s[..i] + "." + s[i..])) == CleanNum(Text(s))
  {
    var dotted := s[..i] + "." + s[i..];
    assert Delete(dotted, '.') == Delete(s, '.') by {
      assert dotted == s[..i] + ("." + s[i..]);
      DeleteAppend(s[..i], "." + s[i..], '.');
      DeleteAppend(".", s[i..], '.');
      DeleteAppend(s[..i], s[i..], '.');
      assert s[..i] + s[i..] == s;
    }
    assert Delocalize(dotted) == Delocalize(s);
  }

  /** Even "1.5" reads as fifteen: the dot is never a decimal point. */
  lemma DotIsNeverDecimal()
    ensures CleanNum(Text("1.5")) == Ok(15.0)
  {
    ThousandsSeparatorIgnored("15", 1);
    assert "15"[..1] + "." + "15"[1..] == "1.5";
    DigitsCell("15");
    assert "15"[..1] == "1" && "1"[..0] == [];
    assert DigitsValue("15") == 15;
  }

  /** A text cell holding only digits is read as that whole number. */
  lemma DigitsCell(ds: string)
    requires ds != [] && AllDigits(ds)
    ensures CleanNum(Text(ds)) == Ok(DigitsValue(ds) as real)
  {
    NoSeparators(ds);
    DeleteAbsent(ds, '.');
    ReplaceAbsent(ds, ',', '.');
    ReadDigits(ds);
    CleanText(ds);
  }

  /** Two decimal commas make `float()` fail, so `clean_num` raises. */
  lemma TwoCommasRejected()
    ensures CleanNum(Text("1,2,3")).Err?
  {
    var t := "1.2.3";
    assert Delocalize("1,2,3") == t by {
      assert Delete("1,2,3", '.') == "1,2,3";
      assert Replace("1,2,3", ',', '.') == t;
    }
    assert ParseFloat(t) == None by {
      ReadUnsigned(t);
      assert IndexOf(t, '.') == 1;
      assert t[2..] == "2.3" && !IsDigit("2.3"[1]);
    }
  }

  /** An empty text cell is not a missing cell: `float('')` raises. */
  lemma EmptyTextRejected()
    ensures CleanNum(Text("")) == Err("")
  {
  }

  /** `float()` skips a tab in front of a number. */
  lemma TabPaddingSkipped()
    ensures CleanNum(Text("\t5")) == Ok(5.0)
  {
    var s := "\t5";
    assert Delocalize(s) == s by {
      assert '.' !in s && ',' !in s;
      DeleteAbsent(s, '.');
      ReplaceAbsent(s, ',', '.');
    }
    assert s[1..] == "5";
    assert TrimStart(s, FloatSpaces) == "5";
    StripUnchanged("5", FloatSpaces);
    DigitsLiteral("5");
    assert "5"[..0] == [];
    CleanText(s);
  }

  /**
    The information separator U+001C counts for `str.isspace()`, but `float()`
    does not skip it, so the cell "\x1c5" is rejected.
   */
  lemma SeparatorIsNotPadding()
    ensures CleanNum(Text("\U{1C}5")) == Err("\U{1C}5")
  {
    var s := "\U{1C}5";
    assert Delocalize(s) == s by {
      assert '.' !in s && ',' !in s;
      DeleteAbsent(s, '.');
      ReplaceAbsent(s, ',', '.');
    }
    assert ParseFloat(s).None? by {
      StripUnchanged(s, FloatSpaces);
      assert !AllDigits(s) && '.' !in s;
    }
    CleanText(s);
  }

  /** A cell that starts with the separator U+001C is rejected, whatever follows it. */
  lemma SeparatorPrefixRejected(s: string)
    ensures CleanNum(Text("\U{1C}" + s)).Err?
  {
    var c := "\U{1C}" + s;
    var d := Delocalize(c);
    assert d != [] && d[0] == '\U{1C}' by {
      DeleteAppend("\U{1C}", s, '.');
      assert Delete("\U{1C}", '.') == "\U{1C}";
    }
    assert ParseFloat(d).None? by {
      assert TrimStart(d, FloatSpaces) == d;
      var r := Strip(d, FloatSpaces);
      TrimEndSpec(d, FloatSpaces);
      assert r == d[..|r|];
      if r != [] {
        assert r[0] == '\U{1C}';
        LiteralStart(r);
      }
    }
    CleanText(c);
  }

  /** An unsigned literal starts with a digit or the point. */
  lemma LiteralStart(t: string)
    requires t != []
    ensures ParseUnsigned(t).Some? ==> IsDigit(t[0]) || t[0] == '.'
  {
    if '.' in t {
      var i := IndexOf(t, '.');
      if i > 0 {
        assert t[..i][0] == t[0];
      }
    }
  }

  // ---- Reading plain decimal literals ----

  /** Text that starts with a digit and does not end in whitespace has neither sign nor padding. */
  lemma ReadUnsigned(t: string)
    requires t != [] && IsDigit(t[0]) && !IsSpaceIn(FloatSpaces, t[|t| - 1])
    ensures ParseFloat(t) == ParseUnsigned(t)
  {
    StripUnchanged(t, FloatSpaces);
  }

  /** Digits are neither points nor commas. */
  lemma NoSeparators(ds: string)
    requires AllDigits(ds)
    ensures '.' !in ds && ',' !in ds
  {
    forall i | 0 <= i < |ds| ensures ds[i] != '.' && ds[i] != ',' { assert IsDigit(ds[i]); }
  }

  /** A non-empty digit string is an unsigned literal worth its decimal value. */
  lemma DigitsLiteral(ds: string)
    requires ds != [] && AllDigits(ds)
    ensures ParseUnsigned(ds) == Some(DigitsValue(ds) as real)
  {
    NoSeparators(ds);
  }

  /** `float()` reads a non-empty string of digits. */
  lemma ReadDigits(ds: string)
    requires ds != [] && AllDigits(ds)
    ensures ParseFloat(ds) == Some(DigitsValue(ds) as real)
  {
    assert IsDigit(ds[0]) && IsDigit(ds[|ds| - 1]);
    ReadUnsigned(ds);
    NoSeparators(ds);
  }

  /** `float()` reads whole digits, a point and fraction digits. */
  lemma ReadDecimal(whole: string, frac: string)
    requires whole != [] && AllDigits(whole) && AllDigits(frac)
    ensures ParseFloat(whole + "." + frac) == Some(DigitsValue(whole) as real + FractionValue(frac))
  {
    DecimalLiteral(whole, frac);
    DecimalIsUnsigned(whole, frac);
  }

  /** Whole digits, a point and fraction digits form an unsigned literal worth whole plus fraction. */
  lemma DecimalLiteral(whole: string, frac: string)
    requires whole != [] && AllDigits(whole) && AllDigits(frac)
    ensures ParseUnsigned(whole + "." + frac) == Some(DigitsValue(whole) as real + FractionValue(frac))
  {
    var t := whole + "." + frac;
    FirstPoint(whole, frac);
    assert t[..|whole|] == whole;
    assert t[|whole| + 1..] == frac;
    ReadPointAt(t, |whole|, whole, frac);
  }

  /** A decimal literal starting with a digit carries neither sign nor padding. */
  lemma DecimalIsUnsigned(whole: string, frac: string)
    requires whole != [] && AllDigits(whole) && AllDigits(frac)
    ensures ParseFloat(whole + "." + frac) == ParseUnsigned(whole + "." + frac)
  {
    var t := whole + "." + frac;
    assert t[0] == whole[0] && IsDigit(whole[0]);
    if frac != [] {
      assert t[|t| - 1] == frac[|frac| - 1] && IsDigit(frac[|frac| - 1]);
    }
    ReadUnsigned(t);
  }

  /** An unsigned literal whose first point sits at `k` is read as the digits around it. */
  lemma ReadPointAt(t: string, k: nat, whole: string, frac: string)
    requires '.' in t && IndexOf(t, '.') == k && t[..k] == whole && t[k + 1..] == frac
    requires whole != [] && AllDigits(whole) && AllDigits(frac)
    ensures ParseUnsigned(t) == Some(DigitsValue(whole) as real + FractionValue(frac))
  {
  }

  /** In whole digits, a point and more text, the first point follows the whole digits. */
  lemma FirstPoint(whole: string, frac: string)
    requires AllDigits(whole)
    ensures IndexOf(whole + "." + frac, '.') == |whole|
  {
    var t := whole + "." + frac;
    var k := IndexOf(t, '.');
    assert t[|whole|] == '.';
  }

  /** A text cell is worth whatever `float()` makes of its delocalised text. */
  lemma CleanText(s: string)
    ensures ParseFloat(Delocalize(s)).Some? ==> CleanNum(Text(s)) == Ok(ParseFloat(Delocalize(s)).value)
    ensures ParseFloat(Delocalize(s)).None? ==> CleanNum(Text(s)) == Err(Delocalize(s))
  {
  }

  // ---- The Brazilian rendering that `clean_num` reads back ----

  /** Puts a `.` between every group of three digits, counted from the right. */
  function GroupThousands(ds: string): string
  {
    if |ds| <= 3 then ds else GroupThousands(ds[..|ds| - 3]) + "." + ds[|ds| - 3..]
  }

  /** The grouping dots are the only thing `GroupThousands` adds. */
  lemma {:induction false} GroupThousandsDots(ds: string)
    requires AllDigits(ds)
    ensures Delete(GroupThousands(ds), '.') == ds
  {
    NoSeparators(ds);
    if |ds| <= 3 {
      DeleteAbsent(ds, '.');
    } else {
      var head, tail := ds[..|ds| - 3], ds[|ds| - 3..];
      GroupThousandsDots(head);
      NoSeparators(tail);
      DeleteAbsent(tail, '.');
      DeleteAppend(GroupThousands(head) + ".", tail, '.');
      DeleteAppend(GroupThousands(head), ".", '.');
      assert head + tail == ds;
    }
  }

  /** Whole digits with thousands dots and, when `frac` is non-empty, a decimal comma. */
  function FormatBrazilian(whole: string, frac: string): string
  {
    if frac == [] then GroupThousands(whole) else GroupThousands(whole) + "," + frac
  }

  /** Undoing the rendering gives back the digits, with the comma turned into a point. */
  lemma DelocalizeBrazilian(whole: string, frac: string)
    requires AllDigits(whole) && AllDigits(frac)
    ensures Delocalize(FormatBrazilian(whole, frac)) == if frac == [] then whole else whole + "." + frac
  {
    GroupThousandsDots(whole);
    NoSeparators(whole);
    if frac == [] {
      assert FormatBrazilian(whole, frac) == GroupThousands(whole);
      ReplaceAbsent(whole, ',', '.');
    } else {
      assert FormatBrazilian(whole, frac) == GroupThousands(whole) + ("," + frac);
      DeleteGroupedDigits(whole, frac);
      ReplaceDecimalComma(whole, frac);
    }
  }

  lemma DeleteGroupedDigits(ds: string, frac: string)
    requires AllDigits(ds) && AllDigits(frac)
    ensures Delete(GroupThousands(ds) + ("," + frac), '.') == ds + "," + frac
  {
    NoSeparators(frac);
    DeleteAbsent(frac, '.');
    GroupThousandsDots(ds);
    DeleteAppend(GroupThousands(ds), "," + frac, '.');
    DeleteAppend(",", frac, '.');
  }

  lemma ReplaceDecimalComma(ds: string, frac: string)
    requires AllDigits(ds) && AllDigits(frac)
    ensures Replace(ds + "," + frac, ',', '.') == ds + "." + frac
  {
    NoSeparators(ds);
    NoSeparators(frac);
    ReplaceAppend(ds + ",", frac, ',', '.');
    ReplaceAppend(ds, ",", ',', '.');
    ReplaceAbsent(ds, ',', '.');
    ReplaceAbsent(frac, ',', '.');
  }

  /** `clean_num` reads back every Brazilian rendering of a non-negative decimal. */
  lemma BrazilianRoundTrip(whole: string, frac: string)
    requires whole != [] && AllDigits(whole) && AllDigits(frac)
    ensures CleanNum(Text(FormatBrazilian(whole, frac))) == Ok(DigitsValue(whole) as real + FractionValue(frac))
  {
    var lit := if frac == [] then whole else whole + "." + frac;
    DelocalizeBrazilian(whole, frac);
    ReadLiteral(whole, frac, lit);
    ReadsBack(FormatBrazilian(whole, frac), lit, DigitsValue(whole) as real + FractionValue(frac));
  }

  /** `float()` reads the delocalised rendering as whole part plus fraction. */
  lemma ReadLiteral(whole: string, frac: string, lit: string)
    requires whole != [] && AllDigits(whole) && AllDigits(frac)
    requires lit == if frac == [] then whole else whole + "." + frac
    ensures ParseFloat(lit) == Some(DigitsValue(whole) as real + FractionValue(frac))
  {
    if frac == [] {
      ReadDigits(whole);
      assert FractionValue(frac) == 0.0;
    } else {
      ReadDecimal(whole, frac);
    }
  }

  /** A cell whose delocalised text `float()` reads as `v` is cleaned to `v`. */
  lemma ReadsBack(text: string, lit: string, v: real)
    requires Delocalize(text) == lit && ParseFloat(lit) == Some(v)
    ensures CleanNum(Text(text)) == Ok(v)
  {
    CleanText(text);
  }

  /** The worked example of a Brazilian thousands-and-decimals cell. */
  lemma ReadsBrazilianExample()
    ensures CleanNum(Text("1.234,5")) == Ok(1234.5)
  {
    FormatsExample();
    BrazilianRoundTrip("1234", "5");
    ExampleDigits();
  }

  /** The renderer writes 1234.5 as "1.234,5". */
  lemma FormatsExample()
    ensures FormatBrazilian("1234", "5") == "1.234,5"
  {
    assert "1234"[..1] == "1" && "1234"[1..] == "234";
    assert GroupThousands("1234") == "1.234";
  }

  /** The digits of the example add up to 1234.5. */
  lemma ExampleDigits()
    ensures DigitsValue("1234") as real + FractionValue("5") == 1234.5
  {
    assert "1234"[..3] == "123" && "123"[..2] == "12" && "12"[..1] == "1" && "1"[..0] == [];
    assert DigitsValue("1234") == 1234;
    assert "5"[1..] == [];
    assert FractionValue("5") == 0.5;
  }

  /** "1,0" is one. */
  lemma ReadsOneCommaZero()
    ensures CleanNum(Text("1,0")) == Ok(1.0)
  {
    assert FormatBrazilian("1", "0") == "1,0";
    BrazilianRoundTrip("1", "0");
    assert "1"[..0] == [] && "0"[1..] == [];
    assert DigitsValue("1") == 1;
    assert FractionValue("0") == 0.0;
  }

  // ---- Negative numbers ----

  /** A leading minus sign passes through the delocalisation untouched. */
  lemma DelocalizeMinus(x: string)
    ensures Delocalize("-" + x) == "-" + Delocalize(x)
  {
    DeleteAppend("-", x, '.');
    assert Delete("-", '.') == "-";
    ReplaceAppend("-", Delete(x, '.'), ',', '.');
  }

  /** `float()` negates what follows a leading minus sign, and rejects it when the rest is no literal. */
  lemma ReadNegative(t: string)
    requires t != [] && !IsSpaceIn(FloatSpaces, t[|t| - 1])
    ensures ParseUnsigned(t).None? ==> ParseFloat("-" + t).None?
    ensures ParseUnsigned(t).Some? ==> ParseFloat("-" + t) == Some(-ParseUnsigned(t).value)
  {
    var u := "-" + t;
    assert u[|u| - 1] == t[|t| - 1];
    StripUnchanged(u, FloatSpaces);
    assert u[1..] == t;
  }

  /** `float()` negates an unsigned literal that ends in a digit. */
  lemma NegateLiteral(t: string, v: real)
    requires t != [] && IsDigit(t[|t| - 1]) && ParseUnsigned(t) == Some(v)
    ensures ParseFloat("-" + t) == Some(-v)
  {
    ReadNegative(t);
  }

  /** The delocalised Brazilian rendering is an unsigned literal that ends in a digit. */
  lemma UnsignedBrazilian(whole: string, frac: string, lit: string)
    requires whole != [] && AllDigits(whole) && AllDigits(frac)
    requires lit == if frac == [] then whole else whole + "." + frac
    ensures lit != [] && IsDigit(lit[|lit| - 1])
    ensures ParseUnsigned(lit) == Some(DigitsValue(whole) as real + FractionValue(frac))
  {
    if frac == [] {
      NoSeparators(whole);
      assert FractionValue(frac) == 0.0;
    } else {
      assert lit[|lit| - 1] == frac[|frac| - 1];
      DecimalLiteral(whole, frac);
    }
  }

  /** `clean_num` reads a Brazilian rendering behind a minus sign as the negated value. */
  lemma NegativeRoundTrip(whole: string, frac: string)
    requires whole != [] && AllDigits(whole) && AllDigits(frac)
    ensures CleanNum(Text("-" + FormatBrazilian(whole, frac))).Ok?
    ensures CleanNum(Text("-" + FormatBrazilian(whole, frac))).value == -(DigitsValue(whole) as real + FractionValue(frac))
  {
    var lit := if frac == [] then whole else whole + "." + frac;
    DelocalizeBrazilian(whole, frac);
    UnsignedBrazilian(whole, frac, lit);
    NegativeOf(FormatBrazilian(whole, frac), lit, DigitsValue(whole) as real + FractionValue(frac));
  }

  /** A text that delocalises to an unsigned literal reads, behind a minus sign, as its negation. */
  lemma NegativeOf(text: string, lit: string, v: real)
    requires Delocalize(text) == lit && lit != [] && IsDigit(lit[|lit| - 1]) && ParseUnsigned(lit) == Some(v)
    ensures CleanNum(Text("-" + text)) == Ok(-v)
  {
    DelocalizeMinus(text);
    NegateLiteral(lit, v);
    CleanText("-" + text);
  }
}
