/**
  `parsePrice` in scripts/site.js: a product's price text, normalised (euro
  signs and white space removed, the first comma turned into a point, every
  other character that is not a digit or a point removed), then read as a
  leading decimal number; anything unreadable is 0. Prices are exact
  reals here.
*/
module Price {
  import opened Wrappers
  import opened Text

  predicate IsEuro(c: char) {
    c == '€'
  }

  /** What `/[^0-9.]/g` matches. */
  predicate NotNumeric(c: char) {
    !IsDigit(c) && c != '.'
  }

  /** Euro signs and white space removed, the first comma made a decimal point. */
  function Normalised(value: string): string {
    ReplaceFirst(Erase(Erase(value, IsEuro), IsSpace), ',', '.')
  }

  /** The text `parseFloat` is given: only digits and points are left. */
  function Numeric(value: string): (r: string)
    ensures forall i :: 0 <= i < |r| ==> IsDigit(r[i]) || r[i] == '.'
  {
    Erase(Normalised(value), NotNumeric)
  }

  /** The digits after a leading point, if `rest` starts with one. */
  function Fraction(rest: string): (f: string)
    ensures AllDigits(f)
  {
    if rest != [] && rest[0] == '.' then LeadingDigits(rest[1..]) else []
  }

  /** The value of `whole.frac` written in decimal. */
  function DecimalValue(whole: string, frac: string): (r: real)
    requires AllDigits(whole) && AllDigits(frac)
    ensures r >= 0.0
  {
    DigitsValue(whole) as real + DigitsValue(frac) as real / Pow10(|frac|) as real
  }

  /**
    `parseFloat` on a string of digits and points: the leading decimal
    `digits[.digits]` (either part may be empty, not both); `None` for NaN.
  */
  function ParseDecimal(s: string): (r: Option<real>)
    ensures r.None? <==> LeadingDigits(s) == [] && Fraction(s) == []
    ensures r.Some? ==> r.value >= 0.0
  {
    var whole := LeadingDigits(s);
    var frac := Fraction(s[|whole|..]);
    if whole == [] && frac == [] then None
    else Some(DecimalValue(whole, frac))
  }

  /** `parsePrice`: 0 for a missing price and for one with no readable number. */
  function ParsePrice(value: string): (r: real)
    ensures r >= 0.0
    ensures value == "" ==> r == 0.0
    ensures ParseDecimal(Numeric(value)).None? ==> r == 0.0
  {
    if value == "" then 0.0
    else
      var n := ParseDecimal(Numeric(value));
      if n.None? then 0.0 else n.value
  }

  /** Whatever holds of every character holds of every character left after an erasure. */
  lemma {:induction false} EraseKeeps(s: string, drop: char -> bool, p: char -> bool)
    requires forall i :: 0 <= i < |s| ==> p(s[i])
    ensures forall i :: 0 <= i < |Erase(s, drop)| ==> p(Erase(s, drop)[i])
  {
    if s != [] {
      EraseKeeps(s[1..], drop, p);
    }
  }

  /** Turning a comma into a point adds no digit. */
  lemma {:induction false} ReplaceFirstNoDigit(s: string)
    requires forall i :: 0 <= i < |s| ==> !IsDigit(s[i])
    ensures forall i :: 0 <= i < |ReplaceFirst(s, ',', '.')| ==> !IsDigit(ReplaceFirst(s, ',', '.')[i])
  {
    if s != [] && s[0] != ',' {
      ReplaceFirstNoDigit(s[1..]);
    }
  }

  /** A price with no digit at all ("Sur devis") reads as 0. */
  lemma NoDigitsIsZero(value: string)
    requires forall i :: 0 <= i < |value| ==> !IsDigit(value[i])
    ensures ParsePrice(value) == 0.0
  {
    var noDigit := (c: char) => !IsDigit(c);
    EraseKeeps(value, IsEuro, noDigit);
    EraseKeeps(Erase(value, IsEuro), IsSpace, noDigit);
    ReplaceFirstNoDigit(Erase(Erase(value, IsEuro), IsSpace));
    EraseKeeps(Normalised(value), NotNumeric, noDigit);
    var s := Numeric(value);
    assert LeadingDigits(s) == [];
    if s != [] && s[0] == '.' {
      assert LeadingDigits(s[1..]) == [];
    }
  }

  /** `parseFloat` of `whole.frac` is its decimal value. */
  lemma ParseDecimalOf(whole: string, frac: string)
    requires AllDigits(whole) && AllDigits(frac) && whole != []
    ensures ParseDecimal(whole + "." + frac) == Some(DecimalValue(whole, frac))
  {
    var s := whole + "." + frac;
    LeadingDigitsOf(whole, "." + frac);
    assert s == whole + ("." + frac);
    assert s[|whole|..] == "." + frac;
    assert ("." + frac)[1..] == frac;
    LeadingDigitsOf(frac, []);
    assert frac + [] == frac;
  }

  /**
    `parseFloat` reads the leading decimal `whole.frac` (either part may be
    empty, not both) and ignores whatever follows it, as in "1.2.3" or ".5".
  */
  lemma ParseDecimalValue(whole: string, frac: string, rest: string)
    requires AllDigits(whole) && AllDigits(frac) && (whole != [] || frac != [])
    requires rest == [] || !IsDigit(rest[0])
    ensures ParseDecimal(whole + "." + frac + rest) == Some(DecimalValue(whole, frac))
  {
    var s := whole + "." + frac + rest;
    assert s == whole + ("." + frac + rest);
    LeadingDigitsOf(whole, "." + frac + rest);
    assert s[|whole|..] == "." + frac + rest;
    assert ("." + frac + rest)[1..] == frac + rest;
    LeadingDigitsOf(frac, rest);
  }

  /** A run of digits not followed by a point reads as its number, whatever follows. */
  lemma ParseWholeValue(whole: string, rest: string)
    requires AllDigits(whole) && whole != []
    requires rest == [] || (!IsDigit(rest[0]) && rest[0] != '.')
    ensures ParseDecimal(whole + rest) == Some(DigitsValue(whole) as real)
  {
    LeadingDigitsOf(whole, rest);
    assert (whole + rest)[|whole|..] == rest;
    assert Fraction(rest) == [];
    WholeDecimal(whole);
  }

  /** A decimal with no fraction digits is its whole part. */
  lemma WholeDecimal(whole: string)
    requires AllDigits(whole)
    ensures DecimalValue(whole, []) == DigitsValue(whole) as real
  {
    assert DigitsValue([]) == 0 && Pow10(0) == 1;
  }

  /** A price written with a decimal comma and a euro sign, such as "120,50 €", reads as that decimal. */
  lemma CommaPrice(whole: string, frac: string)
    requires AllDigits(whole) && AllDigits(frac) && whole != []
    ensures ParsePrice(whole + "," + frac + " €") == DecimalValue(whole, frac)
  {
    var value := whole + "," + frac + " €";
    var body := whole + "," + frac;
    assert Erase(value, IsEuro) == body + " " by {
      assert value == (body + " ") + "€";
      EraseConcat(body + " ", "€", IsEuro);
      assert Erase("€", IsEuro) == [];
      EraseNothing(body + " ", IsEuro);
    }
    assert Erase(body + " ", IsSpace) == body by {
      EraseConcat(body, " ", IsSpace);
      assert Erase(" ", IsSpace) == [];
      EraseNothing(body, IsSpace);
    }
    assert Normalised(value) == whole + "." + frac by {
      ReplaceFirstAfterDigits(whole, frac);
    }
    assert Numeric(value) == whole + "." + frac by {
      EraseNothing(whole + "." + frac, NotNumeric);
    }
    ParseDecimalOf(whole, frac);
  }

  /** The first comma after a run of digits is the one that becomes a point. */
  lemma {:induction false} ReplaceFirstAfterDigits(whole: string, frac: string)
    requires AllDigits(whole)
    ensures ReplaceFirst(whole + "," + frac, ',', '.') == whole + "." + frac
  {
    if whole != [] {
      ReplaceFirstAfterDigits(whole[1..], frac);
      assert (whole + "," + frac)[1..] == whole[1..] + "," + frac;
      assert [whole[0]] + (whole[1..] + "." + frac) == whole + "." + frac;
    } else {
      assert whole + "," + frac == [','] + frac;
    }
  }

  /** A price that is a plain run of digits reads as the number they spell. */
  lemma DigitsPrice(digits: string)
    requires AllDigits(digits) && digits != []
    ensures ParsePrice(digits) == DigitsValue(digits) as real
  {
    EraseNothing(digits, IsEuro);
    EraseNothing(digits, IsSpace);
    assert ',' !in digits;
    EraseNothing(digits, NotNumeric);
    LeadingDigitsOf(digits, []);
    assert digits + [] == digits;
    assert digits[|digits|..] == [];
  }

  /**
    A character the clean-up removes — a space, a euro sign or any other
    character that is neither a digit, a point nor a comma — changes nothing
    wherever it is inserted in a price.
  */
  lemma Ignored(a: string, c: char, b: string)
    requires NotNumeric(c) && c != ','
    ensures ParsePrice(a + [c] + b) == ParsePrice(a + b)
  {
    NumericIgnores(a, c, b);
    if a + b == [] {
      assert Numeric(a + [c] + b) == Numeric([]) == [];
    }
  }

  /** Such a character leaves the text `parseFloat` is given unchanged. */
  lemma NumericIgnores(a: string, c: char, b: string)
    requires NotNumeric(c) && c != ','
    ensures Numeric(a + [c] + b) == Numeric(a + b)
  {
    ErasedApart(a, c, b);
    var x, y := Erase(Erase(a, IsEuro), IsSpace), Erase(Erase(b, IsEuro), IsSpace);
    if IsEuro(c) || IsSpace(c) {
      assert x + [] + y == x + y;
    } else {
      KeptThenErased(x, c, y);
    }
  }

  /** A character kept by the first two erasures is removed by the last one. */
  lemma KeptThenErased(x: string, c: char, y: string)
    requires NotNumeric(c) && c != ','
    ensures Erase(ReplaceFirst(x + [c] + y, ',', '.'), NotNumeric) == Erase(ReplaceFirst(x + y, ',', '.'), NotNumeric)
  {
    ReplaceFirstInsert(x, c, y);
    var p := ReplaceFirst(x + y, ',', '.');
    var u, v := p[..|x|], p[|x|..];
    assert p == u + v;
    assert ReplaceFirst(x + [c] + y, ',', '.') == u + [c] + v;
    ErasedBetween(u, c, v);
  }

  /** Erasing a dropped character between two texts leaves the two erased texts side by side. */
  lemma ErasedBetween(u: string, c: char, v: string)
    requires NotNumeric(c)
    ensures Erase(u + [c] + v, NotNumeric) == Erase(u + v, NotNumeric)
  {
    EraseConcat(u + [c], v, NotNumeric);
    EraseConcat(u, [c], NotNumeric);
    EraseConcat(u, v, NotNumeric);
    assert [c][1..] == [];
  }

  /** The first two erasures act on each part of `a + [c] + b` separately. */
  lemma ErasedApart(a: string, c: char, b: string)
    ensures Erase(Erase(a + [c] + b, IsEuro), IsSpace)
         == Erase(Erase(a, IsEuro), IsSpace) + Erase(Erase([c], IsEuro), IsSpace) + Erase(Erase(b, IsEuro), IsSpace)
    ensures Erase(Erase(a + b, IsEuro), IsSpace) == Erase(Erase(a, IsEuro), IsSpace) + Erase(Erase(b, IsEuro), IsSpace)
    ensures Erase(Erase([c], IsEuro), IsSpace) == if IsEuro(c) || IsSpace(c) then [] else [c]
  {
    EraseConcat(a + [c], b, IsEuro);
    EraseConcat(a, [c], IsEuro);
    EraseConcat(a, b, IsEuro);
    var ea, eb := Erase(a, IsEuro), Erase(b, IsEuro);
    var ec := Erase([c], IsEuro);
    assert [c][1..] == [];
    assert ec == if IsEuro(c) then [] else [c];
    if ec != [] {
      assert ec[1..] == [];
    }
    EraseConcat(ea + ec, eb, IsSpace);
    EraseConcat(ea, ec, IsSpace);
    EraseConcat(ea, eb, IsSpace);
  }

  /** A character other than a comma inserted at position |x| stays there through the comma replacement. */
  lemma {:induction false} ReplaceFirstInsert(x: string, c: char, y: string)
    requires c != ','
    ensures ReplaceFirst(x + [c] + y, ',', '.')
         == ReplaceFirst(x + y, ',', '.')[..|x|] + [c] + ReplaceFirst(x + y, ',', '.')[|x|..]
  {
    var p := ReplaceFirst(x + y, ',', '.');
    if x == [] {
      assert x + [c] + y == [c] + y && x + y == y;
    } else if x[0] == ',' {
      assert (x + [c] + y)[1..] == x[1..] + [c] + y;
      assert (x + y)[1..] == x[1..] + y;
      assert p == ['.'] + x[1..] + y;
    } else {
      ReplaceFirstInsert(x[1..], c, y);
      assert (x + [c] + y)[1..] == x[1..] + [c] + y;
      assert (x + y)[1..] == x[1..] + y;
      var q := ReplaceFirst(x[1..] + y, ',', '.');
      assert p == [x[0]] + q;
      assert p[..|x|] == [x[0]] + q[..|x| - 1];
      assert p[|x|..] == q[|x| - 1..];
    }
  }

  /** A price given as "Sur devis" reads as 0. */
  lemma OnRequestSpecimen()
    ensures ParsePrice("Sur devis") == 0.0
  {
    NoDigitsIsZero("Sur devis");
  }
}
