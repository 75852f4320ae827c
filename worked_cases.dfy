/**
  Concrete lines through the ingredient parser: a plain name, a count with a unit word, a
  fraction, and the prefixes for which JavaScript arithmetic gives Infinity or NaN.
 */
module WorkedCases {
  import opened Wrappers
  import opened JsString
  import opened JsNumber
  import opened Types
  import opened IngredientParser

  lemma SplitWithoutSeparator(s: string, sep: char)
    requires sep !in s
    ensures Split(s, sep) == [s]
  {
  }

  lemma ParseDigit(d: char)
    requires IsDigit(d)
    ensures ParseInt([d]) == Finite((d as int - '0' as int) as real)
    ensures ParseFloat([d]) == Finite((d as int - '0' as int) as real)
  {
    assert TrimStart([d]) == [d];
    assert LeadingDigits([d]) == [d];
    assert LeadingDigits([d][1..]) == [];
    assert DigitsValue([d]) == d as int - '0' as int by {
      assert [d][..0] == [];
    }
  }

  /** A string with no white space at either end is its own trim. */
  lemma TrimUnspaced(s: string)
    requires s != [] && !IsJsSpace(s[0]) && !IsJsSpace(s[|s| - 1])
    ensures Trim(s) == s
  {
  }

  /** A separator-free word followed by the separator is split off as the first part. */
  lemma SplitCons(a: string, rest: string)
    requires ' ' !in a
    ensures Split(a + " " + rest, ' ') == [a] + Split(rest, ' ')
  {
    assert a + " " + rest == a + [' '] + rest;
    SplitAppend(a, rest, ' ');
    SplitWithoutSeparator(a, ' ');
  }

  lemma TwoWords(a: string, b: string)
    requires ' ' !in a && ' ' !in b
    ensures Split(a + " " + b, ' ') == [a, b]
  {
    SplitCons(a, b);
    SplitWithoutSeparator(b, ' ');
  }

  lemma ThreeWords(a: string, b: string, c: string)
    requires ' ' !in a && ' ' !in b && ' ' !in c
    ensures Split(a + " " + b + " " + c, ' ') == [a, b, c]
  {
    var bc := b + " " + c;
    assert a + " " + b + " " + c == a + " " + bc;
    SplitCons(a, bc);
    TwoWords(b, c);
  }

  /** "salt" is all name: {salt, 1, ""}. */
  lemma Salt()
    ensures ParseLine("salt") == Ingredient("salt", Finite(1.0), "")
  {
    TrimUnspaced("salt");
    NonNumericLineIsName("salt");
  }

  lemma TokensTwoEggs()
    ensures Tokens("2 eggs") == ["2", "eggs"]
  {
    TrimUnspaced("2 eggs");
    TwoWords("2", "eggs");
    assert "2" + " " + "eggs" == "2 eggs";
  }

  /** The parse of a line with a numeric first token and a unit word as second token. */
  lemma LineWithUnit(line: string, parts: seq<string>)
    requires Tokens(line) == parts && |parts| > 1
    requires QuantityMatch(parts[0]).Some? && !BeginsWithStrDecimalLiteral(parts[1])
    ensures ParseLine(line) == Ingredient(Join(parts[2..], " "), PrefixQuantity(QuantityMatch(parts[0]).value), parts[1])
  {
    SecondTokenIsUnit(line);
  }

  lemma TwoQuantity()
    ensures QuantityMatch("2") == Some("2")
    ensures PrefixQuantity("2") == Finite(2.0)
  {
    assert QuantityPrefix("2") == "2";
    ParseDigit('2');
  }

  lemma EggsIsAWord()
    ensures !BeginsWithStrDecimalLiteral("eggs")
  {
  }

  /** "2 eggs" takes "eggs" as its unit and leaves the name empty. */
  lemma TwoEggs()
    ensures ParseLine("2 eggs") == Ingredient("", Finite(2.0), "eggs")
  {
    var parts := ["2", "eggs"];
    TokensTwoEggs();
    TwoQuantity();
    EggsIsAWord();
    LineWithUnit("2 eggs", parts);
    assert parts[2..] == [];
  }

  lemma HalfCupFlourUnspaced()
    ensures Trim("1/2 cup flour") == "1/2 cup flour"
  {
    TrimUnspaced("1/2 cup flour");
  }

  lemma HalfCupFlourPieces()
    ensures "1/2" + " " + "cup" + " " + "flour" == "1/2 cup flour"
  {
  }

  lemma TokensHalfCupFlour()
    ensures Tokens("1/2 cup flour") == ["1/2", "cup", "flour"]
  {
    HalfCupFlourUnspaced();
    ThreeWords("1/2", "cup", "flour");
    HalfCupFlourPieces();
  }

  lemma CupIsAWord()
    ensures !BeginsWithStrDecimalLiteral("cup")
  {
  }

  /** A slash prefix of two single digits divides their values. */
  lemma DigitFraction(a: char, b: char)
    requires IsDigit(a) && IsDigit(b)
    ensures PrefixQuantity([a, '/', b]) == Divide(Finite((a as int - '0' as int) as real), Finite((b as int - '0' as int) as real))
  {
    assert [a, '/', b] == [a] + ['/'] + [b];
    assert '/' in [a, '/', b] by { assert [a, '/', b][1] == '/'; }
    SplitAppend([a], [b], '/');
    SplitWithoutSeparator([a], '/');
    SplitWithoutSeparator([b], '/');
    ParseDigit(a);
    ParseDigit(b);
  }

  lemma HalfQuantity()
    ensures PrefixQuantity("1/2") == Finite(0.5)
  {
    DigitFraction('1', '2');
  }

  lemma HalfMatch()
    ensures QuantityMatch("1/2") == Some("1/2")
  {
    assert QuantityPrefix("1/2") == "1/2";
  }

  /** "1/2 cup flour" is half a cup of flour. */
  lemma HalfCupFlour()
    ensures ParseLine("1/2 cup flour") == Ingredient("flour", Finite(0.5), "cup")
  {
    var parts := ["1/2", "cup", "flour"];
    TokensHalfCupFlour();
    HalfMatch();
    HalfQuantity();
    CupIsAWord();
    LineWithUnit("1/2 cup flour", parts);
    assert parts[2..] == ["flour"];
  }

  /** "1/0" is Infinity: the parse does not fail. */
  lemma OneOverZero()
    ensures PrefixQuantity("1/0") == PosInfinity
  {
    DigitFraction('1', '0');
  }

  /** "0/0" is NaN. */
  lemma ZeroOverZero()
    ensures PrefixQuantity("0/0") == NaN
  {
    DigitFraction('0', '0');
  }

  /** "/2" has no numerator, so parseInt gives NaN and so does the quotient. */
  lemma NoNumerator()
    ensures PrefixQuantity("/2") == NaN
  {
    assert "/2" == [] + ['/'] + "2";
    SplitAppend([], "2", '/');
    SplitWithoutSeparator("2", '/');
    assert LeadingDigits(Unsigned(TrimStart(""))) == [];
  }

  /** A lone point is a numeric prefix whose parseFloat is NaN. */
  lemma LonePoint()
    ensures QuantityMatch(".").Some?
    ensures PrefixQuantity(".") == NaN
  {
    assert TrimStart(".") == ".";
    assert !BeginsWithStrDecimalLiteral(".");
  }
}
