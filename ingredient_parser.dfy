/**
  The ingredient line parser of the recipe form: each line of the ingredient text becomes
  one Ingredient {name, quantity, unit}. The line is trimmed and split at single spaces;
  a first token that starts with digits, points or slashes gives the quantity, and a
  second token that parseFloat rejects becomes the unit.
 */
module IngredientParser {
  import opened Wrappers
  import opened JsString
  import opened JsNumber
  import opened Types

  /** The characters of the pattern `^[0-9./]+`. */
  predicate IsQuantityChar(c: char) {
    IsDigit(c) || c == '.' || c == '/'
  }

  /** The longest prefix of `s` made of quantity characters. */
  function QuantityPrefix(s: string): (p: string)
    ensures |p| <= |s| && p == s[..|p|]
    ensures forall i :: 0 <= i < |p| ==> IsQuantityChar(p[i])
    ensures |p| == |s| || !IsQuantityChar(s[|p|])
  {
    if s != [] && IsQuantityChar(s[0]) then
      assert s == [s[0]] + s[1..];
      [s[0]] + QuantityPrefix(s[1..])
    else ""
  }

  /** `token.match(/^[0-9./]+/)`: the matched prefix, or None when the token does not
      start with a quantity character. */
  function QuantityMatch(token: string): (m: Option<string>)
    ensures m.None? <==> (token == [] || !IsQuantityChar(token[0]))
    ensures m.Some? ==> m.value != [] && m.value == QuantityPrefix(token)
  {
    var p := QuantityPrefix(token);
    if p == [] then None else Some(p)
  }

  /** The quantity computed from a matched prefix: parseInt of the first two `/`-parts
      divided, when there is a slash, and parseFloat of the prefix otherwise. */
  function PrefixQuantity(q: string): Number {
    if '/' in q then
      var fraction := Split(q, '/');
      Divide(ParseInt(fraction[0]), ParseInt(fraction[1]))
    else
      ParseFloat(q)
  }

  /** Text made of quantity characters has no sign and no leading space. */
  lemma QuantityTextUnsigned(p: string)
    requires forall c :: c in p ==> IsQuantityChar(c)
    ensures TrimStart(p) == p && !IsNegative(p)
  {
    if p != [] {
      assert IsQuantityChar(p[0]);
    }
  }

  /** A number that is not below zero: NaN, +Infinity or a non-negative finite value. */
  predicate NotNegative(n: Number) {
    !n.NegInfinity? && (n.Finite? ==> n.value >= 0.0)
  }

  /** Quantity text parses to a number that is not below zero, with parseInt and with parseFloat. */
  lemma QuantityTextParsesNotNegative(p: string)
    requires forall c :: c in p ==> IsQuantityChar(c)
    ensures NotNegative(ParseInt(p)) && NotNegative(ParseFloat(p))
  {
    QuantityTextUnsigned(p);
  }

  /** Dividing two numbers that are not below zero gives one that is not below zero. */
  lemma QuotientNotNegative(a: Number, b: Number)
    requires NotNegative(a) && NotNegative(b)
    ensures NotNegative(Divide(a, b))
  {
    if a.Finite? && b.Finite? && b.value != 0.0 {
      assert a.value / b.value >= 0.0;
    }
  }

  /** A matched prefix never gives a negative quantity or -Infinity: the pattern admits
      no minus sign, so parseFloat, parseInt and the quotient of two such parses are all
      non-negative (or NaN, or +Infinity). */
  lemma PrefixQuantityNotNegative(q: string)
    requires forall i :: 0 <= i < |q| ==> IsQuantityChar(q[i])
    ensures NotNegative(PrefixQuantity(q))
  {
    assert forall c :: c in q ==> IsQuantityChar(c);
    if '/' in q {
      var fraction := Split(q, '/');
      JoinKeepsParts(fraction, "/", 0);
      JoinKeepsParts(fraction, "/", 1);
      QuantityTextParsesNotNegative(fraction[0]);
      QuantityTextParsesNotNegative(fraction[1]);
      QuotientNotNegative(ParseInt(fraction[0]), ParseInt(fraction[1]));
    } else {
      QuantityTextParsesNotNegative(q);
    }
  }

  /** The tokens of a line: the trimmed line split at every single space. */
  function Tokens(line: string): (parts: seq<string>)
    ensures |parts| >= 1
  {
    Split(Trim(line), ' ')
  }

  /** One line of ingredient text as one Ingredient. */
  function ParseLine(line: string): (ing: Ingredient)
    ensures ' ' !in ing.unit
    ensures ing.unit != "" ==> !BeginsWithStrDecimalLiteral(ing.unit)
    ensures QuantityMatch(Tokens(line)[0]).Some? ==> ing.quantity == PrefixQuantity(QuantityMatch(Tokens(line)[0]).value)
  {
    var trimmed := Trim(line);
    var parts := Split(trimmed, ' ');
    match QuantityMatch(parts[0])
    case None => Ingredient(trimmed, Finite(1.0), "")
    case Some(q) =>
      var quantity := PrefixQuantity(q);
      if |parts| > 1 && ParseFloat(parts[1]).NaN? then
        Ingredient(Join(parts[2..], " "), quantity, parts[1])
      else
        Ingredient(Join(parts[1..], " "), quantity, "")
  }

  /** No line parses to a negative quantity or to -Infinity: without a match the quantity
      is 1, and a matched prefix holds only digits, points and slashes. */
  lemma ParseLineQuantityNotNegative(line: string)
    ensures NotNegative(ParseLine(line).quantity)
  {
    var m := QuantityMatch(Tokens(line)[0]);
    if m.Some? {
      PrefixQuantityNotNegative(m.value);
    }
  }

  /** A line that does not start with a digit, a point or a slash is all name, with
      quantity 1 and no unit. */
  lemma NonNumericLineIsName(line: string)
    requires Trim(line) == [] || !IsQuantityChar(Trim(line)[0])
    ensures ParseLine(line) == Ingredient(Trim(line), Finite(1.0), "")
  {
    var parts := Tokens(line);
    if parts[0] != [] {
      assert parts[0][0] == Trim(line)[0];
    }
  }

  /** A line that starts with a digit, a point or a slash has the quantity of its
      matched prefix. */
  lemma NumericLineQuantity(line: string)
    requires Trim(line) != [] && IsQuantityChar(Trim(line)[0])
    ensures ParseLine(line).quantity == PrefixQuantity(QuantityPrefix(Tokens(line)[0]))
  {
    var parts := Tokens(line);
    TrimIsMiddle(line);
    assert Trim(line)[0] != ' ';
    assert parts[0] != [] && parts[0][0] == Trim(line)[0];
  }

  /** After a quantity, a second token that does not begin a decimal literal is the
      unit and the tokens after it are the name; "2 eggs" has unit "eggs" and an empty name. */
  lemma SecondTokenIsUnit(line: string)
    requires QuantityMatch(Tokens(line)[0]).Some?
    requires |Tokens(line)| > 1 && !BeginsWithStrDecimalLiteral(Tokens(line)[1])
    ensures ParseLine(line).unit == Tokens(line)[1]
    ensures ParseLine(line).name == Join(Tokens(line)[2..], " ")
  {
  }

  /** After a quantity, a missing second token, or one that parseFloat reads as a number,
      leaves the unit empty and every token after the first in the name. */
  lemma SecondTokenIsName(line: string)
    requires QuantityMatch(Tokens(line)[0]).Some?
    requires |Tokens(line)| == 1 || BeginsWithStrDecimalLiteral(Tokens(line)[1])
    ensures ParseLine(line).unit == ""
    ensures ParseLine(line).name == Join(Tokens(line)[1..], " ")
  {
  }

  /** A joined list of parts is its first part followed by the join of the rest. */
  lemma JoinFirst(parts: seq<string>)
    requires |parts| > 1
    ensures Join(parts, " ") == parts[0] + " " + Join(parts[1..], " ")
  {
  }

  /** Tokens joined with single spaces, seen as the first, the second and the rest. */
  lemma JoinFirstTwo(parts: seq<string>)
    requires |parts| > 1
    ensures Join(parts, " ") == parts[0] + " " + parts[1] + (if |parts| > 2 then " " + Join(parts[2..], " ") else "")
  {
    JoinFirst(parts);
    if |parts| > 2 {
      JoinFirst(parts[1..]);
      assert parts[1..][1..] == parts[2..];
    }
  }

  /** Nothing of a line with a quantity and a unit is lost: the quantity token, the unit
      and the name, put back together with single spaces, are the trimmed line. */
  lemma ReassembleWithUnit(line: string)
    requires QuantityMatch(Tokens(line)[0]).Some?
    requires |Tokens(line)| > 1 && !BeginsWithStrDecimalLiteral(Tokens(line)[1])
    ensures var ing, parts := ParseLine(line), Tokens(line);
            Trim(line) == parts[0] + " " + ing.unit + (if |parts| > 2 then " " + ing.name else "")
  {
    var parts := Tokens(line);
    SecondTokenIsUnit(line);
    JoinFirstTwo(parts);
    assert Join(parts, " ") == Trim(line);
  }

  /** Nothing of a line with a quantity and no unit is lost: the quantity token and the
      name, put back together with a single space, are the trimmed line. */
  lemma ReassembleWithoutUnit(line: string)
    requires QuantityMatch(Tokens(line)[0]).Some?
    requires |Tokens(line)| == 1 || BeginsWithStrDecimalLiteral(Tokens(line)[1])
    ensures var ing, parts := ParseLine(line), Tokens(line);
            Trim(line) == parts[0] + (if |parts| > 1 then " " + ing.name else "")
  {
    var parts := Tokens(line);
    SecondTokenIsName(line);
    if |parts| > 1 {
      JoinFirst(parts);
    }
  }

  /** A slash prefix keeps only the first two `/`-parts: anything after a second slash
      does not change the quantity ("1/2/3" is one half). */
  lemma FractionIgnoresLaterParts(q: string, extra: string)
    requires '/' in q
    ensures PrefixQuantity(q + "/" + extra) == PrefixQuantity(q)
  {
    SplitAppend(q, extra, '/');
    assert q + "/" + extra == q + ['/'] + extra;
  }

  /** `line.trim() !== ''`: the test a line must pass to be kept. */
  predicate IsKept(line: string) {
    Trim(line) != ""
  }

  /** The lines of the ingredient text that are not blank, in their order. */
  function NonBlankLines(lines: seq<string>): (kept: seq<string>)
    ensures forall l :: l in kept <==> l in lines && IsKept(l)
    ensures |kept| <= |lines|
  {
    if lines == [] then []
    else
      var rest := NonBlankLines(lines[1..]);
      assert lines == [lines[0]] + lines[1..];
      if IsKept(lines[0]) then [lines[0]] + rest else rest
  }

  /** One line passes the filter when it is not blank and disappears when it is; with
      NonBlankLinesAppend this fixes the filter's output, order included. */
  lemma NonBlankLinesOne(line: string)
    ensures NonBlankLines([line]) == if IsKept(line) then [line] else []
  {
    assert [line][1..] == [];
  }

  /** Dropping blank lines works line by line: a blank line disappears, any other line stays. */
  lemma {:induction false} NonBlankLinesAppend(a: seq<string>, b: seq<string>)
    ensures NonBlankLines(a + b) == NonBlankLines(a) + NonBlankLines(b)
  {
    if a == [] {
      assert a + b == b;
    } else {
      assert (a + b)[0] == a[0];
      assert (a + b)[1..] == a[1..] + b;
      NonBlankLinesAppend(a[1..], b);
    }
  }

  /** The ingredient text of the recipe form as ingredients: one per non-blank line, in order. */
  function ParseIngredientText(text: string): (ings: seq<Ingredient>)
    ensures |ings| == |NonBlankLines(Split(text, '\n'))|
  {
    var lines := NonBlankLines(Split(text, '\n'));
    seq(|lines|, i requires 0 <= i < |lines| => ParseLine(lines[i]))
  }

  /** Lines are parsed independently: the ingredients of two texts joined by a line break
      are the ingredients of the first followed by those of the second. */
  lemma ParseIngredientTextAppend(a: string, b: string)
    ensures ParseIngredientText(a + "\n" + b) == ParseIngredientText(a) + ParseIngredientText(b)
  {
    assert a + "\n" + b == a + ['\n'] + b;
    SplitAppend(a, b, '\n');
    var la, lb := NonBlankLines(Split(a, '\n')), NonBlankLines(Split(b, '\n'));
    NonBlankLinesAppend(Split(a, '\n'), Split(b, '\n'));
    assert NonBlankLines(Split(a + "\n" + b, '\n')) == la + lb;
    var whole, pa, pb := ParseIngredientText(a + "\n" + b), ParseIngredientText(a), ParseIngredientText(b);
    assert |whole| == |pa| + |pb|;
    forall i | 0 <= i < |whole| ensures whole[i] == (pa + pb)[i] {
      if i < |la| {
        assert (la + lb)[i] == la[i];
      } else {
        assert (la + lb)[i] == lb[i - |la|];
      }
    }
  }

  /** A single line is one ingredient when it is not blank and none when it is. */
  lemma ParseIngredientTextOneLine(line: string)
    requires '\n' !in line
    ensures ParseIngredientText(line) == if IsBlank(line) then [] else [ParseLine(line)]
  {
    TrimEmptyIffBlank(line);
    assert Split(line, '\n') == [line];
  }
}
