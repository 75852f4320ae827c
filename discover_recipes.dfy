/**
  Adding a recommended dish to the recipe book: its ingredient lines are parsed one by one
  with the same rules as the recipe form (but without dropping blank lines), and the number
  of servings is guessed from the dish's name.
 */
module DiscoverRecipes {
  import opened JsString
  import opened JsNumber
  import opened Types
  import opened IngredientParser

  /** One recommended dish. */
  datatype Recommendation = Recommendation(name: string, description: string, ingredients: seq<string>, instructions: seq<string>)

  /** The arguments `onAddRecipe` is called with. */
  datatype AddRecipeCall = AddRecipeCall(name: string, servings: Number, ingredients: seq<Ingredient>)

  /** The per-line parse of the recommendation card, with its locals `quantity`, `unit` and
      `ingredientName` set to the defaults and then overwritten; it agrees with the recipe
      form's parser on every line. */
  method ParseRecommendedLine(line: string) returns (ing: Ingredient)
    ensures ing == ParseLine(line)
  {
    var trimmed := Trim(line);
    var parts := Split(trimmed, ' ');
    var quantityMatch := QuantityMatch(parts[0]);
    var quantity := Finite(1.0);
    var unit := "";
    var ingredientName := trimmed;
    if quantityMatch.Some? {
      var q := quantityMatch.value;
      if '/' in q {
        var fraction := Split(q, '/');
        quantity := Divide(ParseInt(fraction[0]), ParseInt(fraction[1]));
      } else {
        quantity := ParseFloat(q);
      }
      if |parts| > 1 && ParseFloat(parts[1]).NaN? {
        unit := parts[1];
        ingredientName := Join(parts[2..], " ");
      } else {
        ingredientName := Join(parts[1..], " ");
      }
    }
    ing := Ingredient(ingredientName, quantity, unit);
  }

  /** The servings guess: one when the lower-cased name contains "for one", two otherwise. */
  function ServingsGuess(name: string): (servings: Number)
    ensures servings == Finite(1.0) <==> Includes(Lower(name), "for one")
    ensures servings == Finite(1.0) || servings == Finite(2.0)
  {
    if Includes(Lower(name), "for one") then Finite(1.0) else Finite(2.0)
  }

  /** The recommendation's ingredient lines parsed one by one, blank lines included, in
      their order. */
  method ParseRecommendedLines(lines: seq<string>) returns (ingredients: seq<Ingredient>)
    ensures |ingredients| == |lines|
    ensures ingredients == ParsedLines(lines)
  {
    ingredients := [];
    var i := 0;
    while i < |lines|
      invariant 0 <= i <= |lines|
      invariant |ingredients| == i
      invariant forall k :: 0 <= k < i ==> ingredients[k] == ParseLine(lines[k])
    {
      var ing := ParseRecommendedLine(lines[i]);
      ingredients := ingredients + [ing];
      i := i + 1;
    }
  }

  /** The click on "add" of a recommendation: the call made to `onAddRecipe`, with the
      dish's name as it is, the guessed servings, and one parsed ingredient per line of the
      recommendation, blank lines included, in their order. */
  method HandleAddRecipeClick(rec: Recommendation) returns (call: AddRecipeCall)
    ensures call.name == rec.name
    ensures call.servings == ServingsGuess(rec.name)
    ensures call.ingredients == ParsedLines(rec.ingredients)
  {
    var ingredients := ParseRecommendedLines(rec.ingredients);
    var servings := ServingsGuess(rec.name);
    call := AddRecipeCall(rec.name, servings, ingredients);
  }

  /** Without the blank-line filter, a blank (or empty) line becomes an ingredient with an
      empty name, quantity 1 and no unit. */
  lemma BlankLineIsEmptyIngredient(line: string)
    requires IsBlank(line)
    ensures ParseLine(line) == Ingredient("", Finite(1.0), "")
  {
    TrimEmptyIffBlank(line);
    NonNumericLineIsName(line);
  }

  /** The ingredients of a list of lines, one per line. */
  function ParsedLines(lines: seq<string>): (ings: seq<Ingredient>)
    ensures |ings| == |lines|
  {
    seq(|lines|, i requires 0 <= i < |lines| => ParseLine(lines[i]))
  }

  lemma ParsedLinesCons(lines: seq<string>)
    requires lines != []
    ensures ParsedLines(lines) == [ParseLine(lines[0])] + ParsedLines(lines[1..])
  {
    assert forall i :: 0 < i < |lines| ==> lines[i] == lines[1..][i - 1];
  }

  lemma JoinLinesCons(lines: seq<string>)
    requires |lines| > 1
    ensures Join(lines, "\n") == lines[0] + "\n" + Join(lines[1..], "\n")
  {
  }

  lemma KeptLineText(line: string)
    requires '\n' !in line && IsKept(line)
    ensures ParseIngredientText(line) == [ParseLine(line)]
  {
    TrimEmptyIffBlank(line);
    ParseIngredientTextOneLine(line);
  }

  /** A recommendation whose lines are all non-blank gets the ingredients the recipe form
      would give for the same lines typed one per line. */
  lemma {:induction false} AgreesWithForm(lines: seq<string>)
    requires forall i :: 0 <= i < |lines| ==> '\n' !in lines[i] && IsKept(lines[i])
    ensures ParseIngredientText(Join(lines, "\n")) == ParsedLines(lines)
  {
    if lines == [] {
      TrimEmptyIffBlank("");
      ParseIngredientTextOneLine("");
    } else {
      ParsedLinesCons(lines);
      KeptLineText(lines[0]);
      if |lines| == 1 {
        assert lines[1..] == [];
      } else {
        JoinLinesCons(lines);
        AgreesWithForm(lines[1..]);
        ParseIngredientTextAppend(lines[0], Join(lines[1..], "\n"));
      }
    }
  }
}
