# PantryPal meal planner core in Dafny

PantryPal keeps a recipe book and turns the recipes a user selects into a consolidated
shopping list. This project models the core of that app and proves properties about it:

- **The ingredient line parser.** The recipe form's text becomes `{name, quantity, unit}`
  records, one per non-blank line. Each line is trimmed and split at single spaces.
  - A first token that starts with `[0-9./]` gives the quantity, read from the matched
    prefix of `[0-9./]` characters only. With a slash in that prefix, the quantity is
    parseInt of its first two `/`-parts, divided; otherwise it is parseFloat of the prefix
    (so `2e3` gives 2, because `e` is not matched).
  - When the second token is something parseFloat rejects, it becomes the unit.
- **The meal planner's state and its handlers**, as a class. It covers adding, editing,
  importing and deleting recipes, toggling the selection, and generating and clearing the
  shopping list. It also covers storing the categorized list once the categorizer has
  replied, and the effect that runs whenever the shopping list changes.
- **Consolidation of the shopping list.**
  - The selected recipes' ingredients are flattened to `"<quantity> <unit> <name>"`,
    trimmed, and appended to the current list.
  - Exact duplicates are dropped, as a Set does.
  - A Map keyed by `item.toLowerCase().trim()` keeps the trimmed form of the first item
    with each non-empty key.
  - The kept items are sorted with the string comparator.
- **The add-to-book click of a recommended dish.** It uses the same per-line parser but
  keeps blank lines, and guesses 1 serving when the lower-cased name contains "for one"
  and 2 otherwise.
- **The server action that imports ingredients from a URL.** It checks the form fields,
  then the URL, then asks the extractor; each failure has its own message.

The JavaScript built-ins the core relies on are modelled in their own modules, following
ECMA-262: `trim`, `split` on one character, `join`, `toLowerCase`, `includes`,
`parseFloat`, `parseInt` and division. The module `WorkedCases` proves what the parser
gives for concrete lines:

| line | name | quantity | unit |
|---|---|---|---|
| `salt` | `salt` | 1 | none |
| `2 eggs` | empty | 2 | `eggs` |
| `1/2 cup flour` | `flour` | 0.5 | `cup` |

It also shows quantities that divide into Infinity or NaN.

Behaviours of the code worth knowing, all kept by the model:

- **"2 eggs".** "eggs" is a second token that parseFloat rejects, so it becomes the unit and
  the name is empty (MealPlanner.tsx:76-78). This is `WorkedCases.TwoEggs`.
- **Emptying the shopping list.** The effect stores `null` as the categorized list, not an
  empty group list (MealPlanner.tsx:53-55, `Categorization.EmptyListClears`).
- **Categorizer replies.** `handleCategorizeList` stores whatever reply it receives; there is
  no check that the reply belongs to the latest list (MealPlanner.tsx:33-48). The model
  stores the reply it is given.
- **Non-numeric quantities.** A quantity may be NaN or Infinity (`"1/0"`, `"0/0"`, `"/2"`,
  `"."`). Nothing in the code rejects them, and the model keeps them. It does prove no
  line parses to a negative quantity or to -Infinity
  (`IngredientParser.ParseLineQuantityNotNegative`).

Files:

| file | contents |
|---|---|
| `wrappers.dfy` | `Option` |
| `js_string.dfy` | the string operations |
| `js_number.dfy` | JavaScript numbers, parseFloat, parseInt, division |
| `types.dfy` | `Ingredient`, `Recipe`, the grouped list |
| `ingredient_parser.dfy` | the line parser and the ingredient text parser |
| `recipe_book.dfy` | the recipe book transforms as values |
| `shopping_list.dfy` | flattening, Set, first-wins Map, sorting, and the generator's loop |
| `categorization.dfy` | reconciling the categorizer's reply |
| `meal_planner.dfy` | the `MealPlanner` class |
| `discover_recipes.dfy` | the recommendation card's click |
| `url_import.dfy` | the URL import action |
| `worked_cases.dfy` | concrete lines |

## Model

| member | source | states |
|---|---|---|
| JsString.TrimStart | src/components/features/meal-planner/MealPlanner.tsx:60 | the result is no longer than the input, starts with a non-space character, and everything cut off is white space |
| JsString.TrimEnd | src/components/features/meal-planner/MealPlanner.tsx:60 | the result ends with a non-space character, and everything cut off at the end is white space |
| JsString.TrimStartIsSuffix | src/components/features/meal-planner/MealPlanner.tsx:60 | removing leading space leaves a suffix of the input |
| JsString.TrimEndIsPrefix | src/components/features/meal-planner/MealPlanner.tsx:60 | removing trailing space leaves a prefix of the input |
| JsString.Trim | src/components/features/meal-planner/MealPlanner.tsx:60 | `trim()` is trimStart then trimEnd; its properties are the rows `TrimIsMiddle`, `TrimIdempotent` and `TrimEmptyIffBlank` |
| JsString.TrimStartCutIsBlank | src/components/features/meal-planner/MealPlanner.tsx:60 | what trimStart removes is white space |
| JsString.TrimEndCutIsBlank | src/components/features/meal-planner/MealPlanner.tsx:60 | what trimEnd removes is white space |
| JsString.TrimBounds | src/components/features/meal-planner/MealPlanner.tsx:60 | `trim()` is the slice between two bounds, with only white space before and after it |
| JsString.TrimEdges | src/components/features/meal-planner/MealPlanner.tsx:60 | a non-empty `trim()` neither starts nor ends with white space |
| JsString.TrimIsMiddle | src/components/features/meal-planner/MealPlanner.tsx:60 | `trim()` is a contiguous slice of its input, only white space is cut at either end, and the result neither starts nor ends with white space |
| JsString.TrimIdempotent | src/components/features/meal-planner/MealPlanner.tsx:152-154 | trimming twice is trimming once |
| JsString.TrimEmptyIffBlank | src/components/features/meal-planner/MealPlanner.tsx:59 | `line.trim() !== ''` fails exactly for lines made only of white space (the empty line included) |
| JsString.Lower | src/components/features/meal-planner/MealPlanner.tsx:152 | lower-casing keeps the length |
| JsString.LowerCharKeepsSpace | src/components/features/meal-planner/MealPlanner.tsx:152 | lower-casing a character neither makes nor unmakes white space |
| JsString.LowerTrimStart | src/components/features/meal-planner/MealPlanner.tsx:152 | lower-casing commutes with removing leading white space |
| JsString.LowerTrimEnd | src/components/features/meal-planner/MealPlanner.tsx:152 | lower-casing commutes with removing trailing white space |
| JsString.LowerTrimCommute | src/components/features/meal-planner/MealPlanner.tsx:152 | `toLowerCase().trim()` equals `trim().toLowerCase()` |
| JsString.Split | src/components/features/meal-planner/MealPlanner.tsx:60 | split gives at least one part; no part holds the separator; rejoining with the separator gives the input back; there are two or more parts exactly when the separator occurs; the first part is a prefix |
| JsString.SplitAtSeparator | src/components/features/meal-planner/MealPlanner.tsx:60 | a separator at the front adds an empty first part to the split of the rest |
| JsString.SplitExtendsFirst | src/components/features/meal-planner/MealPlanner.tsx:60 | another character at the front extends the first part of the split of the rest |
| JsString.Join | src/components/features/meal-planner/MealPlanner.tsx:78-80 | `join` puts the separator between consecutive parts; its properties are the rows `SplitJoin`, `JoinAppend` and `JoinKeepsParts` |
| JsString.JoinEmptyFirst | src/components/features/meal-planner/MealPlanner.tsx:78-80 | joining with an empty first part starts with the separator |
| JsString.JoinExtendFirst | src/components/features/meal-planner/MealPlanner.tsx:78-80 | a character prepended to the first part is prepended to the join |
| JsString.JoinKeepsParts | src/components/features/meal-planner/MealPlanner.tsx:69-70 | every character of a part occurs in the join |
| JsString.SplitJoin | src/components/features/meal-planner/MealPlanner.tsx:78-80 | splitting a join of separator-free parts gives the parts back (split and join are inverses) |
| JsString.JoinAppend | src/components/features/meal-planner/MealPlanner.tsx:78-80 | joining two non-empty part lists puts exactly one separator between their joins |
| JsString.SplitAppend | src/components/features/meal-planner/MealPlanner.tsx:59 | splitting at a separator character splits the text on each side independently |
| JsString.Includes | src/components/features/meal-planner/DiscoverRecipesCard.tsx:86 | `includes` holds exactly when the needle occurs at some index of the text |
| JsNumber.LeadingDigits | src/components/features/meal-planner/MealPlanner.tsx:71 | the result is the longest all-digit prefix of the text |
| JsNumber.BeginsWithStrDecimalLiteral | src/components/features/meal-planner/MealPlanner.tsx:76 | what `isNaN(parseFloat(...))` tests: after optional white space and sign, a digit, a point followed by a digit, or `Infinity`; `ParseFloat` is NaN exactly when this fails |
| JsNumber.ParseFloat | src/components/features/meal-planner/MealPlanner.tsx:73-76 | NaN exactly when the trimmed text does not begin a decimal literal (a digit, a point followed by a digit, or `Infinity`, after an optional sign); a finite result of an unsigned text is non-negative; -Infinity only after a minus sign |
| JsNumber.ParseInt | src/components/features/meal-planner/MealPlanner.tsx:70-71 | NaN exactly when no digit follows the white space and sign; a finite result of an unsigned text is non-negative; the result is never infinite |
| JsNumber.Divide | src/components/features/meal-planner/MealPlanner.tsx:71 | NaN exactly for a NaN operand, two infinities, or 0/0; a finite quotient times the divisor is the dividend; finite over infinite is 0; a positive number over 0 is +Infinity |
| IngredientParser.QuantityPrefix | src/components/features/meal-planner/MealPlanner.tsx:61 | the result is the longest prefix of the token made of digits, points and slashes |
| IngredientParser.QuantityMatch | src/components/features/meal-planner/MealPlanner.tsx:61 | `/^[0-9./]+/` fails exactly when the token is empty or starts with another character; a match is the longest non-empty such prefix |
| IngredientParser.PrefixQuantity | src/components/features/meal-planner/MealPlanner.tsx:69-74 | the quantity of a matched prefix: parseInt of the first two `/`-parts divided when it holds a slash, parseFloat of the prefix otherwise; the rows `FractionIgnoresLaterParts` and `PrefixQuantityNotNegative` state its properties |
| IngredientParser.QuantityTextUnsigned | src/components/features/meal-planner/MealPlanner.tsx:61 | text made of digits, points and slashes has no leading space and no sign |
| IngredientParser.QuantityTextParsesNotNegative | src/components/features/meal-planner/MealPlanner.tsx:70-73 | parseInt and parseFloat of such text are never negative and never -Infinity |
| IngredientParser.QuotientNotNegative | src/components/features/meal-planner/MealPlanner.tsx:71 | dividing two numbers that are not negative gives a number that is not negative (NaN allowed) |
| IngredientParser.PrefixQuantityNotNegative | src/components/features/meal-planner/MealPlanner.tsx:61-74 | the quantity read from a matched prefix is never negative and never -Infinity |
| IngredientParser.Tokens | src/components/features/meal-planner/MealPlanner.tsx:60 | a line always has at least one token, so `parts[0]` exists |
| IngredientParser.ParseLine | src/components/features/meal-planner/MealPlanner.tsx:60-90 | a unit never contains a space and never begins a decimal literal; when the first token matches, the quantity is that of the matched prefix |
| IngredientParser.ParseLineQuantityNotNegative | src/components/features/meal-planner/MealPlanner.tsx:62-74 | no line's quantity is negative or -Infinity: the default is 1, and a matched prefix holds no sign |
| IngredientParser.NonNumericLineIsName | src/components/features/meal-planner/MealPlanner.tsx:60-66 | a line that does not start with a quantity character is {trimmed line, 1, ""} |
| IngredientParser.NumericLineQuantity | src/components/features/meal-planner/MealPlanner.tsx:66-74 | a line that starts with a quantity character has the quantity of the matched prefix of its first token |
| IngredientParser.SecondTokenIsUnit | src/components/features/meal-planner/MealPlanner.tsx:76-78 | after a quantity, a second token that parseFloat rejects is the unit, and the tokens after it, joined by spaces, are the name |
| IngredientParser.SecondTokenIsName | src/components/features/meal-planner/MealPlanner.tsx:79-81 | after a quantity, a missing or numeric second token leaves the unit empty, and every token after the first is the name |
| IngredientParser.JoinFirst | src/components/features/meal-planner/MealPlanner.tsx:80 | a space-join is its first part, a space, and the join of the rest |
| IngredientParser.JoinFirstTwo | src/components/features/meal-planner/MealPlanner.tsx:78 | a space-join is its first two parts and, when there are more, a space and the join of the rest |
| IngredientParser.ReassembleWithUnit | src/components/features/meal-planner/MealPlanner.tsx:60-78 | quantity token, unit and name put back together with single spaces give the trimmed line: nothing is lost |
| IngredientParser.ReassembleWithoutUnit | src/components/features/meal-planner/MealPlanner.tsx:60-80 | quantity token and name put back together with a single space give the trimmed line |
| IngredientParser.FractionIgnoresLaterParts | src/components/features/meal-planner/MealPlanner.tsx:69-71 | only the first two `/`-parts count: what follows a second slash does not change the quantity |
| IngredientParser.NonBlankLines | src/components/features/meal-planner/MealPlanner.tsx:59 | a line is kept exactly when it is in the input and not blank; the result is no longer than the input |
| IngredientParser.NonBlankLinesOne | src/components/features/meal-planner/MealPlanner.tsx:59 | a single line is kept when it is not blank and dropped when it is |
| IngredientParser.NonBlankLinesAppend | src/components/features/meal-planner/MealPlanner.tsx:59 | the blank filter works line by line over concatenated line lists |
| IngredientParser.ParseIngredientText | src/components/features/meal-planner/MealPlanner.tsx:59-91 | one ingredient per non-blank line |
| IngredientParser.ParseIngredientTextAppend | src/components/features/meal-planner/MealPlanner.tsx:59-91 | lines are parsed independently: two texts joined by a line break give the first's ingredients followed by the second's |
| IngredientParser.ParseIngredientTextOneLine | src/components/features/meal-planner/MealPlanner.tsx:59 | a single line gives no ingredient when blank, and its own parse otherwise |
| RecipeBook.Replaced | src/components/features/meal-planner/MealPlanner.tsx:95 | editing keeps the number of recipes |
| RecipeBook.ReplacedKeepsPositions | src/components/features/meal-planner/MealPlanner.tsx:93-95 | a recipe with another id is unchanged at its position, one with the id becomes the updated recipe, and an update that keeps the id keeps every id |
| RecipeBook.ReplacedIsUpdateAt | src/components/features/meal-planner/MealPlanner.tsx:95 | with unique ids, editing the recipe at position k changes that position and no other |
| RecipeBook.Removed | src/components/features/meal-planner/MealPlanner.tsx:121 | deleting never lengthens the book |
| RecipeBook.RemovedKeepsOthers | src/components/features/meal-planner/MealPlanner.tsx:121 | after deleting, a recipe is in the book exactly when it was before and its id differs; the id is gone |
| RecipeBook.RemovedAbsent | src/components/features/meal-planner/MealPlanner.tsx:121 | deleting an id the book does not hold leaves it unchanged |
| RecipeBook.RemovedAppend | src/components/features/meal-planner/MealPlanner.tsx:121 | the filter distributes over concatenation |
| RecipeBook.RemovedIsDeleteAt | src/components/features/meal-planner/MealPlanner.tsx:121 | with unique ids, deleting the recipe at position k takes out exactly that position |
| RecipeBook.RemovedKeepsUnique | src/components/features/meal-planner/MealPlanner.tsx:121 | deleting keeps the ids unique |
| RecipeBook.AppendFresh | src/components/features/meal-planner/MealPlanner.tsx:98-104 | appending a recipe with an unused id keeps the ids unique and appends its id |
| RecipeBook.Toggled | src/components/features/meal-planner/MealPlanner.tsx:130-139 | deletes the id from the selection when present, adds it otherwise; `ToggledFlips` and `ToggleTwice` state its properties |
| RecipeBook.ToggledFlips | src/components/features/meal-planner/MealPlanner.tsx:130-140 | toggling flips the membership of that id and of no other |
| RecipeBook.ToggleTwice | src/components/features/meal-planner/MealPlanner.tsx:130-140 | toggling the same id twice restores the selection |
| ShoppingList.FlatItem | src/components/features/meal-planner/MealPlanner.tsx:145 | an item `"<quantity> <unit> <name>"` is already trimmed |
| ShoppingList.FlatItems | src/components/features/meal-planner/MealPlanner.tsx:145 | one display string per ingredient |
| ShoppingList.SelectedItems | src/components/features/meal-planner/MealPlanner.tsx:143-145 | the items of the selected recipes, in book order; the rows `SelectedItemsNone` and `SelectedItemsCount` state its properties |
| ShoppingList.FlatItemsAt | src/components/features/meal-planner/MealPlanner.tsx:145 | item k of a recipe's flattened list is its ingredient k flattened, so the order is the ingredients' order |
| ShoppingList.SelectedItemsAppend | src/components/features/meal-planner/MealPlanner.tsx:143-145 | the items of two books one after the other are the first book's items followed by the second's: book order is kept |
| ShoppingList.SelectedItemsOne | src/components/features/meal-planner/MealPlanner.tsx:143-145 | one recipe contributes its flattened ingredients when its id is selected and nothing otherwise |
| ShoppingList.SelectedItemsNone | src/components/features/meal-planner/MealPlanner.tsx:143-145 | with nothing selected, no item is taken |
| ShoppingList.SelectedItemsCount | src/components/features/meal-planner/MealPlanner.tsx:143-145 | the number of items taken is the total number of ingredients of the selected recipes |
| ShoppingList.Distinct | src/components/features/meal-planner/MealPlanner.tsx:148 | `[...new Set(list)]`: the first occurrence of each item, in order; the rows `DistinctSpec` and `DistinctOfNoDuplicates` state its properties |
| ShoppingList.DistinctSpec | src/components/features/meal-planner/MealPlanner.tsx:148 | the Set keeps exactly the items of its input, each once |
| ShoppingList.DistinctOfNoDuplicates | src/components/features/meal-planner/MealPlanner.tsx:148 | a list without duplicates goes through the Set unchanged |
| ShoppingList.Key | src/components/features/meal-planner/MealPlanner.tsx:152 | the Map key `item.toLowerCase().trim()`; `LowerTrimCommute` and `KeyOfTrimmed` state its properties |
| ShoppingList.KeyOfTrimmed | src/components/features/meal-planner/MealPlanner.tsx:152-154 | the stored trimmed item has the key it was stored under |
| ShoppingList.Candidate | src/components/features/meal-planner/MealPlanner.tsx:152-154 | the value stored for an item is trimmed and has the key it is stored under |
| ShoppingList.FirstWins | src/components/features/meal-planner/MealPlanner.tsx:150-156 | the Map's entries have pairwise different, non-empty keys, and there are no more of them than items |
| ShoppingList.FirstWith | src/components/features/meal-planner/MealPlanner.tsx:153 | the index of the first candidate with a key: all those before it have another key |
| ShoppingList.FirstItemWith | src/components/features/meal-planner/MealPlanner.tsx:152-153 | the position of the first item with a key: all those before it have another key |
| ShoppingList.FirstWinsComplete | src/components/features/meal-planner/MealPlanner.tsx:151-155 | every item with a non-empty key has its key in the Map |
| ShoppingList.FirstWinsSound | src/components/features/meal-planner/MealPlanner.tsx:153-154 | each Map entry is that of the first item with its key (first seen wins) |
| ShoppingList.FirstWinsKeepsAll | src/components/features/meal-planner/MealPlanner.tsx:150-157 | items with non-empty, pairwise different keys are all kept, in order |
| ShoppingList.FirstWinsSnoc | src/components/features/meal-planner/MealPlanner.tsx:151-156 | one more item adds its entry exactly when its key is non-empty and new |
| ShoppingList.FirstWinsOfDistinct | src/components/features/meal-planner/MealPlanner.tsx:148-156 | the Set step changes nothing the Map keeps |
| ShoppingList.Insert | src/components/features/meal-planner/MealPlanner.tsx:158 | insertion adds exactly the one element (as a multiset) |
| ShoppingList.InsertSorted | src/components/features/meal-planner/MealPlanner.tsx:158 | inserting into a sorted list keeps it sorted |
| ShoppingList.InsertNoDuplicates | src/components/features/meal-planner/MealPlanner.tsx:158 | inserting a new element keeps the list free of duplicates |
| ShoppingList.SortBy | src/components/features/meal-planner/MealPlanner.tsx:158 | sorting is a permutation |
| ShoppingList.SortByIsSorted | src/components/features/meal-planner/MealPlanner.tsx:158 | under a total comparator the result is sorted |
| ShoppingList.SortByNoDuplicates | src/components/features/meal-planner/MealPlanner.tsx:158 | sorting keeps a list free of duplicates |
| ShoppingList.SortBySorted | src/components/features/meal-planner/MealPlanner.tsx:158 | sorting a sorted list changes nothing |
| ShoppingList.SortedUnique | src/components/features/meal-planner/MealPlanner.tsx:158 | under a total order there is one sorted arrangement of a multiset, so any correct sort gives the same list |
| ShoppingList.KeptSound | src/components/features/meal-planner/MealPlanner.tsx:150-157 | each kept item has a non-empty key and is the trimmed form of the first item with that key |
| ShoppingList.KeptKeysUnique | src/components/features/meal-planner/MealPlanner.tsx:150-157 | no two kept items share a key, so none is kept twice |
| ShoppingList.KeptComplete | src/components/features/meal-planner/MealPlanner.tsx:150-157 | every item with a non-empty key is represented by the trimmed first item with its key |
| ShoppingList.Consolidate | src/components/features/meal-planner/MealPlanner.tsx:147-159 | the updater's result: the Set, then the first-wins Map, then the sort; the `Consolidate...` rows below state its properties |
| ShoppingList.ConsolidateSortsKept | src/components/features/meal-planner/MealPlanner.tsx:147-159 | the new list is sorted, is a permutation of the kept items, and has no duplicates |
| ShoppingList.ConsolidateSound | src/components/features/meal-planner/MealPlanner.tsx:147-159 | each item of the new list is the trimmed form of the first input (old list first, then the new items) with its key |
| ShoppingList.ConsolidateKeysUnique | src/components/features/meal-planner/MealPlanner.tsx:147-159 | no two items of the new list share a case-insensitive, trimmed key |
| ShoppingList.ConsolidateComplete | src/components/features/meal-planner/MealPlanner.tsx:147-159 | every input item with a non-empty key is represented in the new list |
| ShoppingList.ConsolidateIsConsolidated | src/components/features/meal-planner/MealPlanner.tsx:147-159 | the new list is sorted, trimmed, with non-empty and distinct keys |
| ShoppingList.ConsolidateFixpoint | src/components/features/meal-planner/MealPlanner.tsx:147-159 | regenerating a consolidated list with nothing new gives it back unchanged |
| ShoppingList.ConsolidateIdempotent | src/components/features/meal-planner/MealPlanner.tsx:147-159 | consolidating is idempotent |
| ShoppingList.FirstWinsStep | src/components/features/meal-planner/MealPlanner.tsx:151-156 | one forEach step appends the item's entry exactly when its key is non-empty and not yet in the Map |
| ShoppingList.MirrorsInsert | src/components/features/meal-planner/MealPlanner.tsx:153-154 | `uniqueMap.set` of a new key appends its entry to the insertion order |
| ShoppingList.MirrorsValues | src/components/features/meal-planner/MealPlanner.tsx:157 | `Array.from(uniqueMap.values())` lists the entries' values in insertion order |
| ShoppingList.ConsolidateList | src/components/features/meal-planner/MealPlanner.tsx:147-159 | the state updater's Set, forEach over a Map and sort compute the consolidated list of the previous list and the new items |
| Categorization.Reconciled | src/components/features/meal-planner/MealPlanner.tsx:36-45 | the reply's data when it succeeded with data, else one "Uncategorized" group with the list sent; `UsableReplyKept` and `FallbackKeepsList` state it |
| Categorization.AllItemsAppend | src/components/features/meal-planner/MealPlanner.tsx:45 | the items of concatenated group lists are the concatenated items |
| Categorization.AllItemsMembership | src/components/features/meal-planner/MealPlanner.tsx:45 | an item is in the groups' items exactly when some group holds it |
| Categorization.UsableReplyKept | src/components/features/meal-planner/MealPlanner.tsx:36-37 | a successful reply with data is stored as it is |
| Categorization.FallbackKeepsList | src/components/features/meal-planner/MealPlanner.tsx:44-45 | any other reply stores a single "Uncategorized" group holding exactly the list sent |
| Categorization.EmptyListClears | src/components/features/meal-planner/MealPlanner.tsx:53-55 | an empty shopping list leaves no categorized list: `null`, not an empty group list |
| Categorization.AfterListChange | src/components/features/meal-planner/MealPlanner.tsx:50-55 | the effect's outcome: `null` for an empty list, the reconciled reply otherwise; `EmptyListClears` and `NonEmptyListCategorized` state it |
| Categorization.NonEmptyListCategorized | src/components/features/meal-planner/MealPlanner.tsx:50-52 | a non-empty list is always categorized, with the reply's data or a group holding the list itself |
| MealPlannerState.MealPlanner.constructor | src/components/features/meal-planner/MealPlanner.tsx:17-23 | a first visit: empty book, list and selection, no categorized list, form closed; the state is valid |
| MealPlannerState.MealPlanner.OpenForm | src/components/features/meal-planner/MealPlanner.tsx:171-174 | sets the recipe being edited and opens the form; nothing else changes |
| MealPlannerState.MealPlanner.AddOrUpdateRecipe | src/components/features/meal-planner/MealPlanner.tsx:58-108 | when editing, the recipe with that id gets the new name, servings and parsed ingredients and keeps its position; otherwise a new recipe with the fresh id is appended; the editing recipe is cleared; ids stay unique; nothing else changes |
| MealPlannerState.MealPlanner.ImportRecipe | src/components/features/meal-planner/MealPlanner.tsx:110-118 | appends the recipe with the fresh id; nothing else changes |
| MealPlannerState.MealPlanner.DeleteRecipe | src/components/features/meal-planner/MealPlanner.tsx:120-128 | removes the recipes with the id from the book, keeping the others in order, and removes the id from the selection |
| MealPlannerState.MealPlanner.ToggleRecipeSelection | src/components/features/meal-planner/MealPlanner.tsx:130-140 | flips the id's membership in the selection; nothing else changes |
| MealPlannerState.MealPlanner.GenerateShoppingList | src/components/features/meal-planner/MealPlanner.tsx:142-163 | the list becomes the consolidated merge of the old list and the selected recipes' items; the reported count is the number of selected ingredients; with nothing selected the list is unchanged; the selection is cleared; the list stays consolidated |
| MealPlannerState.MealPlanner.ClearShoppingList | src/components/features/meal-planner/MealPlanner.tsx:165-169 | empties the list and drops the categorized list |
| MealPlannerState.MealPlanner.CategorizeList | src/components/features/meal-planner/MealPlanner.tsx:33-48 | stores the reconciled reply and lowers the categorizing flag; the book, list and selection do not change |
| MealPlannerState.MealPlanner.ShoppingListChanged | src/components/features/meal-planner/MealPlanner.tsx:50-56 | a non-empty list is categorized, an empty one clears the categorized list |
| DiscoverRecipes.ParseRecommendedLine | src/components/features/meal-planner/DiscoverRecipesCard.tsx:55-82 | the card's copy of the parser, with its defaults overwritten step by step, agrees with the recipe form's parser on every line |
| DiscoverRecipes.ServingsGuess | src/components/features/meal-planner/DiscoverRecipesCard.tsx:86 | 1 exactly when the lower-cased name contains "for one", and 2 otherwise |
| DiscoverRecipes.ParseRecommendedLines | src/components/features/meal-planner/DiscoverRecipesCard.tsx:54-83 | one parsed ingredient per line, in order, blank lines included |
| DiscoverRecipes.HandleAddRecipeClick | src/components/features/meal-planner/DiscoverRecipesCard.tsx:53-88 | `onAddRecipe` gets the dish's name unchanged, the guessed servings and the per-line ingredients |
| DiscoverRecipes.BlankLineIsEmptyIngredient | src/components/features/meal-planner/DiscoverRecipesCard.tsx:54-59 | with no blank filter, a blank line becomes {"", 1, ""} |
| DiscoverRecipes.ParsedLines | src/components/features/meal-planner/DiscoverRecipesCard.tsx:54 | one ingredient per line |
| DiscoverRecipes.AgreesWithForm | src/components/features/meal-planner/DiscoverRecipesCard.tsx:54-83 | for non-blank lines, the card gives the ingredients the recipe form gives for the same lines typed one per line |
| UrlImport.GetIngredientsFromUrl | src/app/actions.ts:5-34 | a missing or empty field gives the "required" message; an unparsable URL gives the "valid URL" message; success exactly when the fields are filled, the URL parses and the extractor returns a non-empty list, carrying the name and that list; a thrown extractor gives the "failed to extract" message; a missing or empty list gives the "could not find" message |
| UrlImport.MissingFieldsDecideFirst | src/app/actions.ts:9-11 | missing fields are reported whatever the URL parser and the extractor would do |
| UrlImport.InvalidUrlSkipsExtractor | src/app/actions.ts:13-18 | a rejected URL is reported whatever the extractor would do |
| UrlImport.OnlyTheFormUrlMatters | src/app/actions.ts:6-21 | the reply depends on the URL parser and the extractor only at the form's URL |
| UrlImport.FailureMessages | src/app/actions.ts:9-33 | every failure carries one of the four messages |
| WorkedCases.Salt | src/components/features/meal-planner/MealPlanner.tsx:60-66 | "salt" is {salt, 1, ""} |
| WorkedCases.ParseDigit | src/components/features/meal-planner/MealPlanner.tsx:71-73 | parseInt and parseFloat of one digit give its value |
| WorkedCases.TwoEggs | src/components/features/meal-planner/MealPlanner.tsx:76-78 | "2 eggs" is {"", 2, "eggs"} |
| WorkedCases.HalfCupFlour | src/components/features/meal-planner/MealPlanner.tsx:69-78 | "1/2 cup flour" is {flour, 0.5, cup} |
| WorkedCases.DigitFraction | src/components/features/meal-planner/MealPlanner.tsx:69-71 | a one-digit fraction divides the two digit values |
| WorkedCases.OneOverZero | src/components/features/meal-planner/MealPlanner.tsx:71 | "1/0" gives Infinity, not an error |
| WorkedCases.ZeroOverZero | src/components/features/meal-planner/MealPlanner.tsx:71 | "0/0" gives NaN |
| WorkedCases.NoNumerator | src/components/features/meal-planner/MealPlanner.tsx:70-71 | "/2" gives NaN |
| WorkedCases.LonePoint | src/components/features/meal-planner/MealPlanner.tsx:61-73 | "." matches the quantity pattern, and its parseFloat is NaN |

## Left out

- Rendering, toasts, dialogs and the `isClient` guard: they are presentation only.
- The AI flows (recommendation, categorization, extraction, nutrition): they are external services. The categorizer's reply and the extractor's result are parameters (`CategorizeResult`, `Extraction`).
- `src/app/actions.ts` defines only `getIngredientsFromUrlAction`. `getCategorizedShoppingListAction`, which MealPlanner.tsx imports, is not part of this model; its reply is a parameter.
- Persistence in localStorage: the constructor models a first visit with empty storage. Restoring stored values is not part of this model.
- **Ids.** `generateUniqueId` (a clock and a random number) is replaced by a fresh-id parameter, and the handlers require that it is not in use.
- **Asynchrony.** The categorizer call is modelled as a single step. The intermediate `isCategorizing = true` is not observable, and interleaving of overlapping requests is not modelled.
- **The effect.** The React effect on `shoppingList` is an explicit `ShoppingListChanged` call that the caller makes after a change.
- `MealPlannerState.MealPlanner.AddOrUpdateRecipe`: does not model its caller. `RecipeFormDialog` calls the three-argument handler with only a name and the ingredient text, so in the app `servings` would hold the text and `ingredientsStr` would be undefined. The model takes the three arguments the handler declares.
- `MealPlannerState.MealPlanner.ImportRecipe`: the URL import card passes `result.data.servings` and the action's string list as ingredients, although the action returns no servings. The model takes the handler's declared arguments.
- **The `isFormOpen` flag.** The form dialog closes itself via `setIsFormOpen`. The submit handler does not close it, and the model leaves the flag as it is.
- **The parser's try/catch.** `split`, `parseInt` and `parseFloat` never throw, so the fallback branch cannot run and is not modelled.
- `JsNumber.ParseFloat`: keeps the exact decimal value. It does not round to the nearest double, and does not overflow to Infinity for very large exponents.
- `JsNumber.ParseInt`: keeps the exact integer value of arbitrarily many digits, without rounding to a double.
- `JsNumber.Divide`: has no negative zero. A quantity prefix never carries a sign, so the parser never divides by -0.
- `ShoppingList.FlatItem`: number-to-text conversion (`${ing.quantity}`) is a parameter, not JavaScript's Number::toString.
- `JsString.Lower`: lower-cases the ASCII letters only. Unicode case mapping (for instance "İ", which grows when lower-cased) is not modelled.
- `ShoppingList.SortBy`: `localeCompare` is an abstract comparator that the state requires to be a total order. The sort is an insertion sort, and `SortedUnique` shows any correct sort gives the same list under such an order. Locale rules are not modelled.
- `DiscoverRecipes.HandleAddRecipeClick`: the recommendation's description and instructions are carried but not used, as in the source.
