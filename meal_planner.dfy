/**
  The meal planner's state and its handlers: the recipe book, the recipes selected for the
  shopping list, the consolidated shopping list and its categorized form, and the recipe
  being edited in the form.
 */
module MealPlannerState {
  import opened Wrappers
  import opened JsNumber
  import opened Types
  import opened IngredientParser
  import opened RecipeBook
  import opened ShoppingList
  import opened Categorization

  class MealPlanner {
    var recipes: seq<Recipe>
    var shoppingList: seq<string>
    var categorizedList: Option<CategorizedList>
    var isCategorizing: bool
    var selectedRecipeIds: set<string>
    var editingRecipe: Option<Recipe>
    var isFormOpen: bool
    /** How a quantity is written when an ingredient becomes a shopping-list item. */
    const numberToString: Number -> string
    /** `le(a, b)` stands for `a.localeCompare(b) <= 0`. */
    const le: (string, string) -> bool

    /** The recipe ids are unique, the comparator is a total order, and the shopping list
        is consolidated: sorted, trimmed, and without two items of the same key. */
    ghost predicate Valid()
      reads this
    {
      UniqueIds(recipes) && IsTotalOrder(le) && IsConsolidated(shoppingList, le)
    }

    /** A first visit: everything empty, nothing selected, no form open. */
    constructor(numberToString: Number -> string, le: (string, string) -> bool)
      requires IsTotalOrder(le)
      ensures Valid()
      ensures recipes == [] && shoppingList == [] && categorizedList == None
      ensures !isCategorizing && selectedRecipeIds == {} && editingRecipe == None && !isFormOpen
      ensures this.numberToString == numberToString && this.le == le
    {
      this.numberToString := numberToString;
      this.le := le;
      recipes := [];
      shoppingList := [];
      categorizedList := None;
      isCategorizing := false;
      selectedRecipeIds := {};
      editingRecipe := None;
      isFormOpen := false;
    }

    /** Opens the recipe form, for a recipe to edit or (None) for a new one. */
    method OpenForm(recipe: Option<Recipe>)
      requires Valid()
      modifies this
      ensures Valid()
      ensures editingRecipe == recipe && isFormOpen
      ensures recipes == old(recipes) && shoppingList == old(shoppingList)
      ensures categorizedList == old(categorizedList) && isCategorizing == old(isCategorizing)
      ensures selectedRecipeIds == old(selectedRecipeIds)
    {
      editingRecipe := recipe;
      isFormOpen := true;
    }

    /** Submits the recipe form. When a recipe is being edited, the recipe with its id gets
        the new name, servings and ingredients and keeps its id and position; otherwise a new
        recipe with the fresh id is appended. The ingredient text is parsed line by line. */
    method AddOrUpdateRecipe(name: string, servings: Number, ingredientsStr: string, freshId: string)
      requires Valid()
      requires editingRecipe.None? ==> freshId !in Ids(recipes)
      modifies this
      ensures Valid()
      ensures var ingredients := ParseIngredientText(ingredientsStr);
              match old(editingRecipe)
              case Some(editing) =>
                recipes == Replaced(old(recipes), editing.id, Recipe(editing.id, name, servings, ingredients))
              case None =>
                recipes == old(recipes) + [Recipe(freshId, name, servings, ingredients)]
      ensures Ids(recipes) == if old(editingRecipe).Some? then Ids(old(recipes)) else Ids(old(recipes)) + [freshId]
      ensures editingRecipe == None
      ensures shoppingList == old(shoppingList) && categorizedList == old(categorizedList)
      ensures isCategorizing == old(isCategorizing) && selectedRecipeIds == old(selectedRecipeIds)
      ensures isFormOpen == old(isFormOpen)
    {
      var ingredients := ParseIngredientText(ingredientsStr);
      if editingRecipe.Some? {
        var updatedRecipe := editingRecipe.value.(name := name, servings := servings, ingredients := ingredients);
        ReplacedKeepsPositions(recipes, editingRecipe.value.id, updatedRecipe);
        assert UniqueIds(Replaced(recipes, editingRecipe.value.id, updatedRecipe)) by {
          var r := Replaced(recipes, editingRecipe.value.id, updatedRecipe);
          forall i, j | 0 <= i < j < |r| ensures r[i].id != r[j].id {
            assert Ids(r)[i] == Ids(recipes)[i] && Ids(r)[j] == Ids(recipes)[j];
          }
        }
        recipes := Replaced(recipes, editingRecipe.value.id, updatedRecipe);
      } else {
        var newRecipe := Recipe(freshId, name, servings, ingredients);
        AppendFresh(recipes, newRecipe);
        recipes := recipes + [newRecipe];
      }
      editingRecipe := None;
    }

    /** Adds an imported or recommended recipe, with the fresh id, at the end of the book. */
    method ImportRecipe(name: string, servings: Number, ingredients: seq<Ingredient>, freshId: string)
      requires Valid()
      requires freshId !in Ids(recipes)
      modifies this
      ensures Valid()
      ensures recipes == old(recipes) + [Recipe(freshId, name, servings, ingredients)]
      ensures Ids(recipes) == Ids(old(recipes)) + [freshId]
      ensures shoppingList == old(shoppingList) && categorizedList == old(categorizedList)
      ensures isCategorizing == old(isCategorizing) && selectedRecipeIds == old(selectedRecipeIds)
      ensures editingRecipe == old(editingRecipe) && isFormOpen == old(isFormOpen)
    {
      var newRecipe := Recipe(freshId, name, servings, ingredients);
      AppendFresh(recipes, newRecipe);
      recipes := recipes + [newRecipe];
    }

    /** Deletes the recipe with the id from the book and from the selection. */
    method DeleteRecipe(id: string)
      requires Valid()
      modifies this
      ensures Valid()
      ensures recipes == Removed(old(recipes), id)
      ensures id !in Ids(recipes) && id !in selectedRecipeIds
      ensures forall r :: r in recipes <==> r in old(recipes) && r.id != id
      ensures selectedRecipeIds == old(selectedRecipeIds) - {id}
      ensures shoppingList == old(shoppingList) && categorizedList == old(categorizedList)
      ensures isCategorizing == old(isCategorizing)
      ensures editingRecipe == old(editingRecipe) && isFormOpen == old(isFormOpen)
    {
      RemovedKeepsOthers(recipes, id);
      RemovedKeepsUnique(recipes, id);
      recipes := Removed(recipes, id);
      var newSet := selectedRecipeIds;
      newSet := newSet - {id};
      selectedRecipeIds := newSet;
    }

    /** Selects the recipe with the id when it is not selected, and deselects it when it is. */
    method ToggleRecipeSelection(id: string)
      requires Valid()
      modifies this
      ensures Valid()
      ensures selectedRecipeIds == Toggled(old(selectedRecipeIds), id)
      ensures id in selectedRecipeIds <==> id !in old(selectedRecipeIds)
      ensures recipes == old(recipes) && shoppingList == old(shoppingList)
      ensures categorizedList == old(categorizedList) && isCategorizing == old(isCategorizing)
      ensures editingRecipe == old(editingRecipe) && isFormOpen == old(isFormOpen)
    {
      var newSet := selectedRecipeIds;
      if id in newSet {
        newSet := newSet - {id};
      } else {
        newSet := newSet + {id};
      }
      selectedRecipeIds := newSet;
    }

    /** Merges the ingredients of the selected recipes into the shopping list and clears the
        selection; `considered` is the number of ingredients taken from the recipes. With
        nothing selected the list stays as it was. */
    method GenerateShoppingList() returns (considered: nat)
      requires Valid()
      modifies this
      ensures Valid()
      ensures var items := SelectedItems(old(recipes), old(selectedRecipeIds), numberToString);
              shoppingList == Consolidate(old(shoppingList), items, le) && considered == |items|
      ensures considered == SelectedIngredientCount(old(recipes), old(selectedRecipeIds))
      ensures old(selectedRecipeIds) == {} ==> shoppingList == old(shoppingList)
      ensures selectedRecipeIds == {}
      ensures recipes == old(recipes) && categorizedList == old(categorizedList)
      ensures isCategorizing == old(isCategorizing)
      ensures editingRecipe == old(editingRecipe) && isFormOpen == old(isFormOpen)
    {
      var ingredientsFromSelectedRecipes := SelectedItems(recipes, selectedRecipeIds, numberToString);
      SelectedItemsCount(recipes, selectedRecipeIds, numberToString);
      if selectedRecipeIds == {} {
        SelectedItemsNone(recipes, numberToString);
        ConsolidateFixpoint(shoppingList, le);
      }
      ConsolidateIsConsolidated(shoppingList, ingredientsFromSelectedRecipes, le);
      shoppingList := ConsolidateList(shoppingList, ingredientsFromSelectedRecipes, le);
      considered := |ingredientsFromSelectedRecipes|;
      selectedRecipeIds := {};
    }

    /** Empties the shopping list and drops its categorized form. */
    method ClearShoppingList()
      requires Valid()
      modifies this
      ensures Valid()
      ensures shoppingList == [] && categorizedList == None
      ensures recipes == old(recipes) && selectedRecipeIds == old(selectedRecipeIds)
      ensures isCategorizing == old(isCategorizing)
      ensures editingRecipe == old(editingRecipe) && isFormOpen == old(isFormOpen)
    {
      shoppingList := [];
      categorizedList := None;
    }

    /** Categorizes `ingredients`, with `result` as the categorizer's reply: the reply's data
        is stored when usable, the single "Uncategorized" group otherwise, and the
        categorizing flag is down again at the end. */
    method CategorizeList(ingredients: seq<string>, result: CategorizeResult)
      requires Valid()
      modifies this
      ensures Valid()
      ensures categorizedList == Some(Reconciled(ingredients, result))
      ensures !isCategorizing
      ensures recipes == old(recipes) && shoppingList == old(shoppingList)
      ensures selectedRecipeIds == old(selectedRecipeIds)
      ensures editingRecipe == old(editingRecipe) && isFormOpen == old(isFormOpen)
    {
      isCategorizing := true;
      if IsUsable(result) {
        categorizedList := Some(result.data.value);
      } else {
        categorizedList := Some(CategorizedList([CategoryGroup(Uncategorized, ingredients)]));
      }
      isCategorizing := false;
    }

    /** The effect that follows every change of the shopping list: a non-empty list is sent
        to the categorizer (whose reply is `result`), an empty one clears the categorized list. */
    method ShoppingListChanged(result: CategorizeResult)
      requires Valid()
      modifies this
      ensures Valid()
      ensures categorizedList == AfterListChange(shoppingList, result)
      ensures |shoppingList| > 0 ==> !isCategorizing
      ensures |shoppingList| == 0 ==> isCategorizing == old(isCategorizing)
      ensures recipes == old(recipes) && shoppingList == old(shoppingList)
      ensures selectedRecipeIds == old(selectedRecipeIds)
      ensures editingRecipe == old(editingRecipe) && isFormOpen == old(isFormOpen)
    {
      if |shoppingList| > 0 {
        CategorizeList(shoppingList, result);
      } else {
        categorizedList := None;
      }
    }
  }
}
