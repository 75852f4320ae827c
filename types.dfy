/** The records the meal planner passes around: ingredients, recipes and the grouped
    shopping list returned by the categorizer. */
module Types {
  import opened JsNumber

  /** One ingredient of a recipe; `unit` is empty when there is none. */
  datatype Ingredient = Ingredient(name: string, quantity: Number, unit: string)

  /** A recipe of the recipe book; `id` is assigned when the recipe is created. */
  datatype Recipe = Recipe(id: string, name: string, servings: Number, ingredients: seq<Ingredient>)

  /** One aisle of the categorized shopping list. */
  datatype CategoryGroup = CategoryGroup(category: string, items: seq<string>)

  /** The categorized shopping list. */
  datatype CategorizedList = CategorizedList(categories: seq<CategoryGroup>)
}
