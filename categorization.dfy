/**
  What the meal planner stores as the categorized shopping list once the categorizer has
  replied: the reply's data when it succeeded, and otherwise a single "Uncategorized"
  group holding the list as it was sent; an empty list clears the categorized list.
 */
module Categorization {
  import opened Wrappers
  import opened Types

  /** The categorizer's reply: whether it succeeded and the grouped list it returned, if any. */
  datatype CategorizeResult = CategorizeResult(success: bool, data: Option<CategorizedList>)

  /** The name of the fallback group. */
  const Uncategorized := "Uncategorized"

  /** Whether the reply is used as it is: a success that carries data. */
  predicate IsUsable(result: CategorizeResult) {
    result.success && result.data.Some?
  }

  /** The categorized list stored after the categorizer replied for `ingredients`. */
  function Reconciled(ingredients: seq<string>, result: CategorizeResult): CategorizedList {
    if IsUsable(result) then result.data.value
    else CategorizedList([CategoryGroup(Uncategorized, ingredients)])
  }

  /** Every item of a categorized list, group after group. */
  function AllItems(groups: seq<CategoryGroup>): seq<string> {
    if groups == [] then [] else groups[0].items + AllItems(groups[1..])
  }

  /** Flattening works group list by group list. */
  lemma {:induction false} AllItemsAppend(a: seq<CategoryGroup>, b: seq<CategoryGroup>)
    ensures AllItems(a + b) == AllItems(a) + AllItems(b)
  {
    if a == [] {
      assert a + b == b;
    } else {
      assert (a + b)[0] == a[0];
      assert (a + b)[1..] == a[1..] + b;
      AllItemsAppend(a[1..], b);
    }
  }

  /** An item is in the flattened list exactly when some group holds it. */
  lemma {:induction false} AllItemsMembership(groups: seq<CategoryGroup>, x: string)
    ensures x in AllItems(groups) <==> exists g :: 0 <= g < |groups| && x in groups[g].items
  {
    if groups != [] {
      AllItemsMembership(groups[1..], x);
      if x in AllItems(groups[1..]) {
        var g :| 0 <= g < |groups| - 1 && x in groups[1..][g].items;
        assert groups[g + 1] == groups[1..][g];
      }
      if exists g :: 0 <= g < |groups| && x in groups[g].items {
        var g :| 0 <= g < |groups| && x in groups[g].items;
        if g > 0 {
          assert groups[1..][g - 1] == groups[g];
        }
      }
    }
  }

  /** The categorized list after the shopping list changed to `list`: absent for an empty
      list, and otherwise what the categorizer's reply reconciles to. */
  function AfterListChange(list: seq<string>, result: CategorizeResult): Option<CategorizedList> {
    if |list| > 0 then Some(Reconciled(list, result)) else None
  }

  /** A usable reply is stored exactly as the categorizer returned it. */
  lemma UsableReplyKept(ingredients: seq<string>, result: CategorizeResult)
    requires IsUsable(result)
    ensures Reconciled(ingredients, result) == result.data.value
  {
  }

  /** Any other reply stores one group, "Uncategorized", which holds every item of the list
      in its order and nothing else. */
  lemma FallbackKeepsList(ingredients: seq<string>, result: CategorizeResult)
    requires !IsUsable(result)
    ensures var c := Reconciled(ingredients, result);
            |c.categories| == 1 && c.categories[0].category == Uncategorized
            && AllItems(c.categories) == ingredients
  {
    var groups := Reconciled(ingredients, result).categories;
    assert groups[1..] == [];
    assert AllItems(groups) == ingredients + [];
  }

  /** An empty list leaves no categorized list at all, not an empty group list, whatever
      the categorizer would have replied. */
  lemma EmptyListClears(result: CategorizeResult)
    ensures AfterListChange([], result) == None
    ensures AfterListChange([], result) != Some(CategorizedList([]))
  {
  }

  /** A non-empty list is always categorized, and the stored groups hold either the reply's
      data or the list itself. */
  lemma NonEmptyListCategorized(list: seq<string>, result: CategorizeResult)
    requires |list| > 0
    ensures AfterListChange(list, result).Some?
    ensures var c := AfterListChange(list, result).value;
            if IsUsable(result) then c == result.data.value else AllItems(c.categories) == list
  {
    if !IsUsable(result) {
      FallbackKeepsList(list, result);
    }
  }
}
