/**
  The recipe book and the recipe selection as values: appending a new recipe, replacing
  the edited one (`map` over the recipes), removing a deleted one (`filter`), and
  toggling an id in the selection.
 */
module RecipeBook {
  import opened Types

  /** The ids of the recipes, in book order. */
  function Ids(recipes: seq<Recipe>): (ids: seq<string>)
    ensures |ids| == |recipes|
  {
    seq(|recipes|, i requires 0 <= i < |recipes| => recipes[i].id)
  }

  /** No two recipes of the book share an id. */
  predicate UniqueIds(recipes: seq<Recipe>) {
    forall i, j :: 0 <= i < j < |recipes| ==> recipes[i].id != recipes[j].id
  }

  /** `prev.map(r => r.id === id ? updated : r)`. */
  function Replaced(recipes: seq<Recipe>, id: string, updated: Recipe): (r: seq<Recipe>)
    ensures |r| == |recipes|
  {
    seq(|recipes|, i requires 0 <= i < |recipes| => if recipes[i].id == id then updated else recipes[i])
  }

  /** `prev.filter(r => r.id !== id)`. */
  function Removed(recipes: seq<Recipe>, id: string): (r: seq<Recipe>)
    ensures |r| <= |recipes|
  {
    if recipes == [] then []
    else
      var rest := Removed(recipes[1..], id);
      if recipes[0].id != id then [recipes[0]] + rest else rest
  }

  /** Copying the selection and adding the id when absent, deleting it when present. */
  function Toggled(selected: set<string>, id: string): set<string> {
    if id in selected then selected - {id} else selected + {id}
  }

  /** Toggling turns the membership of exactly that id around. */
  lemma ToggledFlips(selected: set<string>, id: string)
    ensures id in Toggled(selected, id) <==> id !in selected
    ensures forall other :: other != id ==> (other in Toggled(selected, id) <==> other in selected)
  {
  }

  /** Toggling the same id twice gives the selection back. */
  lemma ToggleTwice(selected: set<string>, id: string)
    ensures Toggled(Toggled(selected, id), id) == selected
  {
  }

  /** Appending a recipe with an unused id keeps the ids unique. */
  lemma AppendFresh(recipes: seq<Recipe>, r: Recipe)
    requires UniqueIds(recipes)
    requires r.id !in Ids(recipes)
    ensures UniqueIds(recipes + [r])
    ensures Ids(recipes + [r]) == Ids(recipes) + [r.id]
  {
    forall i | 0 <= i < |recipes| ensures recipes[i].id != r.id {
      assert Ids(recipes)[i] == recipes[i].id;
    }
  }

  /** Editing keeps every position of the book: the recipe whose id matches becomes the
      updated one, and when the updated recipe keeps that id the ids are unchanged. */
  lemma ReplacedKeepsPositions(recipes: seq<Recipe>, id: string, updated: Recipe)
    ensures forall i :: 0 <= i < |recipes| && recipes[i].id != id ==> Replaced(recipes, id, updated)[i] == recipes[i]
    ensures forall i :: 0 <= i < |recipes| && recipes[i].id == id ==> Replaced(recipes, id, updated)[i] == updated
    ensures updated.id == id ==> Ids(Replaced(recipes, id, updated)) == Ids(recipes)
  {
  }

  /** In a book with unique ids, editing the recipe at position k changes that position only. */
  lemma ReplacedIsUpdateAt(recipes: seq<Recipe>, k: nat, updated: Recipe)
    requires UniqueIds(recipes)
    requires k < |recipes|
    ensures Replaced(recipes, recipes[k].id, updated) == recipes[k := updated]
  {
    var r := Replaced(recipes, recipes[k].id, updated);
    forall i | 0 <= i < |recipes| ensures r[i] == recipes[k := updated][i] {
      if i != k {
        assert i < k ==> recipes[i].id != recipes[k].id;
        assert i > k ==> recipes[k].id != recipes[i].id;
      }
    }
  }

  /** Deleting keeps exactly the recipes with another id, in their order. */
  lemma {:induction false} RemovedKeepsOthers(recipes: seq<Recipe>, id: string)
    ensures forall r :: r in Removed(recipes, id) <==> r in recipes && r.id != id
    ensures id !in Ids(Removed(recipes, id))
  {
    if recipes != [] {
      RemovedKeepsOthers(recipes[1..], id);
      assert recipes == [recipes[0]] + recipes[1..];
    }
    var r := Removed(recipes, id);
    forall i | 0 <= i < |r| ensures Ids(r)[i] != id {
      assert r[i] in r;
    }
  }

  /** Deleting an id the book does not hold leaves it unchanged. */
  lemma {:induction false} RemovedAbsent(recipes: seq<Recipe>, id: string)
    requires forall i :: 0 <= i < |recipes| ==> recipes[i].id != id
    ensures Removed(recipes, id) == recipes
  {
    if recipes != [] {
      assert forall i :: 0 <= i < |recipes| - 1 ==> recipes[1..][i] == recipes[i + 1];
      RemovedAbsent(recipes[1..], id);
      assert recipes == [recipes[0]] + recipes[1..];
    }
  }

  /** Removing works piece by piece. */
  lemma {:induction false} RemovedAppend(a: seq<Recipe>, b: seq<Recipe>, id: string)
    ensures Removed(a + b, id) == Removed(a, id) + Removed(b, id)
  {
    if a == [] {
      assert a + b == b;
    } else {
      assert (a + b)[0] == a[0];
      assert (a + b)[1..] == a[1..] + b;
      RemovedAppend(a[1..], b, id);
    }
  }

  /** In a book with unique ids, the recipes before and after position k have other ids. */
  lemma OthersHaveOtherIds(recipes: seq<Recipe>, k: nat, pre: seq<Recipe>, post: seq<Recipe>)
    requires UniqueIds(recipes)
    requires k < |recipes| && pre == recipes[..k] && post == recipes[k + 1..]
    ensures forall i :: 0 <= i < |pre| ==> pre[i].id != recipes[k].id
    ensures forall i :: 0 <= i < |post| ==> post[i].id != recipes[k].id
  {
    forall i | 0 <= i < |pre| ensures pre[i].id != recipes[k].id {
      assert pre[i] == recipes[i];
    }
    forall i | 0 <= i < |post| ensures post[i].id != recipes[k].id {
      assert post[i] == recipes[k + 1 + i];
    }
  }

  /** In a book with unique ids, deleting the recipe at position k takes out that position only. */
  lemma RemovedIsDeleteAt(recipes: seq<Recipe>, k: nat)
    requires UniqueIds(recipes)
    requires k < |recipes|
    ensures Removed(recipes, recipes[k].id) == recipes[..k] + recipes[k + 1..]
  {
    var id := recipes[k].id;
    var pre, post := recipes[..k], recipes[k + 1..];
    assert recipes == (pre + [recipes[k]]) + post;
    RemovedAppend(pre + [recipes[k]], post, id);
    RemovedAppend(pre, [recipes[k]], id);
    assert Removed([recipes[k]], id) == [] by {
      assert [recipes[k]][1..] == [];
    }
    OthersHaveOtherIds(recipes, k, pre, post);
    RemovedAbsent(pre, id);
    RemovedAbsent(post, id);
    assert Removed(pre + [recipes[k]], id) == pre + [];
    assert pre + [] == pre;
  }

  /** Deleting keeps the ids unique. */
  lemma {:induction false} RemovedKeepsUnique(recipes: seq<Recipe>, id: string)
    requires UniqueIds(recipes)
    ensures UniqueIds(Removed(recipes, id))
  {
    if recipes != [] {
      RemovedKeepsUnique(recipes[1..], id);
      RemovedKeepsOthers(recipes[1..], id);
      var rest := Removed(recipes[1..], id);
      if recipes[0].id != id {
        forall j | 0 <= j < |rest| ensures recipes[0].id != rest[j].id {
          assert rest[j] in rest;
          var m :| 0 <= m < |recipes[1..]| && recipes[1..][m] == rest[j];
          assert recipes[1 + m] == rest[j];
        }
      }
    }
  }
}
