/**
  Generating the consolidated shopping list. The ingredients of the selected recipes are
  flattened to display strings and appended to the current list; exact duplicates are
  dropped (a Set), then a Map keyed by the lower-cased, trimmed item keeps the trimmed
  form of the first item with each key, and the kept items are sorted with the string
  comparator.
 */
module ShoppingList {
  import opened JsString
  import opened JsNumber
  import opened Types

  // ---------------------------------------------------------------------------------
  // Flattening the selected recipes

  /** `${ing.quantity} ${ing.unit} ${ing.name}`.trim(), with the number-to-text conversion
      as a parameter. */
  function FlatItem(ing: Ingredient, numberToString: Number -> string): (item: string)
    ensures Trim(item) == item
  {
    var text := numberToString(ing.quantity) + " " + ing.unit + " " + ing.name;
    TrimIdempotent(text);
    Trim(text)
  }

  /** The flattened ingredients of one recipe, in order. */
  function FlatItems(ings: seq<Ingredient>, numberToString: Number -> string): (items: seq<string>)
    ensures |items| == |ings|
  {
    seq(|ings|, i requires 0 <= i < |ings| => FlatItem(ings[i], numberToString))
  }

  /** The recipes whose id is selected, in book order, with their ingredients flattened
      one after the other. */
  function SelectedItems(recipes: seq<Recipe>, selected: set<string>, numberToString: Number -> string): seq<string> {
    if recipes == [] then []
    else
      (if recipes[0].id in selected then FlatItems(recipes[0].ingredients, numberToString) else [])
      + SelectedItems(recipes[1..], selected, numberToString)
  }

  /** The items of two books one after the other are the items of the first book
      followed by those of the second: book order is kept. */
  lemma {:induction false} SelectedItemsAppend(a: seq<Recipe>, b: seq<Recipe>, selected: set<string>, numberToString: Number -> string)
    ensures SelectedItems(a + b, selected, numberToString)
         == SelectedItems(a, selected, numberToString) + SelectedItems(b, selected, numberToString)
  {
    if a == [] {
      assert a + b == b;
    } else {
      assert (a + b)[0] == a[0];
      assert (a + b)[1..] == a[1..] + b;
      SelectedItemsAppend(a[1..], b, selected, numberToString);
    }
  }

  /** One recipe contributes its flattened ingredients, in order, when selected, and
      nothing otherwise. */
  lemma SelectedItemsOne(r: Recipe, selected: set<string>, numberToString: Number -> string)
    ensures SelectedItems([r], selected, numberToString)
         == if r.id in selected then FlatItems(r.ingredients, numberToString) else []
  {
    assert [r][1..] == [];
  }

  /** Item k of a recipe's flattened list is the flattened ingredient k. */
  lemma FlatItemsAt(ings: seq<Ingredient>, numberToString: Number -> string, k: nat)
    requires k < |ings|
    ensures FlatItems(ings, numberToString)[k] == FlatItem(ings[k], numberToString)
  {
  }

  /** With nothing selected there is nothing to add. */
  lemma {:induction false} SelectedItemsNone(recipes: seq<Recipe>, numberToString: Number -> string)
    ensures SelectedItems(recipes, {}, numberToString) == []
  {
    if recipes != [] {
      SelectedItemsNone(recipes[1..], numberToString);
    }
  }

  /** The ingredients of each selected recipe are all considered, those of the other recipes not. */
  lemma {:induction false} SelectedItemsCount(recipes: seq<Recipe>, selected: set<string>, numberToString: Number -> string)
    ensures |SelectedItems(recipes, selected, numberToString)| == SelectedIngredientCount(recipes, selected)
  {
    if recipes != [] {
      SelectedItemsCount(recipes[1..], selected, numberToString);
    }
  }

  /** The number of ingredients in the selected recipes. */
  function SelectedIngredientCount(recipes: seq<Recipe>, selected: set<string>): nat {
    if recipes == [] then 0
    else (if recipes[0].id in selected then |recipes[0].ingredients| else 0)
         + SelectedIngredientCount(recipes[1..], selected)
  }

  // ---------------------------------------------------------------------------------
  // Dropping exact duplicates: `[...new Set(items)]`

  predicate NoDuplicates(s: seq<string>) {
    forall i, j :: 0 <= i < j < |s| ==> s[i] != s[j]
  }

  /** The items in first-occurrence order, each once. */
  function Distinct(items: seq<string>): seq<string> {
    if items == [] then []
    else
      var d := Distinct(items[..|items| - 1]);
      var x := items[|items| - 1];
      if x in d then d else d + [x]
  }

  /** The Set keeps every item and only those, and holds each once. */
  lemma {:induction false} DistinctSpec(items: seq<string>)
    ensures forall x :: x in Distinct(items) <==> x in items
    ensures NoDuplicates(Distinct(items))
  {
    if items != [] {
      var p := items[..|items| - 1];
      DistinctSpec(p);
      assert items == p + [items[|items| - 1]];
    }
  }

  /** A list without duplicates goes through the Set unchanged. */
  lemma {:induction false} DistinctOfNoDuplicates(items: seq<string>)
    requires NoDuplicates(items)
    ensures Distinct(items) == items
  {
    if items != [] {
      var p := items[..|items| - 1];
      DistinctOfNoDuplicates(p);
      assert items[|items| - 1] !in p;
      assert items == p + [items[|items| - 1]];
    }
  }

  // ---------------------------------------------------------------------------------
  // The first-wins Map

  /** `item.toLowerCase().trim()`: the key under which items are merged. */
  function Key(item: string): string {
    Trim(Lower(item))
  }

  /** Trimming an item does not change its key. */
  lemma KeyOfTrimmed(item: string)
    ensures Key(Trim(item)) == Key(item)
  {
    LowerTrimCommute(item);
    LowerTrimCommute(Trim(item));
    TrimIdempotent(item);
    TrimIdempotent(Lower(item));
  }

  /** One entry of the Map: the key and the item stored under it. */
  datatype Entry = Entry(key: string, value: string)

  /** What the forEach would store for an item: its key and its trimmed form. */
  function Candidate(item: string): (e: Entry)
    ensures Key(e.value) == e.key
    ensures Trim(e.value) == e.value
  {
    KeyOfTrimmed(item);
    TrimIdempotent(item);
    Entry(Key(item), Trim(item))
  }

  function Candidates(items: seq<string>): (cs: seq<Entry>)
    ensures |cs| == |items|
  {
    seq(|items|, i requires 0 <= i < |items| => Candidate(items[i]))
  }

  function KeysOf(es: seq<Entry>): (ks: seq<string>)
    ensures |ks| == |es|
  {
    seq(|es|, j requires 0 <= j < |es| => es[j].key)
  }

  function ValuesOf(es: seq<Entry>): (vs: seq<string>)
    ensures |vs| == |es|
  {
    seq(|es|, j requires 0 <= j < |es| => es[j].value)
  }

  /** The entries of the Map after the forEach over the candidates, in insertion order:
      a candidate is stored when its key is not empty and not yet present. */
  function FirstWins(cands: seq<Entry>): (es: seq<Entry>)
    ensures forall i, j :: 0 <= i < j < |es| ==> es[i].key != es[j].key
    ensures forall j :: 0 <= j < |es| ==> es[j].key != ""
    ensures |es| <= |cands|
  {
    if cands == [] then []
    else
      var es := FirstWins(cands[..|cands| - 1]);
      var e := cands[|cands| - 1];
      if e.key != "" && e.key !in KeysOf(es) then
        assert forall j :: 0 <= j < |es| ==> es[j].key != e.key by {
          forall j | 0 <= j < |es| ensures es[j].key != e.key {
            assert KeysOf(es)[j] == es[j].key;
          }
        }
        es + [e]
      else
        es
  }

  /** The index of the first candidate with key `k`, or |cands| when there is none. */
  function FirstWith(cands: seq<Entry>, k: string): (f: nat)
    ensures f <= |cands|
    ensures f < |cands| ==> cands[f].key == k
    ensures forall i :: 0 <= i < f && i < |cands| ==> cands[i].key != k
  {
    if cands == [] then 0
    else
      var p := cands[..|cands| - 1];
      var f := FirstWith(p, k);
      assert forall i :: 0 <= i < |p| ==> cands[i] == p[i];
      if f < |p| then f
      else if cands[|cands| - 1].key == k then |p|
      else |cands|
  }

  /** The position of the first item whose key is `k`, or |items| when there is none. */
  function FirstItemWith(items: seq<string>, k: string): (f: nat)
    ensures f <= |items|
    ensures f < |items| ==> Key(items[f]) == k
    ensures forall i :: 0 <= i < f && i < |items| ==> Key(items[i]) != k
  {
    var cs := Candidates(items);
    assert forall i :: 0 <= i < |items| ==> cs[i].key == Key(items[i]);
    FirstWith(cs, k)
  }

  /** Every candidate with a non-empty key has its key in the Map. */
  lemma {:induction false} FirstWinsComplete(cands: seq<Entry>, i: nat)
    requires i < |cands| && cands[i].key != ""
    ensures cands[i].key in KeysOf(FirstWins(cands))
  {
    var p := cands[..|cands| - 1];
    var es := FirstWins(p);
    var k := cands[i].key;
    var whole := FirstWins(cands);
    assert whole == es || whole == es + [cands[|cands| - 1]];
    if k in KeysOf(es) || i < |p| {
      if i < |p| {
        assert p[i] == cands[i];
        FirstWinsComplete(p, i);
      }
      var j :| 0 <= j < |es| && KeysOf(es)[j] == k;
      assert whole[j] == es[j];
      assert KeysOf(whole)[j] == k;
    } else {
      assert KeysOf(whole)[|es|] == k;
    }
  }

  /** Every entry of the Map is the first candidate with its key. */
  lemma {:induction false} FirstWinsSound(cands: seq<Entry>, j: nat)
    requires j < |FirstWins(cands)|
    ensures var e := FirstWins(cands)[j];
            FirstWith(cands, e.key) < |cands| && e == cands[FirstWith(cands, e.key)]
  {
    var p := cands[..|cands| - 1];
    var es := FirstWins(p);
    var e := FirstWins(cands)[j];
    if j < |es| {
      assert e == es[j];
      FirstWinsSound(p, j);
      assert p[FirstWith(p, e.key)] == cands[FirstWith(p, e.key)];
    } else {
      assert FirstWins(cands) == es + [e];
      assert e.key !in KeysOf(es);
      if FirstWith(p, e.key) < |p| {
        FirstWinsComplete(p, FirstWith(p, e.key));
        assert false;
      }
    }
  }

  /** Candidates with non-empty, pairwise different keys are all stored, in order. */
  lemma {:induction false} FirstWinsKeepsAll(cands: seq<Entry>)
    requires forall i :: 0 <= i < |cands| ==> cands[i].key != ""
    requires forall i, j :: 0 <= i < j < |cands| ==> cands[i].key != cands[j].key
    ensures FirstWins(cands) == cands
  {
    if cands != [] {
      var p := cands[..|cands| - 1];
      var e := cands[|cands| - 1];
      FirstWinsKeepsAll(p);
      assert cands == p + [e];
    }
  }

  lemma CandidatesSnoc(items: seq<string>, x: string)
    ensures Candidates(items + [x]) == Candidates(items) + [Candidate(x)]
  {
  }

  /** One more candidate through the forEach. */
  lemma FirstWinsSnoc(cs: seq<Entry>, e: Entry)
    ensures var es := FirstWins(cs);
            FirstWins(cs + [e]) == if e.key != "" && e.key !in KeysOf(es) then es + [e] else es
  {
    assert (cs + [e])[..|cs|] == cs;
  }

  /** The Set step changes nothing that the Map would keep. */
  lemma {:induction false} FirstWinsOfDistinct(items: seq<string>)
    ensures FirstWins(Candidates(Distinct(items))) == FirstWins(Candidates(items))
  {
    if items != [] {
      var p := items[..|items| - 1];
      var x := items[|items| - 1];
      var d := Distinct(p);
      assert items == p + [x];
      FirstWinsOfDistinct(p);
      CandidatesSnoc(p, x);
      FirstWinsSnoc(Candidates(p), Candidate(x));
      if x in d {
        DistinctSpec(p);
        var i :| 0 <= i < |p| && p[i] == x;
        assert Candidates(p)[i] == Candidate(x);
        if Candidate(x).key != "" {
          FirstWinsComplete(Candidates(p), i);
        }
      } else {
        CandidatesSnoc(d, x);
        FirstWinsSnoc(Candidates(d), Candidate(x));
      }
    }
  }

  // ---------------------------------------------------------------------------------
  // Sorting with the comparator

  /** `le(a, b)` stands for `a.localeCompare(b) <= 0`; it is assumed to be a total order. */
  ghost predicate IsTotalOrder(le: (string, string) -> bool) {
    && IsTotal(le)
    && (forall a, b :: le(a, b) && le(b, a) ==> a == b)
    && IsTransitive(le)
  }

  ghost predicate IsTransitive(le: (string, string) -> bool) {
    forall a, b, c :: le(a, b) && le(b, c) ==> le(a, c)
  }

  /** Any two strings are comparable (so every string is comparable with itself). */
  ghost predicate IsTotal(le: (string, string) -> bool) {
    forall a, b :: le(a, b) || le(b, a)
  }

  predicate SortedBy(le: (string, string) -> bool, s: seq<string>) {
    forall i, j :: 0 <= i < j < |s| ==> le(s[i], s[j])
  }

  /** Inserts `x` before the first element it does not follow. */
  function Insert(x: string, s: seq<string>, le: (string, string) -> bool): (r: seq<string>)
    ensures multiset(r) == multiset(s) + multiset{x}
  {
    if s == [] then [x]
    else if le(x, s[0]) then [x] + s
    else
      assert s == [s[0]] + s[1..];
      [s[0]] + Insert(x, s[1..], le)
  }

  /** Inserting into a sorted list keeps it sorted. */
  lemma {:induction false} InsertSorted(x: string, s: seq<string>, le: (string, string) -> bool)
    requires IsTotal(le) && IsTransitive(le) && SortedBy(le, s)
    ensures SortedBy(le, Insert(x, s, le))
  {
    if s != [] && !le(x, s[0]) {
      var rest := Insert(x, s[1..], le);
      InsertSorted(x, s[1..], le);
      assert le(s[0], x);
      forall j | 0 <= j < |rest| ensures le(s[0], rest[j]) {
        assert rest[j] in multiset(rest);
        if rest[j] != x {
          assert rest[j] in multiset(s[1..]);
          var k :| 0 <= k < |s[1..]| && s[1..][k] == rest[j];
          assert s[1 + k] == rest[j];
        }
      }
    }
  }

  /** Inserting a new element into a list without duplicates gives a list without duplicates. */
  lemma {:induction false} InsertNoDuplicates(x: string, s: seq<string>, le: (string, string) -> bool)
    requires NoDuplicates(s) && x !in s
    ensures NoDuplicates(Insert(x, s, le))
  {
    if s != [] && !le(x, s[0]) {
      var rest := Insert(x, s[1..], le);
      InsertNoDuplicates(x, s[1..], le);
      forall j | 0 <= j < |rest| ensures s[0] != rest[j] {
        assert rest[j] in multiset(rest);
        if rest[j] != x {
          assert rest[j] in multiset(s[1..]);
          var k :| 0 <= k < |s[1..]| && s[1..][k] == rest[j];
          assert s[1 + k] == rest[j];
        }
      }
    }
  }

  /** `Array.prototype.sort` with the comparator, as an insertion sort. */
  function SortBy(s: seq<string>, le: (string, string) -> bool): (r: seq<string>)
    ensures multiset(r) == multiset(s)
  {
    if s == [] then []
    else
      assert s == [s[0]] + s[1..];
      Insert(s[0], SortBy(s[1..], le), le)
  }

  /** Under a total order the sorted list is sorted. */
  lemma {:induction false} SortByIsSorted(s: seq<string>, le: (string, string) -> bool)
    requires IsTotal(le) && IsTransitive(le)
    ensures SortedBy(le, SortBy(s, le))
  {
    if s != [] {
      SortByIsSorted(s[1..], le);
      InsertSorted(s[0], SortBy(s[1..], le), le);
    }
  }

  /** Sorting a list without duplicates gives a list without duplicates. */
  lemma {:induction false} SortByNoDuplicates(s: seq<string>, le: (string, string) -> bool)
    requires NoDuplicates(s)
    ensures NoDuplicates(SortBy(s, le))
  {
    if s != [] {
      assert NoDuplicates(s[1..]) by {
        forall i, j | 0 <= i < j < |s[1..]| ensures s[1..][i] != s[1..][j] {
          assert s[1..][i] == s[i + 1] && s[1..][j] == s[j + 1];
        }
      }
      SortByNoDuplicates(s[1..], le);
      var rest := SortBy(s[1..], le);
      assert s[0] !in multiset(rest);
      InsertNoDuplicates(s[0], rest, le);
    }
  }

  /** Sorting a sorted list changes nothing. */
  lemma {:induction false} SortBySorted(s: seq<string>, le: (string, string) -> bool)
    requires SortedBy(le, s)
    ensures SortBy(s, le) == s
  {
    if s != [] {
      SortBySorted(s[1..], le);
      if |s| > 1 {
        assert le(s[0], s[1]);
      }
    }
  }

  /** Equal multisets with equal heads have equal tails. */
  lemma MultisetTail(a: seq<string>, b: seq<string>)
    requires |a| > 0 && |b| > 0 && a[0] == b[0] && multiset(a) == multiset(b)
    ensures multiset(a[1..]) == multiset(b[1..])
  {
    assert a == [a[0]] + a[1..];
    assert b == [b[0]] + b[1..];
    assert multiset(a) == multiset{a[0]} + multiset(a[1..]);
    assert multiset(b) == multiset{a[0]} + multiset(b[1..]);
    forall x ensures multiset(a[1..])[x] == multiset(b[1..])[x] {
      assert multiset(a)[x] == multiset{a[0]}[x] + multiset(a[1..])[x];
      assert multiset(b)[x] == multiset{a[0]}[x] + multiset(b[1..])[x];
    }
  }

  /** Under a total order there is only one sorted arrangement of a list, so every
      correct sorting algorithm gives the result of SortBy. */
  lemma {:induction false} SortedUnique(a: seq<string>, b: seq<string>, le: (string, string) -> bool)
    requires IsTotalOrder(le)
    requires SortedBy(le, a) && SortedBy(le, b) && multiset(a) == multiset(b)
    ensures a == b
  {
    assert |a| == |b| by {
      assert |multiset(a)| == |a| && |multiset(b)| == |b|;
    }
    if a != [] {
      assert a[0] in multiset(b) && b[0] in multiset(a);
      var i :| 0 <= i < |b| && b[i] == a[0];
      var j :| 0 <= j < |a| && a[j] == b[0];
      assert le(b[0], a[0]) by { if i > 0 { assert le(b[0], b[i]); } }
      assert le(a[0], b[0]) by { if j > 0 { assert le(a[0], a[j]); } }
      assert a[0] == b[0];
      MultisetTail(a, b);
      SortedUnique(a[1..], b[1..], le);
    }
  }

  // ---------------------------------------------------------------------------------
  // The consolidated list

  /** The shopping list computed from the previous list and the flattened selection. */
  function Consolidate(prevList: seq<string>, incoming: seq<string>, le: (string, string) -> bool): seq<string> {
    SortBy(ValuesOf(FirstWins(Candidates(Distinct(prevList + incoming)))), le)
  }

  /** A list as the generator leaves it: sorted, every item trimmed with a non-empty key,
      and no two items with the same key. */
  ghost predicate IsConsolidated(list: seq<string>, le: (string, string) -> bool) {
    && SortedBy(le, list)
    && (forall i :: 0 <= i < |list| ==> Trim(list[i]) == list[i] && Key(list[i]) != "")
    && (forall i, j :: 0 <= i < j < |list| ==> Key(list[i]) != Key(list[j]))
  }

  /** The items the Map keeps from `c`, in insertion order. */
  function Kept(c: seq<string>): seq<string> {
    ValuesOf(FirstWins(Candidates(c)))
  }

  /** Every kept item is the trimmed form of the first item with its key, and its key is not empty. */
  lemma KeptSound(c: seq<string>, j: nat)
    requires j < |Kept(c)|
    ensures var x, f := Kept(c)[j], FirstItemWith(c, Key(Kept(c)[j]));
            Key(x) != "" && Key(x) == FirstWins(Candidates(c))[j].key && f < |c| && x == Trim(c[f])
  {
    FirstWinsSound(Candidates(c), j);
  }

  /** No two kept items share a key (so none is kept twice). */
  lemma KeptKeysUnique(c: seq<string>)
    ensures forall a, b :: 0 <= a < b < |Kept(c)| ==> Key(Kept(c)[a]) != Key(Kept(c)[b])
    ensures NoDuplicates(Kept(c))
  {
    forall a, b | 0 <= a < b < |Kept(c)| ensures Key(Kept(c)[a]) != Key(Kept(c)[b]) {
      KeptSound(c, a);
      KeptSound(c, b);
    }
  }

  /** Every item with a non-empty key is represented by the first item with that key. */
  lemma KeptComplete(c: seq<string>, i: nat)
    requires i < |c| && Key(c[i]) != ""
    ensures Trim(c[FirstItemWith(c, Key(c[i]))]) in Kept(c)
  {
    var cs := Candidates(c);
    var es := FirstWins(cs);
    assert cs[i].key == Key(c[i]);
    FirstWinsComplete(cs, i);
    var j :| 0 <= j < |es| && KeysOf(es)[j] == Key(c[i]);
    KeptSound(c, j);
    assert Kept(c)[j] in Kept(c);
  }

  /** The generated list holds the kept items of the previous list followed by the new
      items, sorted. */
  lemma ConsolidateSortsKept(prevList: seq<string>, incoming: seq<string>, le: (string, string) -> bool)
    requires IsTotalOrder(le)
    ensures var r := Consolidate(prevList, incoming, le);
            && SortedBy(le, r)
            && multiset(r) == multiset(Kept(prevList + incoming))
            && NoDuplicates(r)
  {
    var c := prevList + incoming;
    FirstWinsOfDistinct(c);
    KeptKeysUnique(c);
    SortByIsSorted(Kept(c), le);
    SortByNoDuplicates(Kept(c), le);
  }

  /** Each item of the generated list is the trimmed form of the first input (previous list,
      then the new items) with its key, and that key is not empty. */
  lemma ConsolidateSound(prevList: seq<string>, incoming: seq<string>, le: (string, string) -> bool, i: nat)
    requires IsTotalOrder(le)
    requires i < |Consolidate(prevList, incoming, le)|
    ensures var r, c := Consolidate(prevList, incoming, le), prevList + incoming;
            var f := FirstItemWith(c, Key(r[i]));
            Key(r[i]) != "" && f < |c| && r[i] == Trim(c[f])
  {
    var r, c := Consolidate(prevList, incoming, le), prevList + incoming;
    ConsolidateSortsKept(prevList, incoming, le);
    assert r[i] in multiset(Kept(c));
    var j :| 0 <= j < |Kept(c)| && Kept(c)[j] == r[i];
    KeptSound(c, j);
  }

  /** No two items of the generated list share a key. */
  lemma ConsolidateKeysUnique(prevList: seq<string>, incoming: seq<string>, le: (string, string) -> bool)
    requires IsTotalOrder(le)
    ensures var r := Consolidate(prevList, incoming, le);
            forall i, j :: 0 <= i < j < |r| ==> Key(r[i]) != Key(r[j])
  {
    var r, c := Consolidate(prevList, incoming, le), prevList + incoming;
    ConsolidateSortsKept(prevList, incoming, le);
    forall i, j | 0 <= i < j < |r| ensures Key(r[i]) != Key(r[j]) {
      ConsolidateSound(prevList, incoming, le, i);
      ConsolidateSound(prevList, incoming, le, j);
      assert r[i] != r[j];
    }
  }

  /** Every input with a non-empty key is represented in the generated list. */
  lemma ConsolidateComplete(prevList: seq<string>, incoming: seq<string>, le: (string, string) -> bool, i: nat)
    requires IsTotalOrder(le)
    requires i < |prevList + incoming| && Key((prevList + incoming)[i]) != ""
    ensures var c := prevList + incoming;
            Trim(c[FirstItemWith(c, Key(c[i]))]) in Consolidate(prevList, incoming, le)
  {
    var c := prevList + incoming;
    var x := Trim(c[FirstItemWith(c, Key(c[i]))]);
    KeptComplete(c, i);
    ConsolidateSortsKept(prevList, incoming, le);
    assert x in multiset(Kept(c));
    assert x in multiset(Consolidate(prevList, incoming, le));
  }

  /** The generated list is a consolidated list. */
  lemma ConsolidateIsConsolidated(prevList: seq<string>, incoming: seq<string>, le: (string, string) -> bool)
    requires IsTotalOrder(le)
    ensures IsConsolidated(Consolidate(prevList, incoming, le), le)
  {
    var r, c := Consolidate(prevList, incoming, le), prevList + incoming;
    ConsolidateSortsKept(prevList, incoming, le);
    ConsolidateKeysUnique(prevList, incoming, le);
    forall i | 0 <= i < |r| ensures Trim(r[i]) == r[i] && Key(r[i]) != "" {
      ConsolidateSound(prevList, incoming, le, i);
      TrimIdempotent(c[FirstItemWith(c, Key(r[i]))]);
    }
  }

  /** Generating again with nothing new leaves a consolidated list as it is. */
  lemma ConsolidateFixpoint(list: seq<string>, le: (string, string) -> bool)
    requires IsConsolidated(list, le)
    ensures Consolidate(list, [], le) == list
  {
    assert list + [] == list;
    assert NoDuplicates(list) by {
      forall i, j | 0 <= i < j < |list| ensures list[i] != list[j] {
        assert Key(list[i]) != Key(list[j]);
      }
    }
    DistinctOfNoDuplicates(list);
    var cs := Candidates(list);
    assert forall i :: 0 <= i < |cs| ==> cs[i] == Entry(Key(list[i]), list[i]);
    FirstWinsKeepsAll(cs);
    assert ValuesOf(cs) == list;
    SortBySorted(list, le);
  }

  /** Consolidating is idempotent. */
  lemma ConsolidateIdempotent(prevList: seq<string>, incoming: seq<string>, le: (string, string) -> bool)
    requires IsTotalOrder(le)
    ensures Consolidate(Consolidate(prevList, incoming, le), [], le) == Consolidate(prevList, incoming, le)
  {
    ConsolidateIsConsolidated(prevList, incoming, le);
    ConsolidateFixpoint(Consolidate(prevList, incoming, le), le);
  }

  /** One more candidate through the forEach. */
  lemma FirstWinsStep(cs: seq<Entry>, i: nat)
    requires i < |cs|
    ensures var es := FirstWins(cs[..i]);
            FirstWins(cs[..i + 1]) == if cs[i].key != "" && cs[i].key !in KeysOf(es) then es + [cs[i]] else es
  {
    assert cs[..i + 1][..i] == cs[..i];
  }

  /** The Map and its insertion order hold the entries `es`. */
  ghost predicate Mirrors(m: map<string, string>, order: seq<string>, es: seq<Entry>) {
    && order == KeysOf(es)
    && (forall k :: k in m <==> k in order)
    && (forall j :: 0 <= j < |order| ==> order[j] in m && m[order[j]] == es[j].value)
  }

  /** Setting a new key in the Map appends its entry. */
  lemma MirrorsInsert(m: map<string, string>, order: seq<string>, es: seq<Entry>, e: Entry)
    requires Mirrors(m, order, es) && e.key !in m
    ensures Mirrors(m[e.key := e.value], order + [e.key], es + [e])
  {
    assert KeysOf(es + [e]) == KeysOf(es) + [e.key];
  }

  /** Reading the Map's values in insertion order gives the values of the entries. */
  lemma MirrorsValues(m: map<string, string>, order: seq<string>, es: seq<Entry>)
    requires Mirrors(m, order, es)
    ensures seq(|order|, j requires 0 <= j < |order| && order[j] in m => m[order[j]]) == ValuesOf(es)
  {
  }

  /** The state updater of the generator: the Set, the forEach that fills the Map, the
      Map's values in insertion order, and the sort. */
  method ConsolidateList(prevList: seq<string>, incoming: seq<string>, le: (string, string) -> bool)
    returns (list: seq<string>)
    ensures list == Consolidate(prevList, incoming, le)
  {
    var combinedList := Distinct(prevList + incoming);
    ghost var cs := Candidates(combinedList);
    var uniqueMap: map<string, string> := map[];
    var insertionOrder: seq<string> := [];
    var i := 0;
    while i < |combinedList|
      invariant 0 <= i <= |combinedList|
      invariant Mirrors(uniqueMap, insertionOrder, FirstWins(cs[..i]))
    {
      var item := combinedList[i];
      var lowerCaseItem := Trim(Lower(item));
      assert cs[i] == Entry(lowerCaseItem, Trim(item));
      FirstWinsStep(cs, i);
      if lowerCaseItem != "" && lowerCaseItem !in uniqueMap {
        MirrorsInsert(uniqueMap, insertionOrder, FirstWins(cs[..i]), cs[i]);
        uniqueMap := uniqueMap[lowerCaseItem := Trim(item)];
        insertionOrder := insertionOrder + [lowerCaseItem];
      }
      i := i + 1;
    }
    assert cs[..i] == cs;
    MirrorsValues(uniqueMap, insertionOrder, FirstWins(cs));
    list := SortBy(seq(|insertionOrder|, j requires 0 <= j < |insertionOrder| && insertionOrder[j] in uniqueMap => uniqueMap[insertionOrder[j]]), le);
  }
}
