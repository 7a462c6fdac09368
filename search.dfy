/** `searchModels`, the list-search method both nodes register for their model
    picker: take the catalog's `data` (none counts as empty), keep the models
    whose id contains the filter, sort them by priority and turn each into a
    `{name, value}` item. */
module ModelSearch {
  import opened Wrappers
  import opened Text
  import opened Catalog
  import opened PrioritySort

  /** What `searchModels` returns for a catalog whose `data` field is `data`. */
  function SearchResults(data: Option<seq<Model>>, filter: Option<string>): seq<ListItem>
  {
    ToListItems(SortByKey(ApplyFilter(data.GetOr([]), filter), KeyOf))
  }

  /** `searchModels` after the HTTP call. `data` is the response's array, or
      null when the response has none. Without a filter, `filteredModels` is
      that very array, so the sort rearranges the response in place; with a
      filter the sort works on the new array `filter` returns and the
      response is left alone. */
  method SearchModels(data: array?<Model>, filter: Option<string>) returns (results: seq<ListItem>)
    modifies data
    ensures results == SearchResults(if data == null then None else Some(old(data[..])), filter)
    ensures data != null && !FilterGiven(filter) ==> data[..] == SortByKey(old(data[..]), KeyOf)
    ensures data != null && FilterGiven(filter) ==> data[..] == old(data[..])
  {
    ghost var models := if data == null then [] else data[..];
    ghost var kept := ApplyFilter(models, filter);
    var filteredModels: array<Model>;
    if data == null {
      filteredModels := new Model[0];
      assert filteredModels[..] == kept;
    } else if FilterGiven(filter) {
      filteredModels := NewArray(FilterById(data[..], Lower(filter.value)));
    } else {
      filteredModels := data;
    }
    SortInPlace(filteredModels, KeyOf);
    assert filteredModels[..] == SortByKey(kept, KeyOf);
    results := ToListItems(filteredModels[..]);
  }

  /** `models.filter(...)` hands back a new array holding the kept models. */
  method NewArray(models: seq<Model>) returns (a: array<Model>)
    ensures fresh(a) && a[..] == models
  {
    a := new Model[|models|](i requires 0 <= i < |models| => models[i]);
  }

  /** Every item names a model by its id, and an id is listed exactly when a
      model of the catalog carries it and, with a filter, its lower-cased id
      contains the lower-cased filter. */
  lemma SearchResultsMembers(data: Option<seq<Model>>, filter: Option<string>, id: string)
    ensures forall item :: item in SearchResults(data, filter) ==> item.name == item.value
    ensures ListItem(id, id) in SearchResults(data, filter) <==>
      exists m :: m in data.GetOr([]) && m.id == id &&
        (FilterGiven(filter) ==> Contains(Lower(id), Lower(filter.value)))
  {
    var kept := ApplyFilter(data.GetOr([]), filter);
    var sorted := SortByKey(kept, KeyOf);
    var r := SearchResults(data, filter);
    SortByKeyPermutation(kept, KeyOf);
    if ListItem(id, id) in r {
      var i :| 0 <= i < |r| && r[i] == ListItem(id, id);
      assert sorted[i] in multiset(kept);
      ApplyFilterMembers(data.GetOr([]), filter, sorted[i]);
    }
    if m :| (m in data.GetOr([]) && m.id == id &&
        (FilterGiven(filter) ==> Contains(Lower(id), Lower(filter.value)))) {
      ApplyFilterMembers(data.GetOr([]), filter, m);
      assert m in multiset(sorted);
      var i :| 0 <= i < |sorted| && sorted[i] == m;
      assert r[i] == ListItem(id, id);
    }
  }

  /** The list has one item per kept model: all of them when there is no filter. */
  lemma SearchResultsLength(data: Option<seq<Model>>, filter: Option<string>)
    ensures |SearchResults(data, filter)| == |ApplyFilter(data.GetOr([]), filter)|
    ensures !FilterGiven(filter) ==> |SearchResults(data, filter)| == |data.GetOr([])|
    ensures data == None ==> SearchResults(data, filter) == []
  {
    var kept := ApplyFilter(data.GetOr([]), filter);
    SortByKeyPermutation(kept, KeyOf);
    assert |SortByKey(kept, KeyOf)| == |multiset(SortByKey(kept, KeyOf))|;
    ApplyFilterMembers(data.GetOr([]), filter, Model("", "", 0, ""));
  }

  /** The list is in priority order: ranked ids first, by ascending rank;
      unranked ids after them, by id. */
  lemma SearchResultsOrdered(data: Option<seq<Model>>, filter: Option<string>, i: int, j: int)
    requires 0 <= i < j < |SearchResults(data, filter)|
    ensures var r := SearchResults(data, filter);
      && CompareKeys(IdKey(r[i].name), IdKey(r[j].name)) <= 0
      && (Rank(r[j].name) >= 0 ==> 0 <= Rank(r[i].name) <= Rank(r[j].name))
      && (Rank(r[i].name) < 0 ==> Rank(r[j].name) < 0 && LexCompare(r[i].name, r[j].name) <= 0)
  {
    var kept := ApplyFilter(data.GetOr([]), filter);
    SortByKeySorted(kept, KeyOf);
    var sorted := SortByKey(kept, KeyOf);
    assert CompareKeys(KeyOf(sorted[i]), KeyOf(sorted[j])) <= 0;
  }

  /** Models the comparator ties (equal rank, or the same unranked id) keep
      the order they have in the filtered catalog. */
  lemma SearchResultsStable(data: Option<seq<Model>>, filter: Option<string>, k: Key)
    ensures Tied(SortByKey(ApplyFilter(data.GetOr([]), filter), KeyOf), KeyOf, k)
         == Tied(ApplyFilter(data.GetOr([]), filter), KeyOf, k)
  {
    SortByKeyStable(ApplyFilter(data.GetOr([]), filter), KeyOf);
  }

  /** The filter keeps every group of tied models in catalog order: the tied
      models it keeps are those of the catalog's group that match. */
  lemma {:induction false} FilterByIdTied(models: seq<Model>, needle: string, k: Key)
    ensures Tied(FilterById(models, needle), KeyOf, k) == FilterById(Tied(models, KeyOf, k), needle)
  {
    if models != [] {
      var init, m := models[..|models| - 1], models[|models| - 1];
      var tied := if KeyOf(m) == k then [m] else [];
      assert models == init + [m];
      assert Tied(models, KeyOf, k) == Tied(init, KeyOf, k) + tied;
      FilterByIdTied(init, needle, k);
      FilterByIdConcat(init, [m], needle);
      TiedConcat(FilterById(init, needle), FilterById([m], needle), KeyOf, k);
      FilterByIdConcat(Tied(init, KeyOf, k), tied, needle);
      TiedSingle(m, needle, k);
    }
  }

  /** For one model, filtering and taking a tied group commute. */
  lemma TiedSingle(m: Model, needle: string, k: Key)
    ensures Tied(FilterById([m], needle), KeyOf, k) == FilterById(if KeyOf(m) == k then [m] else [], needle)
  {
    FilterByIdSingle(m, needle);
    assert [m][..0] == [];
  }

  /** Models the comparator ties come out in their catalog order: each group
      of the list is the filtered group of the catalog. */
  lemma SearchResultsCatalogOrder(data: Option<seq<Model>>, filter: Option<string>, k: Key)
    ensures Tied(SortByKey(ApplyFilter(data.GetOr([]), filter), KeyOf), KeyOf, k)
         == ApplyFilter(Tied(data.GetOr([]), KeyOf, k), filter)
  {
    SortByKeyStable(ApplyFilter(data.GetOr([]), filter), KeyOf);
    if FilterGiven(filter) {
      FilterByIdTied(data.GetOr([]), Lower(filter.value), k);
    }
  }

  /** Whatever stable sort the engine runs, the list is SearchResults: any
      arrangement of the kept models that is ordered and keeps ties in order
      yields the same items. */
  lemma AnyStableSortAgrees(data: Option<seq<Model>>, filter: Option<string>, t: seq<Model>)
    requires Sorted(t, KeyOf) && SameTies(t, ApplyFilter(data.GetOr([]), filter), KeyOf)
    ensures ToListItems(t) == SearchResults(data, filter)
  {
    var kept := ApplyFilter(data.GetOr([]), filter);
    SortByKeySorted(kept, KeyOf);
    SortByKeyStable(kept, KeyOf);
    var s := SortByKey(kept, KeyOf);
    forall k ensures Tied(s, KeyOf, k) == Tied(t, KeyOf, k) {
      assert Tied(s, KeyOf, k) == Tied(kept, KeyOf, k) == Tied(t, KeyOf, k);
    }
    SortedStableUnique(s, t, KeyOf);
  }
}
