/** The model catalog as the provider returns it, the region endpoints, and the
    pieces `searchModels` is made of: the case-insensitive id filter, the
    priority rank of an id and the comparator handed to `Array.prototype.sort`.
    `searchModels` is written out identically in both nodes; this module and
    ModelSearch model it once. */
module Catalog {
  import opened Wrappers
  import opened Text

  /** One entry of the catalog's `data` array. */
  datatype Model = Model(id: string, object: string, created: int, ownedBy: string)

  /** One `{name, value}` entry of the list-search result. */
  datatype ListItem = ListItem(name: string, value: string)

  /** The fields of the `zeaburAIHubApi` credential the nodes read. */
  datatype Credentials = Credentials(apiKey: string, region: Option<string>)

  /** An outgoing HTTP request, without its body. */
  datatype Request = Request(verb: string, url: string, headers: seq<(string, string)>)

  const Sfo1Url: string := "https://sfo1.aihub.zeabur.ai/v1"
  const Hnd1Url: string := "https://hnd1.aihub.zeabur.ai/v1"

  /** The base URL for the credential's `region`: only the exact string
      "sfo1" selects sfo1; every other value, or none, falls back to hnd1. */
  function BaseUrl(region: Option<string>): (url: string)
    ensures url == Sfo1Url <==> region == Some("sfo1")
    ensures url == Hnd1Url <==> region != Some("sfo1")
  {
    if region == Some("sfo1") then Sfo1Url else Hnd1Url
  }

  /** The `GET {baseUrl}/models` request `searchModels` sends. */
  function ModelsRequest(creds: Credentials): (req: Request)
    ensures req.verb == "GET"
    ensures req.url == BaseUrl(creds.region) + "/models"
    ensures ("Authorization", "Bearer " + creds.apiKey) in req.headers
  {
    Request("GET", BaseUrl(creds.region) + "/models",
      [("Authorization", "Bearer " + creds.apiKey), ("Accept", "application/json")])
  }

  const DefaultModel: string := "gpt-4o-mini"

  /** `modelParameter.value || 'gpt-4o-mini'`, shared by both nodes: a chosen
      model is kept, an empty choice falls back to the default. */
  function ModelName(value: string): (name: string)
    ensures name != ""
    ensures value != "" ==> name == value
    ensures value == "" ==> name == DefaultModel
  {
    if value != "" then value else DefaultModel
  }

  /** The fixed preference list; an earlier entry ranks higher. */
  const PriorityModels: seq<string> := [
    "gpt-4o",
    "gpt-4o-mini",
    "gpt-4-turbo",
    "gpt-4",
    "gpt-3.5-turbo",
    "claude-3-5-sonnet",
    "claude-3-opus",
    "claude-3-haiku",
    "gemini-1.5-pro",
    "gemini-1.5-flash"
  ]

  /** `list.findIndex((m) => id.includes(m))`: the index of the first entry
      that occurs in `id`, or -1 when none does (see FindIndexFirst). */
  function FindIndex(list: seq<string>, id: string): (r: int)
    ensures -1 <= r < |list|
  {
    if list == [] then -1
    else if Contains(id, list[0]) then 0
    else
      var k := FindIndex(list[1..], id);
      if k == -1 then -1 else k + 1
  }

  /** FindIndex finds the first entry that occurs in `id`, and -1 means that
      no entry does. */
  lemma {:induction false} FindIndexFirst(list: seq<string>, id: string)
    ensures var r := FindIndex(list, id);
      && (0 <= r ==> Contains(id, list[r]))
      && forall j :: 0 <= j < |list| && (r == -1 || j < r) ==> !Contains(id, list[j])
  {
    if list != [] && !Contains(id, list[0]) {
      FindIndexFirst(list[1..], id);
      var k := FindIndex(list[1..], id);
      forall j | 0 < j < |list| && (k == -1 || j < k + 1)
        ensures !Contains(id, list[j])
      {
        assert list[1..][j - 1] == list[j];
      }
    }
  }

  /** The priority of a model id: its index in PriorityModels, or -1 when unranked. */
  function Rank(id: string): int
  {
    FindIndex(PriorityModels, id)
  }

  /** What the comparator looks at: the rank when there is one, else the id. */
  datatype Key = Ranked(rank: nat) | Unranked(id: string)

  function IdKey(id: string): Key
  {
    var r := Rank(id);
    if r >= 0 then Ranked(r) else Unranked(id)
  }

  function KeyOf(m: Model): Key
  {
    IdKey(m.id)
  }

  /** The comparator handed to `filteredModels.sort`: ranked models by
      ascending rank, ranked before unranked, unranked models by id. */
  function Compare(a: Model, b: Model): int
  {
    var ra := Rank(a.id);
    var rb := Rank(b.id);
    if ra != -1 && rb != -1 then ra - rb
    else if ra != -1 then -1
    else if rb != -1 then 1
    else LexCompare(a.id, b.id)
  }

  /** The comparator's decision expressed on keys alone. It reports a tie
      exactly when the two keys are equal. */
  function CompareKeys(ka: Key, kb: Key): (r: int)
    ensures r == 0 <==> ka == kb
  {
    match (ka, kb)
    case (Ranked(ra), Ranked(rb)) => ra - rb
    case (Ranked(_), Unranked(_)) => -1
    case (Unranked(_), Ranked(_)) => 1
    case (Unranked(x), Unranked(y)) => LexCompare(x, y)
  }

  /** The comparator depends on the two models only through their keys. */
  lemma CompareByKeys(a: Model, b: Model)
    ensures Compare(a, b) == CompareKeys(KeyOf(a), KeyOf(b))
  {
  }

  /** Swapping the arguments flips the sign of the comparator. */
  lemma CompareKeysAntisymmetric(ka: Key, kb: Key)
    ensures CompareKeys(ka, kb) < 0 <==> CompareKeys(kb, ka) > 0
  {
    if ka.Unranked? && kb.Unranked? {
      LexCompareAntisymmetric(ka.id, kb.id);
    }
  }

  /** "May come first" is transitive, so the comparator is a consistent
      total preorder and a stable sort by it is well defined. */
  lemma CompareKeysTransitive(ka: Key, kb: Key, kc: Key)
    requires CompareKeys(ka, kb) <= 0 && CompareKeys(kb, kc) <= 0
    ensures CompareKeys(ka, kc) <= 0
  {
    if ka.Unranked? && kb.Unranked? && kc.Unranked? {
      LexCompareTransitive(ka.id, kb.id, kc.id);
    }
  }

  /** The three ordering rules the comparator applies: ascending rank among
      ranked ids, ranked before unranked, and id order among unranked ids. */
  lemma ComparePriorityRules(a: Model, b: Model)
    ensures Rank(a.id) >= 0 && Rank(b.id) >= 0 ==> (Compare(a, b) < 0 <==> Rank(a.id) < Rank(b.id))
    ensures Rank(a.id) >= 0 && Rank(b.id) < 0 ==> Compare(a, b) < 0
    ensures Rank(a.id) < 0 && Rank(b.id) < 0 ==> (Compare(a, b) < 0 <==> LexCompare(a.id, b.id) < 0)
  {
  }

  /** "gpt-4o" is listed before "gpt-4o-mini" and occurs in it, so no id ever
      gets rank 1: every "gpt-4o-mini" id ranks 0, tied with "gpt-4o". */
  lemma RankNeverOne(id: string)
    ensures Rank(id) != 1
    ensures Contains(id, "gpt-4o-mini") ==> Rank(id) == 0
  {
    FindIndexFirst(PriorityModels, id);
    if Contains(id, "gpt-4o-mini") {
      ContainsPrefix(id, "gpt-4o-mini", "gpt-4o");
    }
  }

  /** Whether a `filter` argument is truthy: present and non-empty. */
  predicate FilterGiven(filter: Option<string>)
  {
    filter.Some? && filter.value != ""
  }

  predicate MatchesFilter(m: Model, needle: string)
  {
    Contains(Lower(m.id), needle)
  }

  /** `models.filter((model) => model.id.toLowerCase().includes(needle))`:
      every model that matches, as often as it occurs, and nothing else. */
  function FilterById(models: seq<Model>, needle: string): (r: seq<Model>)
    ensures forall m :: multiset(r)[m] == if MatchesFilter(m, needle) then multiset(models)[m] else 0
  {
    if models == [] then []
    else
      var rest := FilterById(models[1..], needle);
      assert models == [models[0]] + models[1..];
      if MatchesFilter(models[0], needle) then [models[0]] + rest else rest
  }

  /** The filter keeps the catalog's order: filtering a concatenation filters
      each part in place (with FilterByIdSingle, this determines the result
      model by model, in order). */
  lemma {:induction false} FilterByIdConcat(a: seq<Model>, b: seq<Model>, needle: string)
    ensures FilterById(a + b, needle) == FilterById(a, needle) + FilterById(b, needle)
    decreases |a|
  {
    if a == [] {
      assert a + b == b;
    } else {
      var rest := FilterById((a + b)[1..], needle);
      assert (a + b)[1..] == a[1..] + b;
      assert (a + b)[0] == a[0];
      FilterByIdConcat(a[1..], b, needle);
      assert rest == FilterById(a[1..], needle) + FilterById(b, needle);
    }
  }

  /** A single model is kept exactly when it matches. */
  lemma FilterByIdSingle(m: Model, needle: string)
    ensures FilterById([m], needle) == if MatchesFilter(m, needle) then [m] else []
  {
    assert [m][1..] == [];
  }

  /** The filter step of `searchModels`: with a truthy filter, keep the models
      whose lower-cased id contains the lower-cased filter; otherwise all. */
  function ApplyFilter(models: seq<Model>, filter: Option<string>): seq<Model>
  {
    if FilterGiven(filter) then FilterById(models, Lower(filter.value)) else models
  }

  /** The filter is sound and complete, and without a filter nothing is dropped. */
  lemma ApplyFilterMembers(models: seq<Model>, filter: Option<string>, m: Model)
    ensures FilterGiven(filter) ==>
      (m in ApplyFilter(models, filter) <==> m in models && Contains(Lower(m.id), Lower(filter.value)))
    ensures !FilterGiven(filter) ==> ApplyFilter(models, filter) == models
  {
    if FilterGiven(filter) {
      var r := ApplyFilter(models, filter);
      assert m in r <==> multiset(r)[m] > 0;
      assert m in models <==> multiset(models)[m] > 0;
    }
  }

  /** `models.map((model) => ({ name: model.id, value: model.id }))`. */
  function ToListItems(models: seq<Model>): (r: seq<ListItem>)
    ensures |r| == |models|
    ensures forall i :: 0 <= i < |models| ==> r[i] == ListItem(models[i].id, models[i].id)
  {
    if models == [] then [] else [ListItem(models[0].id, models[0].id)] + ToListItems(models[1..])
  }
}
