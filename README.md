# Zeabur AI Hub nodes for n8n — a Dafny model

This project models the logic of two n8n community nodes that talk to the
Zeabur AI Hub, an OpenAI-compatible API. The first is the action node
"Zeabur AI Hub". The second is the chat-model node "Zeabur AI Hub Chat Model",
which supplies a LangChain chat model to an agent or a chain. The model
proves properties about that logic.

The modelled parts are:

- **Model search** (`searchModels`, written out identically in both nodes).
  It reads the catalog's `data` array; a missing array counts as empty. An
  optional filter keeps the ids that contain it, case-insensitively. The
  models are then sorted by a fixed ten-entry priority list, with unranked
  ids after the ranked ones in id order. Each model becomes a
  `{name: id, value: id}` item. `Catalog` holds the pieces, `PrioritySort`
  the stable in-place sort (an insertion sort over an `array`, proved equal
  to a functional stable sort), and `ModelSearch` the method itself.
- **Region endpoint.** Only the region `"sfo1"` selects
  `https://sfo1.aihub.zeabur.ai/v1`; everything else selects the `hnd1` host.
- **`execute` of the action node** (`ChatNode`). The per-item `for` loop builds
  one chat-completion request per input item. The model defaults to
  `gpt-4o-mini`. The `??` defaults are temperature 0.7, top-p 1 and penalties 0.
  `max_tokens` is sent only when the value is truthy and not -1. Each reply
  becomes `{message, ...response}` paired with its item. A failure becomes an
  `{error}` item under continue-on-fail; otherwise it is thrown.
- **`supplyData` of the chat-model node** (`LmChatNode`): the configuration
  record handed to the chat model. A max-tokens of -1 becomes undefined;
  timeout defaults to 60000 and retries to 2; the Responses API is off; the
  base URL comes from the region.
- **The connection hint notice** (`utils.ts`; `Markup` and `ConnectionHint`).
  The connection types are grouped into an insertion-ordered map. One group
  gives the "must be connected to … Insert one" sentence. Any other number of
  groups gives one link per group, joined by " or ".

The HTTP calls are not part of this model. `execute` takes them as a
parameter `transport(i, request)`, which returns the parsed response or the
error message. `searchModels` is modelled from the parsed response on.
Credentials and node parameters are plain inputs.

The priority list reads as if `gpt-4o-mini` ranked second, after `gpt-4o`.
An id is ranked by the first entry it *contains*, though, and every id
containing `gpt-4o-mini` also contains `gpt-4o`. So the code gives such ids
rank 0, never rank 1, and they tie with `gpt-4o`; the model follows the code.
`Catalog.RankNeverOne` states this.

## Model

| member | source | states |
|---|---|---|
| Text.Lower | nodes/ZeaburAiHub/ZeaburAiHub.node.ts:48-52 | lower-casing keeps the length and maps every character by itself (ASCII letters lowered) |
| Text.ContainsAt | nodes/ZeaburAiHub/ZeaburAiHub.node.ts:51-52 | `includes` holds exactly when the substring occurs at some position |
| Text.LexCompare | nodes/ZeaburAiHub/ZeaburAiHub.node.ts:79 | the fallback comparison is -1, 0 or 1, and 0 exactly for equal ids |
| Text.LexCompareAntisymmetric | nodes/ZeaburAiHub/ZeaburAiHub.node.ts:79 | swapping the ids negates the comparison |
| Text.LexCompareTransitive | nodes/ZeaburAiHub/ZeaburAiHub.node.ts:79 | "not after" is transitive |
| Text.Contains | nodes/ZeaburAiHub/ZeaburAiHub.node.ts:70-71 | `String.prototype.includes`; stated by Text.ContainsAt |
| Text.Join | nodes/LmChatZeaburAiHub/utils.ts:79 | `join(' or ')` of the links; used as the reference in ConnectionHint.LocalePhraseJoin and ConnectionHint.PiecesJoin |
| Text.Concat | nodes/LmChatZeaburAiHub/utils.ts:67-74 | `join('')` of the mapped locale pieces; stated by ConnectionHint.PiecesJoin |
| Catalog.BaseUrl | nodes/ZeaburAiHub/ZeaburAiHub.node.ts:28-31 | the sfo1 URL exactly for region "sfo1", the hnd1 URL for every other region or none |
| Catalog.ModelsRequest | nodes/ZeaburAiHub/ZeaburAiHub.node.ts:33-41 | a GET of the region's `/models` carrying the key as a bearer token |
| Catalog.ModelName | nodes/ZeaburAiHub/ZeaburAiHub.node.ts:270-271 | a chosen model is kept; an empty choice becomes gpt-4o-mini; the name is never empty |
| Catalog.FindIndex | nodes/ZeaburAiHub/ZeaburAiHub.node.ts:70-71 | the rank is -1 or an index of the list |
| Catalog.FindIndexFirst | nodes/ZeaburAiHub/ZeaburAiHub.node.ts:70-71 | the rank is the first entry the id contains, and -1 means the id contains none |
| Catalog.CompareKeys | nodes/ZeaburAiHub/ZeaburAiHub.node.ts:69-80 | the comparator reports a tie exactly when the rank keys are equal |
| Catalog.CompareByKeys | nodes/ZeaburAiHub/ZeaburAiHub.node.ts:69-80 | the comparator depends on two models only through their keys |
| Catalog.CompareKeysAntisymmetric | nodes/ZeaburAiHub/ZeaburAiHub.node.ts:69-80 | a before b exactly when b after a |
| Catalog.CompareKeysTransitive | nodes/ZeaburAiHub/ZeaburAiHub.node.ts:69-80 | the comparator is a consistent total preorder |
| Catalog.ComparePriorityRules | nodes/ZeaburAiHub/ZeaburAiHub.node.ts:73-79 | ranked ids by ascending rank, ranked before unranked, unranked by id |
| Catalog.RankNeverOne | nodes/ZeaburAiHub/ZeaburAiHub.node.ts:56-71 | no id gets rank 1; ids containing gpt-4o-mini get rank 0 |
| Catalog.Rank | nodes/ZeaburAiHub/ZeaburAiHub.node.ts:70-71 | the `findIndex` rank of an id in the priority list; its value is stated by Catalog.FindIndex and Catalog.FindIndexFirst |
| Catalog.IdKey | nodes/ZeaburAiHub/ZeaburAiHub.node.ts:70-71 | the rank when the id has one, else the id; what the comparator compares (Catalog.CompareByKeys) |
| Catalog.KeyOf | nodes/ZeaburAiHub/ZeaburAiHub.node.ts:69-71 | the key of a model is the key of its id |
| Catalog.Compare | nodes/ZeaburAiHub/ZeaburAiHub.node.ts:69-80 | the comparator itself; its rules are stated by Catalog.ComparePriorityRules and Catalog.CompareByKeys |
| Catalog.FilterById | nodes/ZeaburAiHub/ZeaburAiHub.node.ts:50-52 | keeps each matching model as often as it occurs and nothing else |
| Catalog.ApplyFilterMembers | nodes/ZeaburAiHub/ZeaburAiHub.node.ts:47-53 | with a truthy filter a model is kept iff its lower-cased id contains the lower-cased filter; otherwise all are kept |
| Catalog.FilterByIdConcat | nodes/ZeaburAiHub/ZeaburAiHub.node.ts:50-52 | filtering a concatenation filters each part in place, so the kept models stay in catalog order |
| Catalog.FilterByIdSingle | nodes/ZeaburAiHub/ZeaburAiHub.node.ts:50-52 | a single model is kept exactly when its lower-cased id contains the filter |
| Catalog.FilterGiven | nodes/ZeaburAiHub/ZeaburAiHub.node.ts:48 | `if (filter)`: a filter that is present and non-empty |
| Catalog.MatchesFilter | nodes/ZeaburAiHub/ZeaburAiHub.node.ts:50-52 | the filter callback: the lower-cased id contains the lower-cased filter; stated by Catalog.ApplyFilterMembers |
| Catalog.ApplyFilter | nodes/ZeaburAiHub/ZeaburAiHub.node.ts:47-53 | the filter step; stated by Catalog.ApplyFilterMembers and Catalog.FilterById |
| Catalog.ToListItems | nodes/ZeaburAiHub/ZeaburAiHub.node.ts:82-87 | one `{name: id, value: id}` item per model, in order |
| PrioritySort.SortByKeyPermutation | nodes/ZeaburAiHub/ZeaburAiHub.node.ts:69-80 | the sort rearranges the models and drops or adds none |
| PrioritySort.SortByKey | nodes/ZeaburAiHub/ZeaburAiHub.node.ts:69-80 | the stable sort by the comparator; stated by PrioritySort.SortByKeyPermutation, SortByKeySorted, SortByKeyStable and SortedStableUnique |
| PrioritySort.SortByKeySorted | nodes/ZeaburAiHub/ZeaburAiHub.node.ts:69-80 | the sorted models are in comparator order |
| PrioritySort.SortByKeyStable | nodes/ZeaburAiHub/ZeaburAiHub.node.ts:69-80 | models the comparator ties keep their relative order |
| PrioritySort.SortedStableUnique | nodes/ZeaburAiHub/ZeaburAiHub.node.ts:69-80 | two ordered arrangements with the same ties in the same order are equal, so every stable sort gives one result |
| PrioritySort.InsertLast | nodes/ZeaburAiHub/ZeaburAiHub.node.ts:69-80 | one insertion step puts element i into the sorted prefix and leaves the rest of the array alone |
| PrioritySort.SortInPlace | nodes/ZeaburAiHub/ZeaburAiHub.node.ts:69-80 | the array ends up as the stable sort of its old contents |
| ModelSearch.SearchModels | nodes/ZeaburAiHub/ZeaburAiHub.node.ts:22-88 | returns the search results of the response's data; without a filter the response's own array is sorted in place, with one it is left unchanged |
| ModelSearch.SearchResults | nodes/ZeaburAiHub/ZeaburAiHub.node.ts:44-87 | the list `searchModels` returns for a catalog; stated by the ModelSearch lemmas below |
| ModelSearch.SearchResultsMembers | nodes/ZeaburAiHub/ZeaburAiHub.node.ts:44-87 | every item's name equals its value, and an id is listed iff a catalog model has it and matches the filter |
| ModelSearch.SearchResultsLength | nodes/ZeaburAiHub/ZeaburAiHub.node.ts:44-53 | one item per kept model; all models when there is no filter; none when `data` is missing |
| ModelSearch.SearchResultsOrdered | nodes/ZeaburAiHub/ZeaburAiHub.node.ts:69-80 | earlier items never sort after later ones: ranked first by rank, then unranked by id |
| ModelSearch.SearchResultsStable | nodes/ZeaburAiHub/ZeaburAiHub.node.ts:69-80 | tied models keep the order of the filtered catalog |
| ModelSearch.FilterByIdTied | nodes/ZeaburAiHub/ZeaburAiHub.node.ts:50-52 | the filter keeps each group of tied models in catalog order: the group of the result is the filtered group of the catalog |
| ModelSearch.TiedSingle | nodes/ZeaburAiHub/ZeaburAiHub.node.ts:50-52 | for one model, keeping it when it matches the filter and keeping it when it is tied with a key give the same result in either order |
| ModelSearch.SearchResultsCatalogOrder | nodes/ZeaburAiHub/ZeaburAiHub.node.ts:47-80 | tied models come out in their catalog order: each group of the sorted list is the filtered group of the catalog |
| ModelSearch.AnyStableSortAgrees | nodes/ZeaburAiHub/ZeaburAiHub.node.ts:69-80 | any ordered, tie-preserving arrangement of the kept models gives exactly these results |
| ChatNode.MaxTokensField | nodes/ZeaburAiHub/ZeaburAiHub.node.ts:300-302 | `max_tokens` is present iff max-tokens is set, not 0 and not -1, and then carries that value |
| ChatNode.BodyOptions | nodes/ZeaburAiHub/ZeaburAiHub.node.ts:294-297 | set options are sent as set (0 included); missing ones as 0.7, 1, 0 and 0 |
| ChatNode.BodyMessage | nodes/ZeaburAiHub/ZeaburAiHub.node.ts:270-293 | the body has exactly one user message with the item's content, for the chosen model or gpt-4o-mini |
| ChatNode.BuildBody | nodes/ZeaburAiHub/ZeaburAiHub.node.ts:286-302 | the request body of one item; stated by ChatNode.BodyOptions, ChatNode.BodyMessage and ChatNode.MaxTokensField |
| ChatNode.RequestFor | nodes/ZeaburAiHub/ZeaburAiHub.node.ts:281-313 | a POST of the region's `/chat/completions` with the bearer key and the item's body |
| ChatNode.Outcome | nodes/ZeaburAiHub/ZeaburAiHub.node.ts:304-313 | the awaited `httpRequest` of item i: the `transport` answer for that item's request (ChatNode.RequestFor) |
| ChatNode.MessageOf | nodes/ZeaburAiHub/ZeaburAiHub.node.ts:316-317 | the first choice's content, or "" when there is none (ChatNode.SuccessItemFields) |
| ChatNode.SuccessItem | nodes/ZeaburAiHub/ZeaburAiHub.node.ts:319-327 | `{message, ...response}` paired with item i; stated by ChatNode.SuccessItemFields |
| ChatNode.ErrorItem | nodes/ZeaburAiHub/ZeaburAiHub.node.ts:329-337 | `{error: message}` paired with item i |
| ChatNode.ItemFor | nodes/ZeaburAiHub/ZeaburAiHub.node.ts:319-337 | the output of item i under continue-on-fail: its success item or its error item |
| ChatNode.SuccessItemFields | nodes/ZeaburAiHub/ZeaburAiHub.node.ts:316-327 | the output keeps every response field, adds `message` (the first choice's content or "") unless the response has one, and pairs with item i |
| ChatNode.Execute | nodes/ZeaburAiHub/ZeaburAiHub.node.ts:260-346 | the loop's result equals the run of all items for chat/message, one empty branch otherwise |
| ChatNode.Run | nodes/ZeaburAiHub/ZeaburAiHub.node.ts:266-342 | `returnData` after n iterations or the error thrown; stated by ChatNode.RunOutputs, ChatNode.RunFailsIff, ChatNode.RunFirstError and ChatNode.RunErrStays |
| ChatNode.ExecuteResult | nodes/ZeaburAiHub/ZeaburAiHub.node.ts:262-345 | `[returnData]` for chat/message, one empty branch otherwise; stated by ChatNode.ExecuteShape |
| ChatNode.RunErrStays | nodes/ZeaburAiHub/ZeaburAiHub.node.ts:338-340 | after a thrown error no later item is processed |
| ChatNode.RunOutputs | nodes/ZeaburAiHub/ZeaburAiHub.node.ts:267-342 | a completed run has one output per item, in order, paired with its index, holding its reply or its error |
| ChatNode.RunFailsIff | nodes/ZeaburAiHub/ZeaburAiHub.node.ts:328-341 | the run throws iff continue-on-fail is off and some request fails |
| ChatNode.RunFirstError | nodes/ZeaburAiHub/ZeaburAiHub.node.ts:328-341 | the error thrown is that of the first failing request |
| ChatNode.ExecuteShape | nodes/ZeaburAiHub/ZeaburAiHub.node.ts:260-346 | one output branch with an item per input, or a throw exactly when chat/message meets a failure with continue-on-fail off; never a throw with continue-on-fail on |
| LmChatNode.ForwardMaxTokens | nodes/LmChatZeaburAiHub/LmChatZeaburAiHub.node.ts:306 | max-tokens is undefined iff it is unset or -1; every other value, 0 included, is forwarded |
| LmChatNode.SupplyDataOptions | nodes/LmChatZeaburAiHub/LmChatZeaburAiHub.node.ts:305-316 | temperature, timeout and retries default to 0.7, 60000 and 2 only when unset; top-p and penalties pass through; Responses API off |
| LmChatNode.SupplyDataEndpoint | nodes/LmChatZeaburAiHub/LmChatZeaburAiHub.node.ts:280-313 | the config carries the credential's key, the region's base URL and the chosen model or gpt-4o-mini |
| LmChatNode.SupplyData | nodes/LmChatZeaburAiHub/LmChatZeaburAiHub.node.ts:275-324 | the configuration handed to the chat model; stated by LmChatNode.SupplyDataOptions, LmChatNode.SupplyDataEndpoint and LmChatNode.ForwardMaxTokens |
| LmChatNode.MaxTokensAcrossNodes | nodes/LmChatZeaburAiHub/LmChatZeaburAiHub.node.ts:306 | the two nodes agree on max-tokens except for 0, which only the chat-model node forwards |
| LmChatNode.AgreesWithChatNode | nodes/LmChatZeaburAiHub/LmChatZeaburAiHub.node.ts:302-319 | for the same options both nodes use the same model, temperature, set sampling options and host |
| Markup.ParamStringEnds | nodes/LmChatZeaburAiHub/utils.ts:20-23 | every attribute's name starts with `data-action-parameter-` and it ends with the quote closing its value; "" gives the creator-view attribute, any other string is the quoted value of the connection-type attribute |
| Markup.ParamStringInjective | nodes/LmChatZeaburAiHub/utils.ts:20-23 | different connection strings give different attributes |
| Markup.ParamString | nodes/LmChatZeaburAiHub/utils.ts:20-23 | the creator-view attribute for "", else the connection-type attribute; stated by Markup.ParamStringEnds and Markup.ParamStringInjective |
| Markup.GetAhrefAsWritten | nodes/LmChatZeaburAiHub/utils.ts:25-28 | the group link as the source writes it; stated by Markup.AhrefAsWrittenMalformed |
| Markup.GetAhref | nodes/LmChatZeaburAiHub/utils.ts:25-28 | the group link with the attribute layout of the "Insert one" link; stated by Markup.AhrefWellFormed |
| Markup.AhrefAsWrittenMalformed | nodes/LmChatZeaburAiHub/utils.ts:25-28 | as written, no space separates the two attributes and a stray quote precedes `>` |
| Markup.AhrefWellFormed | nodes/LmChatZeaburAiHub/utils.ts:25-28 | corrected, the attributes are space-separated, the tag closes after the last value, and the locale is the link text |
| ConnectionHint.GroupConnections | nodes/LmChatZeaburAiHub/utils.ts:33-48 | the grouping loop builds the grouped map and keeps it well formed |
| ConnectionHint.AddConnection | nodes/LmChatZeaburAiHub/utils.ts:35-48 | one `forEach` step: unknown types skipped, a new connection string starts a group, a known one gets the locale appended |
| ConnectionHint.Grouped | nodes/LmChatZeaburAiHub/utils.ts:33-48 | the Map after the `forEach`; stated by ConnectionHint.GroupedContents and ConnectionHint.GroupedValid |
| ConnectionHint.GroupedContents | nodes/LmChatZeaburAiHub/utils.ts:33-48 | the keys are the known types' connection strings in first-seen order, each holding its types' locales in input order |
| ConnectionHint.GroupedValid | nodes/LmChatZeaburAiHub/utils.ts:33-48 | every key occurs once, and every key holds a non-empty list |
| ConnectionHint.DedupMembers | nodes/LmChatZeaburAiHub/utils.ts:42-45 | first-seen order lists every connection string once and nothing else |
| ConnectionHint.AtMostOneGroup | nodes/LmChatZeaburAiHub/utils.ts:4-13 | with the shipped table there is never more than the one group "" |
| ConnectionHint.DetermineArticle | nodes/LmChatZeaburAiHub/utils.ts:15-18 | "an" exactly when the word starts with a vowel letter of either case, else "a" |
| ConnectionHint.ReplaceLeadingAi | nodes/LmChatZeaburAiHub/utils.ts:57-59 | a leading "ai " becomes "AI "; nothing else changes |
| ConnectionHint.PiecesJoin | nodes/LmChatZeaburAiHub/utils.ts:66-74 | the mapped pieces after the first concatenate to the locales joined by " or " |
| ConnectionHint.LocalePhraseJoin | nodes/LmChatZeaburAiHub/utils.ts:65-75 | both branches give the first locale's article, then every locale joined by " or " |
| ConnectionHint.Piece | nodes/LmChatZeaburAiHub/utils.ts:68-72 | one mapped element: the article before the first locale, " or " after all but the last |
| ConnectionHint.Pieces | nodes/LmChatZeaburAiHub/utils.ts:67-74 | the mapped elements from a position on; stated by ConnectionHint.PiecesJoin |
| ConnectionHint.LocalePhrase | nodes/LmChatZeaburAiHub/utils.ts:65-75 | the locale text of one group; stated by ConnectionHint.LocalePhraseJoin |
| ConnectionHint.GroupLink | nodes/LmChatZeaburAiHub/utils.ts:76 | the link of one group, built with the corrected Markup.GetAhref (see Left out) |
| ConnectionHint.Ahrefs | nodes/LmChatZeaburAiHub/utils.ts:64-77 | one link per group in Map order; stated by ConnectionHint.AhrefsContents |
| ConnectionHint.AhrefsContents | nodes/LmChatZeaburAiHub/utils.ts:64-79 | link k, in map order, is the corrected link of the k-th group, and its text is the group's article and locales joined by " or " |
| ConnectionHint.GetConnectionHintNoticeField | nodes/LmChatZeaburAiHub/utils.ts:30-91 | the notice for the types, named and typed "notice", default "", container class `ndv-connection-hint-notice` |
| ConnectionHint.DisplayName | nodes/LmChatZeaburAiHub/utils.ts:50-80 | the notice text: the single-group sentence for one group, the joined links otherwise; stated by ConnectionHint.SingleGroupSentence and ConnectionHint.AhrefsContents |
| ConnectionHint.NoticeFor | nodes/LmChatZeaburAiHub/utils.ts:30-91 | the notice field for a list of types; stated by ConnectionHint.GetConnectionHintNoticeField and the Notice lemmas |
| ConnectionHint.NoticeWithoutKnownTypes | nodes/LmChatZeaburAiHub/utils.ts:63-79 | with no known type the multi-group sentence has no links |
| ConnectionHint.FirstKnownTypeGroup | nodes/LmChatZeaburAiHub/utils.ts:33-48 | with a known type there is one group "", headed by the first known type's locale |
| ConnectionHint.SingleGroupSentence | nodes/LmChatZeaburAiHub/utils.ts:52-62 | one group gives the "must be connected to" sentence about its first locale (lower-cased, leading "ai " written "AI "), with the group's attribute on the "Insert one" link |
| ConnectionHint.FirstKnownTypeNotice | nodes/LmChatZeaburAiHub/utils.ts:52-62 | with a known type the notice is the single-group sentence about its locale, linking to the AI creator view |
| ConnectionHint.NoticeWithKnownType | nodes/LmChatZeaburAiHub/utils.ts:4-62 | the sentence reads "an AI agent" or "an AI chain" after the first known type |
| ConnectionHint.AgentPhrase | nodes/LmChatZeaburAiHub/utils.ts:55-59 | "AI Agent" is written "an AI agent" |
| ConnectionHint.ChainPhrase | nodes/LmChatZeaburAiHub/utils.ts:55-59 | "AI Chain" is written "an AI chain" |

## Left out

- HTTP requests, `getCredentials` and `getNodeParameter` are not executed. The responses, the credential and the parameters are inputs. The chat requests go through the `transport` parameter.
- ChatNode.Execute: a failure of `getCredentials` or `getNodeParameter` inside the `try` is not modelled. Only request failures reach the `catch`, and one credential value serves every item.
- ModelSearch.SearchModels: the `GET /models` call is not part of the method. `Catalog.ModelsRequest` states the request; the method starts from the parsed `data` array.
- Text.Lower: only ASCII letters are lowered. `toLowerCase` covers all of Unicode.
- Text.LexCompare: compares by Unicode code point. `localeCompare` uses the runtime's locale collation, and JavaScript strings are UTF-16, whose code-unit order differs from code-point order above U+FFFF.
- ChatNode.MaxTokensField: numbers are `real`, so NaN, infinities and float rounding are not modelled.
- LmChatNode.SupplyData: the `ChatOpenAI` object is not modelled, nor the tracing callback; only the configuration record passed to it is.
- Connection types are strings. The table's keys "ai_agent" and "ai_chain" stand for the host library's `AiAgent` and `AiChain` connection types, which the host library defines.
- Lookups in `connectionsString` see only its own keys, not inherited object properties.
- The node and credential description objects are left out: display names, property lists, icons and the credential test.
- ConnectionHint.GroupLink: builds each group's link with the corrected Markup.GetAhref, not with the link utils.ts:25-28 builds (Markup.GetAhrefAsWritten); see Findings. With the shipped table the multi-group branch is reached only with no groups (ConnectionHint.AtMostOneGroup), where the notice has no links and both agree.
- ConnectionHint.Ahrefs: its links are GroupLink's corrected links, for the same reason.
- ConnectionHint.AhrefsContents: states link k as the corrected link, for the same reason.
- ConnectionHint.DisplayName: the multi-group text joins the corrected links; the single-group sentence is as written.
- The LM node's `searchModels` (nodes/LmChatZeaburAiHub/LmChatZeaburAiHub.node.ts:65-129) is the same code as the action node's and is modelled once.

## Findings

| source | as written | input that shows it | evidently intended | confidence | as-written member | corrected member |
|---|---|---|---|---|---|---|
| nodes/LmChatZeaburAiHub/utils.ts:25-28 | the link puts the connection attribute right after `data-action='openSelectiveNodeCreator'` with no space, and adds a `'` after that attribute's closing quote | any group, e.g. connection "" and locale "an AI Agent": the tag reads `…openSelectiveNodeCreator'data-action-parameter-creatorview='AI''>` | a space between the attributes and `>` right after the value, as in the "Insert one" link at utils.ts:60-62 | not executed | Markup.AhrefAsWrittenMalformed | Markup.AhrefWellFormed |
