/** The Zeabur AI Hub node's `execute`: for the "chat"/"message" operation it
    sends one chat-completion request per input item and returns one output
    item per input item, in order, each paired with the item it came from.
    The HTTP call is a parameter `transport`, given the item index and the
    request and answering with the parsed response or the error it throws. */
module ChatNode {
  import opened Wrappers
  import opened Catalog

  const DefaultTemperature: real := 0.7
  const DefaultTopP: real := 1.0
  const DefaultPenalty: real := 0.0

  /** The node's `options` collection; a field is None when the user left it out. */
  datatype ChatOptions = ChatOptions(
    temperature: Option<real>,
    maxTokens: Option<real>,
    topP: Option<real>,
    frequencyPenalty: Option<real>,
    presencePenalty: Option<real>)

  /** The parameters `execute` reads for one item. */
  datatype ItemParams = ItemParams(model: string, content: string, options: ChatOptions)

  datatype Message = Message(role: string, content: string)

  /** The JSON body of `POST /chat/completions`; `maxTokens` is None when
      the body has no `max_tokens` field. */
  datatype ChatBody = ChatBody(
    model: string,
    messages: seq<Message>,
    temperature: real,
    topP: real,
    frequencyPenalty: real,
    presencePenalty: real,
    maxTokens: Option<real>)

  datatype ChatRequest = ChatRequest(request: Request, body: ChatBody)

  /** A top-level field of the provider's JSON response, kept as it came. */
  datatype Value = Str(text: string) | Json(raw: string)

  /** A parsed response: its top-level fields, and
      `response.choices[0].message.content` when there is one. */
  datatype ChatResponse = ChatResponse(fields: map<string, Value>, firstContent: Option<string>)

  /** One entry of `returnData`: its `json` and `pairedItem.item`. */
  datatype OutputItem = OutputItem(json: map<string, Value>, pairedItem: nat)

  /** `options.maxTokens && options.maxTokens !== -1`: `max_tokens` is sent
      only for a value that is truthy (not 0) and not the -1 "no limit" default. */
  function MaxTokensField(maxTokens: Option<real>): (r: Option<real>)
    ensures r.Some? <==> maxTokens.Some? && maxTokens.value != 0.0 && maxTokens.value != -1.0
    ensures r.Some? ==> r == maxTokens
  {
    if maxTokens.Some? && maxTokens.value != 0.0 && maxTokens.value != -1.0 then maxTokens else None
  }

  /** The request body for one item. */
  function BuildBody(p: ItemParams): ChatBody
  {
    var o := p.options;
    ChatBody(
      ModelName(p.model),
      [Message("user", p.content)],
      o.temperature.GetOr(DefaultTemperature),
      o.topP.GetOr(DefaultTopP),
      o.frequencyPenalty.GetOr(DefaultPenalty),
      o.presencePenalty.GetOr(DefaultPenalty),
      MaxTokensField(o.maxTokens))
  }

  /** Every option the user set is sent as set, zero included (`??` keeps 0),
      and every option left out is sent as its default. */
  lemma BodyOptions(p: ItemParams)
    ensures var b, o := BuildBody(p), p.options;
      && (o.temperature.Some? ==> b.temperature == o.temperature.value)
      && (o.temperature.None? ==> b.temperature == 0.7)
      && (o.topP.Some? ==> b.topP == o.topP.value)
      && (o.topP.None? ==> b.topP == 1.0)
      && (o.frequencyPenalty.Some? ==> b.frequencyPenalty == o.frequencyPenalty.value)
      && (o.frequencyPenalty.None? ==> b.frequencyPenalty == 0.0)
      && (o.presencePenalty.Some? ==> b.presencePenalty == o.presencePenalty.value)
      && (o.presencePenalty.None? ==> b.presencePenalty == 0.0)
  {
  }

  /** The body asks the chosen model (or gpt-4o-mini) for a reply to exactly
      one user message carrying the item's content. */
  lemma BodyMessage(p: ItemParams)
    ensures BuildBody(p).messages == [Message("user", p.content)]
    ensures BuildBody(p).model == (if p.model == "" then "gpt-4o-mini" else p.model)
  {
  }

  /** `POST {baseUrl}/chat/completions` with the key as a bearer token. */
  function RequestFor(p: ItemParams, creds: Credentials): (r: ChatRequest)
    ensures r.request.verb == "POST"
    ensures r.request.url == BaseUrl(creds.region) + "/chat/completions"
    ensures ("Authorization", "Bearer " + creds.apiKey) in r.request.headers
    ensures r.body == BuildBody(p)
  {
    ChatRequest(
      Request("POST", BaseUrl(creds.region) + "/chat/completions",
        [("Authorization", "Bearer " + creds.apiKey), ("Content-Type", "application/json")]),
      BuildBody(p))
  }

  /** `choice?.message?.content || ''`. */
  function MessageOf(resp: ChatResponse): string
  {
    resp.firstContent.GetOr("")
  }

  /** `{ json: { message, ...response }, pairedItem: { item: i } }`: the
      response's own fields come after `message` and win over it. */
  function SuccessItem(resp: ChatResponse, i: nat): OutputItem
  {
    OutputItem(map["message" := Str(MessageOf(resp))] + resp.fields, i)
  }

  /** `{ json: { error: error.message }, pairedItem: { item: i } }`. */
  function ErrorItem(message: string, i: nat): OutputItem
  {
    OutputItem(map["error" := Str(message)], i)
  }

  /** A success item carries every field of the response unchanged, and the
      reply text under `message` unless the response has a field of that name. */
  lemma SuccessItemFields(resp: ChatResponse, i: nat)
    ensures var item := SuccessItem(resp, i);
      && item.pairedItem == i
      && item.json.Keys == resp.fields.Keys + {"message"}
      && (forall k :: k in resp.fields ==> item.json[k] == resp.fields[k])
      && ("message" !in resp.fields ==> item.json["message"] == Str(MessageOf(resp)))
      && (resp.firstContent.None? ==> MessageOf(resp) == "")
  {
  }

  /** What the request for item `i` comes back with. */
  function Outcome(items: seq<ItemParams>, creds: Credentials, transport: (nat, ChatRequest) -> Result<ChatResponse>, i: nat): Result<ChatResponse>
    requires i < |items|
  {
    transport(i, RequestFor(items[i], creds))
  }

  /** The output item for item `i` when its failure does not stop the run. */
  function ItemFor(items: seq<ItemParams>, creds: Credentials, transport: (nat, ChatRequest) -> Result<ChatResponse>, i: nat): OutputItem
    requires i < |items|
  {
    match Outcome(items, creds, transport, i)
    case Ok(resp) => SuccessItem(resp, i)
    case Err(message) => ErrorItem(message, i)
  }

  /** `returnData` after the first `n` iterations of the loop, or the error
      thrown out of it. */
  function Run(items: seq<ItemParams>, creds: Credentials, transport: (nat, ChatRequest) -> Result<ChatResponse>, continueOnFail: bool, n: nat): Result<seq<OutputItem>>
    requires n <= |items|
  {
    if n == 0 then Ok([])
    else
      match Run(items, creds, transport, continueOnFail, n - 1)
      case Err(e) => Err(e)
      case Ok(out) =>
        match Outcome(items, creds, transport, n - 1)
        case Ok(resp) => Ok(out + [SuccessItem(resp, n - 1)])
        case Err(message) => if continueOnFail then Ok(out + [ErrorItem(message, n - 1)]) else Err(message)
  }

  /** The result of `execute`: `[returnData]`, which stays empty for any
      resource/operation other than chat/message. */
  function ExecuteResult(resource: string, operation: string, items: seq<ItemParams>, creds: Credentials, transport: (nat, ChatRequest) -> Result<ChatResponse>, continueOnFail: bool): Result<seq<seq<OutputItem>>>
  {
    if resource == "chat" && operation == "message" then
      match Run(items, creds, transport, continueOnFail, |items|)
      case Ok(out) => Ok([out])
      case Err(e) => Err(e)
    else Ok([[]])
  }

  /** Once an error has been thrown, later items are never reached. */
  lemma {:induction false} RunErrStays(items: seq<ItemParams>, creds: Credentials, transport: (nat, ChatRequest) -> Result<ChatResponse>, continueOnFail: bool, m: nat, n: nat)
    requires m <= n <= |items|
    requires Run(items, creds, transport, continueOnFail, m).Err?
    ensures Run(items, creds, transport, continueOnFail, n) == Run(items, creds, transport, continueOnFail, m)
    decreases n
  {
    if m < n {
      RunErrStays(items, creds, transport, continueOnFail, m, n - 1);
    }
  }

  /** The per-item loop of `execute`. */
  method Execute(resource: string, operation: string, items: seq<ItemParams>, creds: Credentials, transport: (nat, ChatRequest) -> Result<ChatResponse>, continueOnFail: bool)
    returns (r: Result<seq<seq<OutputItem>>>)
    ensures r == ExecuteResult(resource, operation, items, creds, transport, continueOnFail)
  {
    var returnData: seq<OutputItem> := [];
    if resource == "chat" && operation == "message" {
      for i := 0 to |items|
        invariant Run(items, creds, transport, continueOnFail, i) == Ok(returnData)
      {
        var request := RequestFor(items[i], creds);
        var reply := transport(i, request);
        match reply {
          case Ok(resp) =>
            returnData := returnData + [SuccessItem(resp, i)];
          case Err(message) =>
            if continueOnFail {
              returnData := returnData + [ErrorItem(message, i)];
            } else {
              RunErrStays(items, creds, transport, continueOnFail, i + 1, |items|);
              return Err(message);
            }
        }
      }
    }
    return Ok([returnData]);
  }

  /** A run that completes has one output item per input item, in input
      order, each paired with its input index and holding that item's reply
      or its error. */
  lemma {:induction false} RunOutputs(items: seq<ItemParams>, creds: Credentials, transport: (nat, ChatRequest) -> Result<ChatResponse>, continueOnFail: bool, n: nat)
    requires n <= |items|
    ensures var r := Run(items, creds, transport, continueOnFail, n);
      r.Ok? ==> (|r.value| == n &&
        forall i :: 0 <= i < n ==> r.value[i] == ItemFor(items, creds, transport, i) && r.value[i].pairedItem == i)
  {
    if n > 0 {
      RunOutputs(items, creds, transport, continueOnFail, n - 1);
    }
  }

  /** The loop throws exactly when some request fails and continueOnFail is off. */
  lemma {:induction false} RunFailsIff(items: seq<ItemParams>, creds: Credentials, transport: (nat, ChatRequest) -> Result<ChatResponse>, continueOnFail: bool, n: nat)
    requires n <= |items|
    ensures Run(items, creds, transport, continueOnFail, n).Err? <==>
      !continueOnFail && exists i :: 0 <= i < n && Outcome(items, creds, transport, i).Err?
  {
    if n > 0 {
      RunFailsIff(items, creds, transport, continueOnFail, n - 1);
      if Outcome(items, creds, transport, n - 1).Err? {
        assert exists i :: 0 <= i < n && Outcome(items, creds, transport, i).Err?;
      } else {
        if exists i :: 0 <= i < n && Outcome(items, creds, transport, i).Err? {
          var i :| 0 <= i < n && Outcome(items, creds, transport, i).Err?;
          assert i < n - 1;
        }
      }
    }
  }

  /** The error thrown is the first failing request's. */
  lemma {:induction false} RunFirstError(items: seq<ItemParams>, creds: Credentials, transport: (nat, ChatRequest) -> Result<ChatResponse>, continueOnFail: bool, n: nat)
    requires n <= |items|
    ensures var r := Run(items, creds, transport, continueOnFail, n);
      r.Err? ==> exists i :: (0 <= i < n && Outcome(items, creds, transport, i) == Err(r.error) &&
        forall j :: 0 <= j < i ==> Outcome(items, creds, transport, j).Ok?)
  {
    if n > 0 {
      RunFirstError(items, creds, transport, continueOnFail, n - 1);
      RunFailsIff(items, creds, transport, continueOnFail, n - 1);
      var r := Run(items, creds, transport, continueOnFail, n);
      if r.Err? && Run(items, creds, transport, continueOnFail, n - 1).Ok? {
        assert !continueOnFail && Outcome(items, creds, transport, n - 1) == Err(r.error);
        forall j | 0 <= j < n - 1 ensures Outcome(items, creds, transport, j).Ok? {
          assert !(0 <= j < n - 1 && Outcome(items, creds, transport, j).Err?);
        }
        assert 0 <= n - 1 < n && Outcome(items, creds, transport, n - 1) == Err(r.error) &&
          forall j :: 0 <= j < n - 1 ==> Outcome(items, creds, transport, j).Ok?;
      }
    }
  }

  /** End to end: `execute` for chat/message either returns one branch with
      an item per input item, or throws because continueOnFail is off and a
      request failed; any other resource/operation returns one empty branch. */
  lemma ExecuteShape(resource: string, operation: string, items: seq<ItemParams>, creds: Credentials, transport: (nat, ChatRequest) -> Result<ChatResponse>, continueOnFail: bool)
    ensures var r := ExecuteResult(resource, operation, items, creds, transport, continueOnFail);
      && (r.Ok? ==> |r.value| == 1)
      && (r.Ok? && resource == "chat" && operation == "message" ==>
            |r.value[0]| == |items| &&
            forall i :: 0 <= i < |items| ==> r.value[0][i] == ItemFor(items, creds, transport, i))
      && (r.Err? <==> (resource == "chat" && operation == "message" && !continueOnFail &&
            exists i :: 0 <= i < |items| && Outcome(items, creds, transport, i).Err?))
      && (continueOnFail ==> r.Ok?)
  {
    RunOutputs(items, creds, transport, continueOnFail, |items|);
    RunFailsIff(items, creds, transport, continueOnFail, |items|);
  }
}
