/** The Zeabur AI Hub chat-model node's `supplyData`: it reads the item's
    model and options and builds the configuration of the LangChain chat
    model it hands to the agent or chain it is connected to. The chat model
    itself, and the callback that reports its runs to the editor, are not
    part of this model; the configuration record is what `supplyData`
    decides. */
module LmChatNode {
  import opened Wrappers
  import opened Catalog
  import ChatNode

  const DefaultTimeout: real := 60000.0
  const DefaultMaxRetries: real := 2.0

  /** The node's `options` collection; a field is None when the user left it out. */
  datatype LmOptions = LmOptions(
    frequencyPenalty: Option<real>,
    maxTokens: Option<real>,
    presencePenalty: Option<real>,
    temperature: Option<real>,
    timeout: Option<real>,
    maxRetries: Option<real>,
    topP: Option<real>)

  /** The object passed to `new ChatOpenAI(...)`; an Option field that is
      None is passed as `undefined`. */
  datatype ChatModelConfig = ChatModelConfig(
    apiKey: string,
    model: string,
    temperature: real,
    maxTokens: Option<real>,
    topP: Option<real>,
    frequencyPenalty: Option<real>,
    presencePenalty: Option<real>,
    timeout: real,
    maxRetries: real,
    baseUrl: string,
    useResponsesApi: bool)

  /** `options.maxTokens !== -1 ? options.maxTokens : undefined`: the -1
      "no limit" default becomes undefined, every other value (0 included)
      is forwarded. */
  function ForwardMaxTokens(maxTokens: Option<real>): (r: Option<real>)
    ensures r.None? <==> maxTokens.None? || maxTokens == Some(-1.0)
    ensures r.Some? ==> r == maxTokens
  {
    if maxTokens != Some(-1.0) then maxTokens else None
  }

  /** The configuration `supplyData` builds for the item. */
  function SupplyData(creds: Credentials, modelValue: string, options: LmOptions): ChatModelConfig
  {
    ChatModelConfig(
      creds.apiKey,
      ModelName(modelValue),
      options.temperature.GetOr(ChatNode.DefaultTemperature),
      ForwardMaxTokens(options.maxTokens),
      options.topP,
      options.frequencyPenalty,
      options.presencePenalty,
      options.timeout.GetOr(DefaultTimeout),
      options.maxRetries.GetOr(DefaultMaxRetries),
      BaseUrl(creds.region),
      false)
  }

  /** What the configuration keeps of the options: `??` defaults apply only
      to options left out (an explicit 0 timeout or retry count is kept), the
      sampling options pass through untouched, and the Responses API is off. */
  lemma SupplyDataOptions(creds: Credentials, modelValue: string, options: LmOptions)
    ensures var c := SupplyData(creds, modelValue, options);
      && c.temperature == (if options.temperature.Some? then options.temperature.value else 0.7)
      && c.timeout == (if options.timeout.Some? then options.timeout.value else 60000.0)
      && c.maxRetries == (if options.maxRetries.Some? then options.maxRetries.value else 2.0)
      && (options.timeout == Some(0.0) ==> c.timeout == 0.0)
      && (options.maxRetries == Some(0.0) ==> c.maxRetries == 0.0)
      && c.topP == options.topP
      && c.frequencyPenalty == options.frequencyPenalty
      && c.presencePenalty == options.presencePenalty
      && !c.useResponsesApi
  {
  }

  /** The configuration talks to the credential's region with its key and
      the chosen model, or gpt-4o-mini when none is chosen. */
  lemma SupplyDataEndpoint(creds: Credentials, modelValue: string, options: LmOptions)
    ensures var c := SupplyData(creds, modelValue, options);
      && c.apiKey == creds.apiKey
      && (c.baseUrl == Sfo1Url <==> creds.region == Some("sfo1"))
      && (c.baseUrl == Hnd1Url <==> creds.region != Some("sfo1"))
      && c.model == (if modelValue == "" then "gpt-4o-mini" else modelValue)
  {
  }

  /** The two nodes treat the max-tokens option alike except for 0: the chat
      node drops a 0 (falsy) while this node forwards it. Both drop -1 and
      leave an unset option unset. */
  lemma MaxTokensAcrossNodes(maxTokens: Option<real>)
    ensures maxTokens != Some(0.0) ==> ForwardMaxTokens(maxTokens) == ChatNode.MaxTokensField(maxTokens)
    ensures ForwardMaxTokens(Some(0.0)) == Some(0.0) && ChatNode.MaxTokensField(Some(0.0)) == None
    ensures ForwardMaxTokens(Some(-1.0)) == None && ChatNode.MaxTokensField(Some(-1.0)) == None
  {
  }

  /** For the same options, the model node and the chat node use the same
      model, temperature, penalties and top-p when those are set, and the
      same endpoint; where an option is left out the chat node sends its own
      default while this node leaves top-p and the penalties to the library. */
  lemma AgreesWithChatNode(creds: Credentials, p: ChatNode.ItemParams, timeout: Option<real>, maxRetries: Option<real>)
    ensures var o := p.options;
      var c := SupplyData(creds, p.model,
        LmOptions(o.frequencyPenalty, o.maxTokens, o.presencePenalty, o.temperature, timeout, maxRetries, o.topP));
      var r := ChatNode.RequestFor(p, creds);
      && c.model == r.body.model
      && c.temperature == r.body.temperature
      && (o.topP.Some? ==> c.topP == Some(r.body.topP))
      && (o.frequencyPenalty.Some? ==> c.frequencyPenalty == Some(r.body.frequencyPenalty))
      && (o.presencePenalty.Some? ==> c.presencePenalty == Some(r.body.presencePenalty))
      && r.request.url == c.baseUrl + "/chat/completions"
  {
  }
}
