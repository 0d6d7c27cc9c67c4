/** Request construction and result extraction for the three backends
    (src/client.rs). Each network exchange is a function parameter that
    maps the request about to be sent to what came back, so every request
    body and every outcome rule is modelled while the transport is not. */
module Client {
  import opened Wrappers
  import opened Text
  import opened Config
  import opened Context

  /** The system instructions sent with every request. Their wording is
      not part of this model; every property holds whatever it is. */
  const INSTRUCTIONS: string

  /** The command-line arguments the client reads. */
  datatype Args = Args(input: string, verbose: bool)

  datatype RequestClient = RequestClient(args: Args, context: ShellContext, config: Config)

  // ---------------------------------------------------------------------
  // The prompt
  // ---------------------------------------------------------------------

  const VERBOSE_MARKER: string := " [verbose]"

  function VerboseTag(verbose: bool): string {
    if verbose then VERBOSE_MARKER else ""
  }

  const REQUEST_OPEN: string := "\n\n<request>"
  const REQUEST_CLOSE: string := "</request>"

  /** `RequestClient::gen_prompt`; its layout is `PromptLayout`. */
  function GenPrompt(c: RequestClient): string {
    AsPromptContext(c.context) + REQUEST_OPEN + (c.args.input + VerboseTag(c.args.verbose) + REQUEST_CLOSE)
  }

  /** The prompt carries the user's request text whole. */
  lemma PromptCarriesInput(c: RequestClient)
    ensures Contains(GenPrompt(c), c.args.input)
  {
    var head := AsPromptContext(c.context) + REQUEST_OPEN;
    var tail := VerboseTag(c.args.verbose) + REQUEST_CLOSE;
    ContainsInfix(head, c.args.input, tail);
    assert head + c.args.input + tail == GenPrompt(c);
  }

  /** The prompt is the context block, then the request element holding the
      input, marked " [verbose]" at its end in verbose mode. */
  lemma PromptLayout(c: RequestClient)
    ensures var p := GenPrompt(c); var head := AsPromptContext(c.context) + REQUEST_OPEN;
      && |p| >= |head| + |REQUEST_CLOSE|
      && p[..|head|] == head
      && p[|p| - |REQUEST_CLOSE|..] == REQUEST_CLOSE
      && (c.args.verbose ==> p[|head|..] == c.args.input + VERBOSE_MARKER + REQUEST_CLOSE)
      && (!c.args.verbose ==> p[|head|..] == c.args.input + REQUEST_CLOSE)
  {
    var head := AsPromptContext(c.context) + REQUEST_OPEN;
    PartsOfFramed(head, c.args.input + VerboseTag(c.args.verbose), REQUEST_CLOSE);
  }

  /** With the context and the mode fixed, the prompt determines the input. */
  lemma {:induction false} PromptDeterminesInput(c1: RequestClient, c2: RequestClient)
    requires c1.context == c2.context && c1.args.verbose == c2.args.verbose
    requires GenPrompt(c1) == GenPrompt(c2)
    ensures c1.args.input == c2.args.input
  {
    var head := AsPromptContext(c1.context) + REQUEST_OPEN;
    var tail := VerboseTag(c1.args.verbose) + REQUEST_CLOSE;
    assert GenPrompt(c1) == head + (c1.args.input + tail);
    assert GenPrompt(c2) == head + (c2.args.input + tail);
    FramedMiddle(head, c1.args.input, c2.args.input, tail);
  }

  /** The verbose marker travels in the same text as the input: a standard
      request whose input already ends in " [verbose]" gives the same prompt
      as the verbose request without it (only the token budget differs). */
  lemma VerboseMarkerInBand(ctx: ShellContext, config: Config, input: string)
    ensures GenPrompt(RequestClient(Args(input + VERBOSE_MARKER, false), ctx, config))
         == GenPrompt(RequestClient(Args(input, true), ctx, config))
  {
  }

  /** The output budget of all three backends. */
  function MaxTokens(verbose: bool): nat {
    if verbose then 512 else 256
  }

  // ---------------------------------------------------------------------
  // OpenAI
  // ---------------------------------------------------------------------

  /** The fields of `CreateResponseArgs` that are set (the temperature is
      not modelled). */
  datatype OpenAIRequest = OpenAIRequest(model: string, instructions: string, input: string, maxOutputTokens: nat)

  /** What `response.output_text()` gives. */
  datatype OpenAIResponse = OpenAIResponse(outputText: Option<string>)

  function OpenAIRequestFor(c: RequestClient): OpenAIRequest {
    OpenAIRequest(OpenAIModel(c.config), INSTRUCTIONS, GenPrompt(c), MaxTokens(c.args.verbose))
  }

  /** `request_openai`; `create` is the client library's call. A command
      comes back only from a call that succeeded with an output text, and
      it is that text. */
  function RequestOpenAI(c: RequestClient, create: OpenAIRequest -> Result<OpenAIResponse>): (r: Result<string>)
    ensures r.Ok? <==> create(OpenAIRequestFor(c)).Ok? && create(OpenAIRequestFor(c)).value.outputText.Some?
    ensures r.Ok? ==> r.value == create(OpenAIRequestFor(c)).value.outputText.value
  {
    match create(OpenAIRequestFor(c))
    case Err(e) => Err(e)
    case Ok(response) =>
      match response.outputText
      case Some(text) => Ok(text)
      case None => Err("Empty response")
  }

  // ---------------------------------------------------------------------
  // Anthropic
  // ---------------------------------------------------------------------

  const ANTHROPIC_URL: string := "https://api.anthropic.com/v1/messages"

  datatype AnthropicMessage = AnthropicMessage(role: string, content: string)
  datatype AnthropicRequest = AnthropicRequest(model: string, maxTokens: nat, system: string, messages: seq<AnthropicMessage>)
  datatype AnthropicContent = AnthropicContent(text: string)
  datatype AnthropicResponse = AnthropicResponse(content: seq<AnthropicContent>)

  /** The POST that is sent: where, with which key, and the JSON body. */
  datatype AnthropicPost = AnthropicPost(url: string, apiKey: string, body: AnthropicRequest)

  /** What an HTTP exchange gives back: the send failed, or a reply came
      with a success flag, the outcome of reading its body as text and the
      outcome of decoding its body as JSON. */
  datatype HttpReply<T> = SendFailed(error: string) | Replied(success: bool, text: Result<string>, json: Result<T>)

  function AnthropicRequestFor(c: RequestClient): AnthropicRequest {
    AnthropicRequest(AnthropicModel(c.config), MaxTokens(c.args.verbose), INSTRUCTIONS,
                     [AnthropicMessage("user", GenPrompt(c))])
  }

  /** The text put before the reply body of a non-success status. */
  const ANTHROPIC_ERROR_PREFIX: string := "Anthropic API error: "

  /** `request_anthropic`; `apiKey` is the ANTHROPIC_API_KEY variable and
      `post` the HTTP exchange. A command comes back only when a key is set
      and the reply has a success status, decodes, and has content; it is
      the text of the first content element. */
  function RequestAnthropic(c: RequestClient, apiKey: Option<string>,
                            post: AnthropicPost -> HttpReply<AnthropicResponse>): (r: Result<string>)
    ensures r.Ok? ==> apiKey.Some?
    ensures r.Ok? ==>
      var reply := post(AnthropicPost(ANTHROPIC_URL, apiKey.value, AnthropicRequestFor(c)));
      && reply.Replied? && reply.success && reply.json.Ok? && |reply.json.value.content| > 0
      && r.value == reply.json.value.content[0].text
  {
    match apiKey
    case None => Err("ANTHROPIC_API_KEY not set")
    case Some(key) =>
      match post(AnthropicPost(ANTHROPIC_URL, key, AnthropicRequestFor(c)))
      case SendFailed(e) => Err(e)
      case Replied(success, text, json) =>
        if !success then
          match text
          case Err(e) => Err(e)
          case Ok(body) => Err(ANTHROPIC_ERROR_PREFIX + body)
        else
          match json
          case Err(e) => Err(e)
          case Ok(response) =>
            if |response.content| > 0 then Ok(response.content[0].text)
            else Err("Empty response from Anthropic")
  }

  // ---------------------------------------------------------------------
  // Ollama
  // ---------------------------------------------------------------------

  datatype OllamaMessage = OllamaMessage(role: string, content: string)

  /** The options object (the temperature is not modelled). */
  datatype OllamaOptions = OllamaOptions(numPredict: nat)
  datatype OllamaRequest = OllamaRequest(model: string, messages: seq<OllamaMessage>, stream: bool, options: OllamaOptions)
  datatype OllamaResponseMessage = OllamaResponseMessage(content: string)
  datatype OllamaResponse = OllamaResponse(message: OllamaResponseMessage)
  datatype OllamaPost = OllamaPost(url: string, body: OllamaRequest)

  function OllamaPostFor(c: RequestClient): OllamaPost {
    OllamaPost(
      OllamaUrl(c.config) + "/api/chat",
      OllamaRequest(
        OllamaModel(c.config),
        [OllamaMessage("system", INSTRUCTIONS), OllamaMessage("user", GenPrompt(c))],
        false,
        OllamaOptions(MaxTokens(c.args.verbose))))
  }

  /** The text around the reply body of a non-success status. */
  const OLLAMA_ERROR_PREFIX: string := "Ollama error: "
  const OLLAMA_HINT: string := ". Is Ollama running?"

  /** `request_ollama`; `post` is the HTTP exchange. A command comes back
      only from a reply with a success status that decodes; it is the
      reply's message content. */
  function RequestOllama(c: RequestClient, post: OllamaPost -> HttpReply<OllamaResponse>): (r: Result<string>)
    ensures r.Ok? <==> var reply := post(OllamaPostFor(c)); reply.Replied? && reply.success && reply.json.Ok?
    ensures r.Ok? ==> r.value == post(OllamaPostFor(c)).json.value.message.content
  {
    match post(OllamaPostFor(c))
    case SendFailed(e) => Err(e)
    case Replied(success, text, json) =>
      if !success then
        match text
        case Err(e) => Err(e)
        case Ok(body) => Err(OLLAMA_ERROR_PREFIX + body + OLLAMA_HINT)
      else
        match json
        case Err(e) => Err(e)
        case Ok(response) => Ok(response.message.content)
  }

  // ---------------------------------------------------------------------
  // Dispatch
  // ---------------------------------------------------------------------

  /** The three network exchanges, one per backend. */
  datatype Backends = Backends(
    openai: OpenAIRequest -> Result<OpenAIResponse>,
    anthropic: AnthropicPost -> HttpReply<AnthropicResponse>,
    ollama: OllamaPost -> HttpReply<OllamaResponse>)

  /** `RequestClient::make_request`. */
  function MakeRequest(c: RequestClient, anthropicKey: Option<string>, net: Backends): Result<string> {
    match c.config.provider
    case OpenAI => RequestOpenAI(c, net.openai)
    case Anthropic => RequestAnthropic(c, anthropicKey, net.anthropic)
    case Ollama => RequestOllama(c, net.ollama)
  }

  /** Two sets of backends that agree on the configured one. */
  ghost predicate AgreeOn(p: Provider, n1: Backends, n2: Backends) {
    match p
    case OpenAI => forall r :: n1.openai(r) == n2.openai(r)
    case Anthropic => forall r :: n1.anthropic(r) == n2.anthropic(r)
    case Ollama => forall r :: n1.ollama(r) == n2.ollama(r)
  }

  /** `make_request` talks to exactly the configured backend: its result is
      that backend's result, and backends that behave the same on the
      configured one give the same result whatever the other two do. */
  lemma MakeRequestDispatch(c: RequestClient, key: Option<string>, n1: Backends, n2: Backends)
    requires AgreeOn(c.config.provider, n1, n2)
    ensures MakeRequest(c, key, n1) == MakeRequest(c, key, n2)
    ensures c.config.provider == OpenAI ==> MakeRequest(c, key, n1) == RequestOpenAI(c, n1.openai)
    ensures c.config.provider == Anthropic ==> MakeRequest(c, key, n1) == RequestAnthropic(c, key, n1.anthropic)
    ensures c.config.provider == Ollama ==> MakeRequest(c, key, n1) == RequestOllama(c, n1.ollama)
  {
    match c.config.provider
    case OpenAI => assert n1.openai(OpenAIRequestFor(c)) == n2.openai(OpenAIRequestFor(c));
    case Anthropic =>
      if key.Some? {
        var req := AnthropicPost(ANTHROPIC_URL, key.value, AnthropicRequestFor(c));
        assert n1.anthropic(req) == n2.anthropic(req);
      }
    case Ollama => assert n1.ollama(OllamaPostFor(c)) == n2.ollama(OllamaPostFor(c));
  }

  // ---------------------------------------------------------------------
  // Properties of the request bodies
  // ---------------------------------------------------------------------

  /** The same two-tier budget in all three bodies: 512 tokens in verbose
      mode, 256 otherwise. */
  lemma TokenBudgetUniform(c: RequestClient)
    ensures OpenAIRequestFor(c).maxOutputTokens == (if c.args.verbose then 512 else 256)
    ensures AnthropicRequestFor(c).maxTokens == OpenAIRequestFor(c).maxOutputTokens
    ensures OllamaPostFor(c).body.options.numPredict == OpenAIRequestFor(c).maxOutputTokens
  {
  }

  /** All three bodies carry the same instructions and the same prompt,
      each under the model name the configuration gives for that backend. */
  lemma BodiesCarryPrompt(c: RequestClient)
    ensures OpenAIRequestFor(c).instructions == INSTRUCTIONS && OpenAIRequestFor(c).input == GenPrompt(c)
    ensures OpenAIRequestFor(c).model == ModelFor(c.config, OpenAI)
    ensures AnthropicRequestFor(c).system == INSTRUCTIONS
    ensures AnthropicRequestFor(c).model == ModelFor(c.config, Anthropic)
    ensures AnthropicRequestFor(c).messages == [AnthropicMessage("user", GenPrompt(c))]
    ensures OllamaPostFor(c).body.model == ModelFor(c.config, Ollama)
    ensures OllamaPostFor(c).body.messages
         == [OllamaMessage("system", INSTRUCTIONS), OllamaMessage("user", GenPrompt(c))]
    ensures !OllamaPostFor(c).body.stream
  {
  }

  /** The Ollama request goes to the configured base URL with "/api/chat"
      appended, the default base being the local service. */
  lemma OllamaEndpoint(c: RequestClient)
    ensures OllamaPostFor(c).url == OllamaUrl(c.config) + "/api/chat"
    ensures c.config.ollamaUrl.None? ==> OllamaPostFor(c).url == "http://localhost:11434/api/chat"
  {
  }

  // ---------------------------------------------------------------------
  // Properties of the outcome rules
  // ---------------------------------------------------------------------

  /** Without ANTHROPIC_API_KEY the Anthropic call fails before anything is
      sent: the result is the same whatever the network would do. */
  lemma AnthropicNeedsKey(c: RequestClient, post1: AnthropicPost -> HttpReply<AnthropicResponse>,
                          post2: AnthropicPost -> HttpReply<AnthropicResponse>)
    ensures RequestAnthropic(c, None, post1) == Err("ANTHROPIC_API_KEY not set")
    ensures RequestAnthropic(c, None, post1) == RequestAnthropic(c, None, post2)
  {
  }

  /** With a key, the POST goes to the messages endpoint with that key
      and the Anthropic body. */
  lemma AnthropicSendsWithKey(c: RequestClient, key: string, post: AnthropicPost -> HttpReply<AnthropicResponse>)
    requires post(AnthropicPost(ANTHROPIC_URL, key, AnthropicRequestFor(c))).SendFailed?
    ensures RequestAnthropic(c, Some(key), post)
         == Err(post(AnthropicPost(ANTHROPIC_URL, key, AnthropicRequestFor(c))).error)
  {
  }

  /** A non-success status from Anthropic is an error whose text holds
      the reply body. */
  lemma AnthropicErrorCarriesBody(c: RequestClient, key: string, body: string,
                                  post: AnthropicPost -> HttpReply<AnthropicResponse>)
    requires var r := post(AnthropicPost(ANTHROPIC_URL, key, AnthropicRequestFor(c)));
      r.Replied? && !r.success && r.text == Ok(body)
    ensures RequestAnthropic(c, Some(key), post).Err?
    ensures Contains(RequestAnthropic(c, Some(key), post).error, body)
  {
    ContainsInfix(ANTHROPIC_ERROR_PREFIX, body, []);
    assert ANTHROPIC_ERROR_PREFIX + body == ANTHROPIC_ERROR_PREFIX + body + [];
  }

  /** A non-success status from Ollama is an error whose text holds the
      reply body and the hint to start the local service. */
  lemma OllamaErrorCarriesBody(c: RequestClient, body: string, post: OllamaPost -> HttpReply<OllamaResponse>)
    requires var r := post(OllamaPostFor(c)); r.Replied? && !r.success && r.text == Ok(body)
    ensures RequestOllama(c, post).Err?
    ensures Contains(RequestOllama(c, post).error, body)
    ensures Contains(RequestOllama(c, post).error, OLLAMA_HINT)
  {
    ContainsInfix(OLLAMA_ERROR_PREFIX, body, OLLAMA_HINT);
    ContainsInfix(OLLAMA_ERROR_PREFIX + body, OLLAMA_HINT, []);
    assert OLLAMA_ERROR_PREFIX + body + OLLAMA_HINT == OLLAMA_ERROR_PREFIX + body + OLLAMA_HINT + [];
  }

  /** A request that cannot reach the Ollama service fails with the
      transport's own error: the hint to start the local service is added
      only to a reply with a non-success status. */
  lemma OllamaSendFailurePassesThrough(c: RequestClient, post: OllamaPost -> HttpReply<OllamaResponse>)
    requires post(OllamaPostFor(c)).SendFailed?
    ensures RequestOllama(c, post) == Err(post(OllamaPostFor(c)).error)
  {
  }

  /** A successful Anthropic reply yields the text of its first content
      element, and one without content is the empty-response error. */
  lemma AnthropicFirstContent(c: RequestClient, key: string, post: AnthropicPost -> HttpReply<AnthropicResponse>,
                              content: seq<AnthropicContent>)
    requires var r := post(AnthropicPost(ANTHROPIC_URL, key, AnthropicRequestFor(c)));
      r.Replied? && r.success && r.json == Ok(AnthropicResponse(content))
    ensures content != [] ==> RequestAnthropic(c, Some(key), post) == Ok(content[0].text)
    ensures content == [] ==> RequestAnthropic(c, Some(key), post) == Err("Empty response from Anthropic")
  {
  }

  /** OpenAI: the output text when there is one, the empty-response error
      when there is none, and the library's error when the call fails. */
  lemma OpenAIOutcome(c: RequestClient, create: OpenAIRequest -> Result<OpenAIResponse>)
    ensures create(OpenAIRequestFor(c)).Err? ==> RequestOpenAI(c, create) == Err(create(OpenAIRequestFor(c)).error)
    ensures create(OpenAIRequestFor(c)) == Ok(OpenAIResponse(None)) ==> RequestOpenAI(c, create) == Err("Empty response")
    ensures forall t :: create(OpenAIRequestFor(c)) == Ok(OpenAIResponse(Some(t))) ==> RequestOpenAI(c, create) == Ok(t)
  {
  }

  /** Ollama: a successful reply yields its message content unchanged. */
  lemma OllamaContent(c: RequestClient, post: OllamaPost -> HttpReply<OllamaResponse>, content: string)
    requires var r := post(OllamaPostFor(c));
      r.Replied? && r.success && r.json == Ok(OllamaResponse(OllamaResponseMessage(content)))
    ensures RequestOllama(c, post) == Ok(content)
  {
  }
}
