/** The persisted configuration (src/config.rs): which backend to use and
    optional per-backend overrides, each with a fixed fallback. */
module Config {
  import opened Wrappers

  datatype Provider = OpenAI | Anthropic | Ollama

  /** `impl Default for Provider`. */
  function DefaultProvider(): (p: Provider)
    ensures p == OpenAI
  {
    OpenAI
  }

  datatype Config = Config(
    provider: Provider,
    openaiModel: Option<string>,
    anthropicModel: Option<string>,
    ollamaModel: Option<string>,
    ollamaUrl: Option<string>)

  /** The fallbacks the accessors use when a field is absent. */
  const DEFAULT_OPENAI_MODEL: string := "gpt-4o-mini"
  const DEFAULT_ANTHROPIC_MODEL: string := "claude-sonnet-4-20250514"
  const DEFAULT_OLLAMA_MODEL: string := "llama3.2"
  const DEFAULT_OLLAMA_URL: string := "http://localhost:11434"

  /** `#[derive(Default)]` on Config: the default provider and no override. */
  function DefaultConfig(): (c: Config)
    ensures c.provider == OpenAI
    ensures c.openaiModel.None? && c.anthropicModel.None? && c.ollamaModel.None? && c.ollamaUrl.None?
  {
    Config(DefaultProvider(), None, None, None, None)
  }

  /** The JSON document as serde reads it: `provider` carries
      `#[serde(default)]`, so a document without it still decodes. The
      Option fields are absent-or-present as written. */
  datatype ConfigDocument = ConfigDocument(
    provider: Option<Provider>,
    openaiModel: Option<string>,
    anthropicModel: Option<string>,
    ollamaModel: Option<string>,
    ollamaUrl: Option<string>)

  /** Turning a decoded document into a Config: a missing provider becomes
      the default one, every other field is taken over unchanged. */
  function FromDocument(d: ConfigDocument): (c: Config)
    ensures d.provider.Some? ==> c.provider == d.provider.value
    ensures d.provider.None? ==> c.provider == DefaultProvider()
    ensures c.openaiModel == d.openaiModel && c.anthropicModel == d.anthropicModel
    ensures c.ollamaModel == d.ollamaModel && c.ollamaUrl == d.ollamaUrl
  {
    Config(d.provider.GetOr(DefaultProvider()), d.openaiModel, d.anthropicModel, d.ollamaModel, d.ollamaUrl)
  }

  /** `Config::load`: a missing, unreadable or undecodable file gives the
      default configuration; a decoded document is used. */
  function Load(file: StoredFile<ConfigDocument>): (c: Config)
    ensures (file.Read? && file.decoded.Some?) ==> c == FromDocument(file.decoded.value)
    ensures !(file.Read? && file.decoded.Some?) ==> c == DefaultConfig()
  {
    var doc := LoadOr(file, ConfigDocument(None, None, None, None, None));
    FromDocument(doc)
  }

  /** `Config::openai_model`. */
  function OpenAIModel(c: Config): (m: string)
    ensures c.openaiModel.Some? ==> m == c.openaiModel.value
    ensures c.openaiModel.None? ==> m == DEFAULT_OPENAI_MODEL
  {
    c.openaiModel.GetOr(DEFAULT_OPENAI_MODEL)
  }

  /** `Config::anthropic_model`. */
  function AnthropicModel(c: Config): (m: string)
    ensures c.anthropicModel.Some? ==> m == c.anthropicModel.value
    ensures c.anthropicModel.None? ==> m == DEFAULT_ANTHROPIC_MODEL
  {
    c.anthropicModel.GetOr(DEFAULT_ANTHROPIC_MODEL)
  }

  /** `Config::ollama_model`. */
  function OllamaModel(c: Config): (m: string)
    ensures c.ollamaModel.Some? ==> m == c.ollamaModel.value
    ensures c.ollamaModel.None? ==> m == DEFAULT_OLLAMA_MODEL
  {
    c.ollamaModel.GetOr(DEFAULT_OLLAMA_MODEL)
  }

  /** `Config::ollama_url`. */
  function OllamaUrl(c: Config): (url: string)
    ensures c.ollamaUrl.Some? ==> url == c.ollamaUrl.value
    ensures c.ollamaUrl.None? ==> url == DEFAULT_OLLAMA_URL
  {
    c.ollamaUrl.GetOr(DEFAULT_OLLAMA_URL)
  }

  /** The override field that belongs to a provider. */
  function ModelOverride(c: Config, p: Provider): Option<string> {
    match p
    case OpenAI => c.openaiModel
    case Anthropic => c.anthropicModel
    case Ollama => c.ollamaModel
  }

  /** The model the configuration names for a provider, as `run_setup` and
      `select_model` compute it with a `match` over the provider. */
  function ModelFor(c: Config, p: Provider): string {
    match p
    case OpenAI => OpenAIModel(c)
    case Anthropic => AnthropicModel(c)
    case Ollama => OllamaModel(c)
  }

  function DefaultModel(p: Provider): string {
    match p
    case OpenAI => DEFAULT_OPENAI_MODEL
    case Anthropic => DEFAULT_ANTHROPIC_MODEL
    case Ollama => DEFAULT_OLLAMA_MODEL
  }

  /** Every model accessor returns the override when there is one and the
      fixed fallback otherwise. */
  lemma ModelAccessorsOverrideOrDefault(c: Config, p: Provider)
    ensures ModelOverride(c, p).Some? ==> ModelFor(c, p) == ModelOverride(c, p).value
    ensures ModelOverride(c, p).None? ==> ModelFor(c, p) == DefaultModel(p)
  {
  }

  /** On the default configuration every accessor returns its fallback. */
  lemma DefaultConfigAccessors(p: Provider)
    ensures ModelFor(DefaultConfig(), p) == DefaultModel(p)
    ensures OllamaUrl(DefaultConfig()) == "http://localhost:11434"
    ensures ModelFor(DefaultConfig(), DefaultConfig().provider) == "gpt-4o-mini"
  {
  }

  /** A missing or broken configuration file behaves exactly like the default. */
  lemma LoadFailureGivesDefaults(file: StoredFile<ConfigDocument>, p: Provider)
    requires !(file.Read? && file.decoded.Some?)
    ensures Load(file).provider == OpenAI
    ensures ModelFor(Load(file), p) == DefaultModel(p)
    ensures OllamaUrl(Load(file)) == DEFAULT_OLLAMA_URL
  {
  }

  /** Each accessor reads its own field only: changing the override of one
      provider leaves the other providers' models and the URL as they were. */
  lemma AccessorsIndependent(c: Config, p: Provider, model: Option<string>, q: Provider)
    requires q != p
    ensures ModelFor(WithOverride(c, p, model), q) == ModelFor(c, q)
    ensures OllamaUrl(WithOverride(c, p, model)) == OllamaUrl(c)
    ensures ModelOverride(WithOverride(c, p, model), p) == model
  {
  }

  /** Changing the URL override leaves every model accessor as it was. */
  lemma UrlIndependent(c: Config, url: Option<string>, q: Provider)
    ensures ModelFor(c.(ollamaUrl := url), q) == ModelFor(c, q)
  {
  }

  /** The configuration with one provider's override field replaced. */
  function WithOverride(c: Config, p: Provider, model: Option<string>): Config {
    match p
    case OpenAI => c.(openaiModel := model)
    case Anthropic => c.(anthropicModel := model)
    case Ollama => c.(ollamaModel := model)
  }
}
