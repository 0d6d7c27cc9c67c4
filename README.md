# clue: a Dafny model of the request core

`clue` (the `knock` command) turns a request in plain language into a shell
command. It sends the request to one of three language-model backends
(OpenAI, Anthropic or a local Ollama) together with a description of the
user's shell, and keeps a bounded log of past translations. This project
models the core of that program in Dafny and proves properties of the
model:

- `history.dfy`, module `History`: the bounded history log (`src/history.rs`).
  It is a class whose `entries` field is a sequence. `Add` appends an entry
  and trims the log to the 100 most recent entries. `Search` is a
  case-insensitive substring filter. `Recent` lists entries newest first.
- `client.dfy`, module `Client`: the prompt sent to every backend, the
  three request bodies, the dispatch on the configured provider, and the
  rules that turn a backend's reply into a command or an error
  (`src/client.rs`).
- `context.dfy`, module `Context`: the context block (OS, shell, working
  directory) and how the OS and shell are detected (`src/context.rs`).
- `config.dfy`, module `Config`: the configuration record, its defaults,
  the fallback to defaults when the file cannot be loaded, and the model
  accessors (`src/config.rs`).
- `setup.dfy`, module `Setup`: the decisions of the setup wizard
  (`src/setup.rs`). These are the provider menu answer, the model menu
  answer, the parsing of `ollama list` output, and the configuration that
  is saved.
- `text.dfy`, module `Text`: the Rust string operations the core relies on,
  written over `seq<char>`. These are `trim`, `split('/')` and `last`,
  `lines`, `split_whitespace().next()`, ASCII lowercasing, `contains`,
  unsigned parsing, and decimal formatting.
- `wrappers.dfy`, module `Wrappers`: `Option`, `Result` (errors are their
  message text) and `StoredFile`, the outcome of reading a file.

Everything outside the process is a parameter of the model:

- the network exchange of each backend is a function from the request it
  is sent to the reply;
- the clock reading is an `Option<u64>`;
- environment variables are `Option`s;
- the output of `ps` and `ollama list` is a `CommandOutput` or a function;
- a file read is a `StoredFile`.

Two facts about the history code that bound what is proved:

- **The log bound.** Only `add` trims the log (src/history.rs:56-59).
  `History::load` keeps a longer file as it is (src/history.rs:26-33). The
  model therefore proves the bound of 100 entries after every `Add`
  (`History.History.Add`, `History.AddsRetainMostRecent`), not for a
  loaded log (`History.History.Load`).
- **Timestamps.** The timestamp is the clock reading, or 0 when the clock
  is before the epoch (src/history.rs:45-48). Nothing keeps timestamps
  non-decreasing. `Add` takes the reading as a parameter and stores it.

Three observations the proofs make precise:

- **The verbose marker is not escaped.** Verbose mode is signalled only by
  the text " [verbose]" inside the request element. A standard request
  whose input already ends in that text gives the same prompt as a verbose
  request (`Client.VerboseMarkerInBand`); only the token budget differs.
- **The Ollama "(default)" mark can mislead.** The model menu marks its
  first entry "(default)", unless that entry is the current model, which
  is marked " ←" instead (src/setup.rs:143-150). An empty answer keeps nothing, so the backend's
  fixed fallback applies. For OpenAI and Anthropic that fallback is the
  first entry (`Setup.FirstListedIsDefault`). For Ollama the first entry is
  the first model row after the header that `ollama list` prints, while the fallback stays `llama3.2`,
  which may not be installed at all (`Setup.OllamaDefaultMayBeUnlisted`).
- **The Ollama hint misses the failure it is worded for.** The hint "Is
  Ollama running?" is added only when the service answers with a
  non-success status (src/client.rs:168-171). When the service cannot be
  reached at all, the send fails and its error passes through unchanged
  (src/client.rs:161-166), with no hint (`Client.OllamaSendFailurePassesThrough`).

## Model

| member | source | states |
|---|---|---|
| Config.DefaultProvider | src/config.rs:14-18 | The default provider is OpenAI. |
| Config.DefaultConfig | src/config.rs:20-28 | The default configuration has the default provider and none of the four optional overrides. |
| Config.FromDocument | src/config.rs:20-28 | A decoded document with no `provider` field gets the default provider; every other field is taken over unchanged. |
| Config.Load | src/config.rs:36-43 | A missing, unreadable or undecodable file gives the default configuration; a decodable file gives its decoded contents. |
| Config.ModelAccessorsOverrideOrDefault | src/config.rs:45-55 | Each model accessor returns the provider's override when it is set and that provider's fixed fallback otherwise. |
| Config.ModelFor | src/setup.rs:30-34 | No contract of its own: the provider's model accessor, which `current_model` selects with a `match`. Its value is stated by `Config.ModelAccessorsOverrideOrDefault`, `Config.DefaultConfigAccessors` and `Config.AccessorsIndependent`. |
| Config.DefaultConfigAccessors | src/config.rs:45-59 | On the default configuration every accessor returns its fallback: `gpt-4o-mini` for the default provider and `http://localhost:11434` for the URL. |
| Config.LoadFailureGivesDefaults | src/config.rs:36-59 | After a failed load the provider is OpenAI, every model is its fallback, and the URL is the local default. |
| Config.AccessorsIndependent | src/config.rs:45-59 | Changing one provider's override changes no other provider's model and not the URL. |
| Config.UrlIndependent | src/config.rs:45-59 | Changing the URL override changes no model accessor. |
| Config.OpenAIModel | src/config.rs:45-47 | `unwrap_or`: the OpenAI override when it is set, `gpt-4o-mini` otherwise. |
| Config.AnthropicModel | src/config.rs:49-51 | The Anthropic override when it is set, `claude-sonnet-4-20250514` otherwise. |
| Config.OllamaModel | src/config.rs:53-55 | The Ollama override when it is set, `llama3.2` otherwise. |
| Config.OllamaUrl | src/config.rs:57-59 | The URL override when it is set, `http://localhost:11434` otherwise. |
| Context.PromptContextInjective | src/context.rs:21-26 | When the OS and shell names contain no '<', two equal context blocks come from equal (os, shell, cwd) contexts, so the block can be read back. |
| Context.AsPromptContext | src/context.rs:21-26 | No contract of its own: it computes the `<context>` block. That the block can be read back is `Context.PromptContextInjective`; that it carries each value is `Context.ContextCarriesFields`. |
| Context.ContextCarriesFields | src/context.rs:21-26 | The context block contains the OS name, the shell name and the working directory. |
| Context.DetectOs | src/context.rs:29-39 | The target maps to its name: macOS to "macOS", Linux to "Linux", Windows to "Windows", any other target to "Unknown", in both directions. |
| Context.DetectOsInjective | src/context.rs:29-39 | Different targets get different OS names, and no OS name contains '<'. |
| Context.DetectShell | src/context.rs:41-77 | The detected shell name never contains '/'. |
| Context.ShellVariableWins | src/context.rs:43-47 | When SHELL is set, the result depends on nothing else. It is the segment after the last '/' of SHELL: a suffix that is the whole value or follows a '/'. |
| Context.WindowsFallback | src/context.rs:50-56 | On Windows without SHELL the result is "powershell" when PSModulePath is set and "cmd" otherwise. |
| Context.ProcessFallback | src/context.rs:58-76 | Elsewhere without SHELL the result is the last path segment of the parent process's trimmed command name when there is a non-empty one, and "unknown" when a `ps` call fails, the pid does not parse as u32, or the name is empty. |
| Context.ParentCommand | src/context.rs:58-73 | A parent command exists exactly when the first `ps` call ran, its output trims to a valid u32, and the second `ps` call for that pid ran. The command is then the trimmed output of the second call, so it neither starts nor ends with whitespace. |
| Context.Detect | src/context.rs:11-19 | The context holds the detected OS and shell, and the working directory, or "unknown" when it cannot be read. |
| Client.GenPrompt | src/client.rs:60-68 | No contract of its own: it computes the prompt. Its layout is `Client.PromptLayout`, its injectivity `Client.PromptDeterminesInput`, and that it carries the input `Client.PromptCarriesInput`. |
| Client.PromptCarriesInput | src/client.rs:60-68 | The prompt contains the user's request text whole. |
| Client.VerboseTag | src/client.rs:61 | No contract of its own: " [verbose]" in verbose mode and nothing otherwise. Its place in the prompt is stated by `Client.PromptLayout` and its collision with the input by `Client.VerboseMarkerInBand`. |
| Client.PromptLayout | src/client.rs:60-68 | The prompt starts with the context block and "\n\n<request>" and ends with "</request>". Between them is the input, followed by " [verbose]" exactly in verbose mode. |
| Client.PromptDeterminesInput | src/client.rs:60-68 | With the context and the mode fixed, the prompt determines the input. |
| Client.VerboseMarkerInBand | src/client.rs:60-68 | A standard-mode input ending in " [verbose]" gives the same prompt as the verbose request without it. |
| Client.MakeRequest | src/client.rs:70-76 | No contract of its own: it dispatches on the provider. That the result is the configured backend's, independent of the other two, is `Client.MakeRequestDispatch`. |
| Client.MakeRequestDispatch | src/client.rs:70-76 | The result is that of the configured provider's backend. It does not depend on how the other two backends would behave. |
| Client.MaxTokens | src/client.rs:86 | No contract of its own: 512 in verbose mode, 256 otherwise. That all three bodies use it is `Client.TokenBudgetUniform`. |
| Client.TokenBudgetUniform | src/client.rs:86-157 | All three request bodies carry a budget of 512 tokens in verbose mode and 256 otherwise. |
| Client.BodiesCarryPrompt | src/client.rs:78-159 | Each body carries the configured model for its backend, the instructions and the prompt; Ollama gets a system and a user message and no streaming. |
| Client.OpenAIRequestFor | src/client.rs:81-87 | No contract of its own: it builds the OpenAI request. Its fields are stated by `Client.BodiesCarryPrompt` and `Client.TokenBudgetUniform`. |
| Client.AnthropicRequestFor | src/client.rs:104-112 | No contract of its own: it builds the Anthropic body. Its fields are stated by `Client.BodiesCarryPrompt` and `Client.TokenBudgetUniform`. |
| Client.OllamaPostFor | src/client.rs:140-159 | No contract of its own: it builds the Ollama URL and body. They are stated by `Client.OllamaEndpoint`, `Client.BodiesCarryPrompt` and `Client.TokenBudgetUniform`. |
| Client.RequestOpenAI | src/client.rs:78-96 | The call succeeds exactly when the library call succeeds with an output text, and then returns that text. |
| Client.RequestAnthropic | src/client.rs:98-136 | A success needs a key, a success status, a decodable body and at least one content element; it returns the first element's text. |
| Client.RequestOllama | src/client.rs:138-175 | The call succeeds exactly when the reply has a success status and decodes, and then returns the reply's message content. |
| Client.OllamaEndpoint | src/client.rs:140 | The Ollama request goes to the configured base URL followed by "/api/chat", which is `http://localhost:11434/api/chat` by default. |
| Client.AnthropicNeedsKey | src/client.rs:99-100 | Without ANTHROPIC_API_KEY the result is the error "ANTHROPIC_API_KEY not set", whatever the network would do. |
| Client.AnthropicSendsWithKey | src/client.rs:114-122 | With a key, the POST goes to the messages endpoint with that key and the Anthropic body, and a send failure is returned as it is. |
| Client.AnthropicErrorCarriesBody | src/client.rs:124-127 | A non-success status from Anthropic is an error whose text contains the reply body. |
| Client.OllamaErrorCarriesBody | src/client.rs:168-171 | A non-success status from Ollama is an error whose text contains the reply body and the hint "Is Ollama running?". |
| Client.OllamaSendFailurePassesThrough | src/client.rs:161-166 | When the request cannot be sent, the result is the transport's own error, without the "Is Ollama running?" hint. |
| Client.AnthropicFirstContent | src/client.rs:129-135 | A successful Anthropic reply yields the text of its first content element, and "Empty response from Anthropic" when there is no content. |
| Client.OpenAIOutcome | src/client.rs:89-95 | The OpenAI result is the library's error when the call fails, the output text when there is one, and "Empty response" otherwise. |
| Client.OllamaContent | src/client.rs:173-174 | A successful Ollama reply yields its message content unchanged. |
| History.KeepLast | src/history.rs:57-59 | `split_off(len - 100)` when the log is over capacity: the last n elements, or everything when there are fewer. |
| History.AfterAdd | src/history.rs:44-60 | After one add the log is non-empty, holds at most 100 entries and ends with the new entry (its full shape is `History.AddShape`). |
| History.AddShape | src/history.rs:44-60 | After one add, the log holds at most 100 entries and ends with the new entry. Below capacity it grows by exactly that entry. At capacity or above, the newest 99 old entries, in order, come before it. |
| History.AddsRetainMostRecent | src/history.rs:44-60 | After one or more adds, the log is exactly the 100 most recently added entries, in order of addition, and so at most 100. |
| History.KeepLastOfAppended | src/history.rs:57-59 | Trimming, appending and trimming again equals trimming once at the end. |
| History.Matches | src/history.rs:66-69 | No contract of its own: the lowercased query or command contains the lowercased pattern. Which entries it keeps is stated by `History.Matching`, `History.SearchEmptyFindsAll` and `History.SearchCaseInsensitive`. |
| History.Matching | src/history.rs:62-71 | The search result holds exactly the entries whose lowercased query or command contains the lowercased pattern, and is no longer than the log. |
| History.MatchingConcat | src/history.rs:62-71 | Search keeps storage order: searching two consecutive parts gives the first part's matches, then the second's. |
| History.MatchingSplits | src/history.rs:62-71 | Cutting the log anywhere, the search result is the matches before the cut followed by those after it. |
| History.SearchEmptyFindsAll | src/history.rs:62-71 | Searching for the empty pattern returns the whole log in order. |
| History.SearchCaseInsensitive | src/history.rs:63 | Two patterns with the same lowercase form find the same entries. |
| History.SearchAfterAdd | src/history.rs:44-71 | After an add below capacity, a search finds its earlier result, plus the new entry at the end exactly when that entry matches. |
| History.Reversed | src/history.rs:74 | `rev()` puts element `len-1-i` at position i. |
| History.Take | src/history.rs:74 | No contract of its own: `take(count)`, the first min(count, len) elements. What `recent` returns through it is stated by `History.Newest`. |
| History.Newest | src/history.rs:73-75 | `recent(count)` has min(count, len) entries, and the i-th is the i-th newest. |
| History.RecentAfterAdd | src/history.rs:44-75 | After an add, the newest n entries (n up to 100) are the new entry followed by the newest n-1 from before. |
| History.RecentExample | src/history.rs:73-75 | Of entries A, B, C, D added in order, the three most recent are D, C, B. |
| History.History.constructor | src/history.rs:8-11 | The default log is empty. |
| History.History.Load | src/history.rs:26-33 | The decoded file, untrimmed, or the empty log when the file is missing, unreadable or undecodable. |
| History.History.Add | src/history.rs:44-60 | The new log is the old log plus the entry, trimmed to the last 100. The entry's timestamp is the clock reading, or 0. The log then holds at most 100 entries and ends with the new one; below capacity the old entries are a prefix. |
| History.History.Search | src/history.rs:62-71 | Exactly the matching entries of the log, no more entries than the log has, and in storage order: cut anywhere, the result is the matches before the cut, then those after it. |
| History.History.Recent | src/history.rs:73-75 | The newest min(count, len) entries, newest first. |
| Setup.ParseProviderChoice | src/setup.rs:55-64 | The trimmed answer "1", "2", "3" selects OpenAI, Anthropic, Ollama, and any other answer is an invalid choice (each in both directions). |
| Setup.ProviderMenuNumberSelects | src/setup.rs:39-64 | Typing the number printed before a provider, then Enter, selects that provider. |
| Setup.FilterMap | src/setup.rs:182-185 | `filter_map(...).collect()` has no more values than the sequence has elements. |
| Setup.FilterMapConcat | src/setup.rs:182-185 | `filter_map` keeps order: mapping two blocks gives the first block's values, then the second's. |
| Setup.FilterMapSource | src/setup.rs:182-185 | Every value kept is what `f` gives for some element. |
| Setup.FilterMapKeeps | src/setup.rs:182-185 | Every value `f` gives for an element is kept. |
| Setup.FilterMapKeepsAll | src/setup.rs:182-185 | When `f` keeps every element, the result has one value per element, in place. |
| Setup.ModelNames | src/setup.rs:182-184 | No more names than lines (its other properties are the `Setup.ModelNames...` lemmas). |
| Setup.ModelNamesAreWords | src/setup.rs:182-184 | Every name taken from the table is non-empty and contains no whitespace. |
| Setup.ModelNamesConcat | src/setup.rs:180-185 | Names keep the order of the lines. |
| Setup.ModelNamesMembership | src/setup.rs:182-184 | A name is listed exactly when it is the first word of some line. |
| Setup.ModelNamesNoBlank | src/setup.rs:182-184 | When no line is blank there is one name per line, and it is that line's first word. |
| Setup.ParseModelList | src/setup.rs:179-185 | The header is skipped. There are at most as many names as lines after the header, each a non-empty word without whitespace. |
| Setup.ParseModelTable | src/setup.rs:179-185 | For a table printed one row per line under a header, the names are the rows' first words, one per row, in order. |
| Setup.OllamaModels | src/setup.rs:172-189 | When `ollama list` cannot be run or reports failure, there are no models. Otherwise the models are the parsed table of its output (`Setup.ParseModelList`), no more names than lines. |
| Setup.ModelsFor | src/setup.rs:119-129 | The OpenAI and Anthropic menus are the fixed, non-empty lists. The Ollama menu is the installed models as `ollama list` reports them (`Setup.OllamaModels`), which is empty when it cannot be run or fails. |
| Setup.ChooseModel | src/setup.rs:131-169 | No models, an empty answer, an answer that does not parse as usize, or a number outside 1..len all give None (the default). A number n in range gives the n-th model, counting from 1 (both directions). |
| Setup.ModelMenuNumberSelects | src/setup.rs:143-164 | Typing the number printed before a model, then Enter, selects that model. |
| Setup.SelectModel | src/setup.rs:118-170 | The selection is the answer rule `Setup.ChooseModel` applied to the provider's menu: a selection is always one of the models offered, and a blank answer selects none. |
| Setup.BlankAnswerKeepsDefault | src/setup.rs:156-161 | An answer of only whitespace selects no model. |
| Setup.FirstListedIsDefault | src/setup.rs:6-18 | For OpenAI and Anthropic the first model on the menu is the fallback of the configuration's model accessor. |
| Setup.OllamaDefaultMayBeUnlisted | src/setup.rs:143-161 | Suppose `ollama list` shows one model that is not `llama3.2`. The menu offers only that model, an empty answer selects nothing, and the fallback then in force is not on the menu. |
| Setup.BuildConfig | src/setup.rs:100-108 | The built configuration has the chosen provider and the chosen model as that provider's override. Every other override and the URL are unset. |
| Setup.RunSetup | src/setup.rs:20-116 | Nothing is saved exactly when the provider answer is invalid. Otherwise the saved configuration has that provider and the selected model as its only override, so its effective model is the selection or the fallback. |
| Text.IsWhitespace | src/setup.rs:183 | No contract of its own: `char::is_whitespace`, the Unicode White_Space characters, which `trim` and `split_whitespace` use. |
| Text.Trim | src/setup.rs:56 | `trim` returns no longer than its input, and what it returns neither starts nor ends with whitespace. |
| Text.TrimIsInnerSlice | src/setup.rs:157 | What `trim` keeps is a contiguous slice of the input with only whitespace around it. |
| Text.TrimPadded | src/setup.rs:55-56 | Trimming a word followed by its line ending gives the word back. |
| Text.ToLower | src/history.rs:63-68 | Lowercasing maps every character on its own and keeps the length. |
| Text.ToLowerIdempotent | src/history.rs:63-68 | Lowercasing twice is lowercasing once. |
| Text.Contains | src/history.rs:67-68 | No contract of its own: `str::contains`, an occurrence of the pattern at some position. `Text.ContainsEmpty` and `Text.ContainsInfix` state what it finds. |
| Text.ContainsEmpty | src/history.rs:67-68 | Every string contains the empty pattern. |
| Text.ContainsInfix | src/history.rs:67-68 | `before + middle + after` contains `middle`, whatever surrounds it. |
| Text.SplitOn | src/context.rs:70 | At least one piece, and no piece holds the separator. That the pieces are exactly the text between separators is `Text.SplitJoin`. |
| Text.SplitJoin | src/context.rs:44 | Joining the pieces of `split(sep)` with the separator gives the input back. |
| Text.LastSegment | src/context.rs:44 | `split('/').last()` contains no '/'. It is a suffix of the input that is either all of it or follows a '/'. |
| Text.Lines | src/setup.rs:180 | No line holds '\n', and there is at most one piece fewer than `split('\n')` gives. |
| Text.LinesOfUnlines | src/setup.rs:180 | `lines` recovers the rows that were printed one per line (rows without '\n' and not ending in '\r'). |
| Text.LinesCons | src/setup.rs:180 | The text up to the first '\n' is the first line, without a '\r' that ends it; the rest gives the remaining lines. |
| Text.LinesCrLf | src/setup.rs:180 | A line ended by "\r\n" loses its '\r'. |
| Text.LinesFinalNewline | src/setup.rs:180 | A final '\n' starts no extra empty line: a non-empty line reads the same with or without it. |
| Text.FirstToken | src/setup.rs:183 | `split_whitespace().next()` is None exactly for blank lines; otherwise it is a non-empty whitespace-free word. |
| Text.FirstTokenIsLeading | src/setup.rs:183 | The first word comes after the leading whitespace and runs to the next whitespace or the end of the line. |
| Text.ParseUnsigned | src/context.rs:63 | A success is the decimal value of the digits after an optional '+', and lies below the type's limit. Digits, with or without one leading '+', parse to their value when it is below the limit and fail otherwise. Empty text and text starting with neither '+' nor a digit fail. |
| Text.ParseUsize | src/setup.rs:163 | No contract of its own: `parse::<usize>()`, the unsigned parse below 2^64. Its values are stated by `Text.ParseUnsigned` and `Text.ParseDecimalString`. |
| Text.ParseU32 | src/context.rs:63 | No contract of its own: `parse::<u32>()`, the unsigned parse below 2^32. Its values are stated by `Text.ParseUnsigned`. |
| Text.DecimalString | src/setup.rs:151 | The printed menu number consists of digits with no leading zero, and its value is the number. |
| Text.ParseDecimalString | src/setup.rs:151-163 | Parsing a printed number as usize gives the number back. |
| Wrappers.LoadOr | src/history.rs:26-33 | A decoded file gives its contents; a missing, unreadable or undecodable file gives the default. |

## Left out

- Transport: HTTP, TLS, the OpenAI client library, JSON encoding and
  decoding, and the request headers (`x-api-key`, `anthropic-version`,
  `content-type`). Each backend exchange is a function parameter that
  returns the reply, already decoded or failed.
- The `temperature` of 0.2 in the OpenAI and Ollama bodies: it is a
  floating-point value and plays no role in any property.
- Client.OpenAIOutcome: the "Empty response" error is the message text
  only. The `OpenAIError::InvalidArgument` wrapper and its Display prefix
  are not modelled.
- Client.OpenAIRequestFor: `CreateResponseArgs::build()` is taken never to
  fail, so its `?` error path is absent.
- The text of the system instructions. `INSTRUCTIONS` is a constant whose
  value the model leaves open; every property holds for any value.
- File paths under HOME, `save` for both the configuration and the history,
  and the filesystem errors they cause. A file read is a `StoredFile`
  parameter, and RunSetup returns the configuration handed to `save`.
- Text.ToLower: lowercases ASCII letters only. Rust's `to_lowercase` also
  maps the rest of Unicode, where a character can become several ('İ')
  and 'Σ' depends on its neighbours. The two ensures of `Text.ToLower`
  (same length, one character at a time) are properties of this ASCII
  stand-in and do not hold of `to_lowercase` in general.
- Text.ParseUnsigned: `usize` is taken to be 64 bits wide. The
  decoding of command output with `from_utf8_lossy` is not modelled; the
  output is already text.
- History.History.Search: returns the matching entries as values rather
  than as references into the log.
- History.History.Recent: returns the newest entries as values rather
  than as references into the log.
- Process spawning: the two `ps` calls, `ollama list`, and the pid of the
  running process. Their outputs are parameters.
- The setup wizard's terminal output: banners, colours, the "current"
  marker, the "(default)" label, the API-key warnings, and the
  `check_ollama_running` probe of `http://localhost:11434/api/tags`. None of
  them influences what is saved. The loaded current configuration is only
  displayed and is also not modelled.
- `read_line` failing on stdin: that is a panic in the source.
- `src/main.rs` (the orchestration of the cache, the request and the
  history) and `src/args.rs` (command-line parsing) are not part of this
  model, and neither is the response cache.
