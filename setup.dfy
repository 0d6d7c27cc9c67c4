/** The decisions of the interactive setup (src/setup.rs): which provider a
    menu answer names, which model a numeric answer picks, which model
    names the `ollama list` table lists, and which configuration is handed
    to `save`. Terminal input arrives as the lines that were read. */
module Setup {
  import opened Wrappers
  import opened Text
  import opened Config

  const OPENAI_MODELS: seq<string> := ["gpt-4o-mini", "gpt-4o", "gpt-5.1", "o1-mini", "o1-preview"]
  const ANTHROPIC_MODELS: seq<string> :=
    ["claude-sonnet-4-20250514", "claude-opus-4-20250514", "claude-3-5-haiku-20241022"]

  /** The provider menu in the order it is printed, numbered from 1. */
  const PROVIDERS: seq<(string, Provider)> :=
    [("OpenAI", OpenAI), ("Anthropic", Anthropic), ("Ollama (local)", Ollama)]

  // ---------------------------------------------------------------------
  // Provider choice
  // ---------------------------------------------------------------------

  /** The provider answer of `run_setup`, after trimming: "1", "2" or "3";
      anything else is an invalid choice (None), and setup stops. */
  function ParseProviderChoice(line: string): (p: Option<Provider>)
    ensures p == Some(OpenAI) <==> Trim(line) == "1"
    ensures p == Some(Anthropic) <==> Trim(line) == "2"
    ensures p == Some(Ollama) <==> Trim(line) == "3"
    ensures p.None? <==> Trim(line) !in {"1", "2", "3"}
  {
    var choice := Trim(line);
    if choice == "1" then Some(OpenAI)
    else if choice == "2" then Some(Anthropic)
    else if choice == "3" then Some(Ollama)
    else None
  }

  /** Typing the number printed before a menu entry, followed by the line
      ending, selects that entry's provider. */
  lemma ProviderMenuNumberSelects(i: nat)
    requires i < |PROVIDERS|
    ensures ParseProviderChoice(DecimalString(i + 1) + "\n") == Some(PROVIDERS[i].1)
  {
    OneDigit(i + 1);
    if i == 0 {
      assert DecimalString(i + 1) + "\n" == "1\n";
      TrimPadded("1", "\n");
    } else if i == 1 {
      assert DecimalString(i + 1) + "\n" == "2\n";
      TrimPadded("2", "\n");
    } else {
      assert DecimalString(i + 1) + "\n" == "3\n";
      TrimPadded("3", "\n");
    }
  }

  /** The decimal text of a number below ten is its one digit. */
  lemma OneDigit(n: nat)
    requires n < 10
    ensures DecimalString(n) == [DigitChar(n)]
  {
  }

  /** A number typed as an answer line, with its line ending, trims back
      to the number's digits. */
  lemma AnswerLineTrims(n: nat)
    ensures Trim(DecimalString(n) + "\n") == DecimalString(n)
  {
    var digits := DecimalString(n);
    assert IsDigit(digits[0]) && IsDigit(digits[|digits| - 1]);
    TrimPadded(digits, "\n");
  }

  /** A number typed as an answer line parses back to the number. */
  lemma AnswerLineParses(n: nat)
    requires n < USIZE_LIMIT
    ensures ParseUsize(Trim(DecimalString(n) + "\n")) == Some(n)
  {
    AnswerLineTrims(n);
    ParseDecimalString(n);
  }

  // ---------------------------------------------------------------------
  // The `ollama list` table
  // ---------------------------------------------------------------------

  /** The outcome of running an external command. */
  datatype CommandOutput = SpawnFailed | Exited(success: bool, stdout: string)

  /** The values one element contributes to `filter_map`. */
  function Kept<B>(o: Option<B>): seq<B> {
    match o
    case Some(b) => [b]
    case None => []
  }

  /** `Iterator::filter_map(f).collect()` over a sequence: the values `f`
      gives, in the order of the elements, skipping the elements it maps
      to None. */
  function FilterMap<A, B>(s: seq<A>, f: A -> Option<B>): (r: seq<B>)
    ensures |r| <= |s|
  {
    if s == [] then [] else Kept(f(s[0])) + FilterMap(s[1..], f)
  }

  /** `filter_map` keeps order: mapping two blocks is mapping the first,
      then the second. */
  lemma {:induction false} FilterMapConcat<A, B>(a: seq<A>, b: seq<A>, f: A -> Option<B>)
    ensures FilterMap(a + b, f) == FilterMap(a, f) + FilterMap(b, f)
    decreases |a|
  {
    if a == [] {
      assert a + b == b;
    } else {
      assert (a + b)[0] == a[0];
      assert (a + b)[1..] == a[1..] + b;
      FilterMapConcat(a[1..], b, f);
    }
  }

  /** Every value kept comes from some element: the element `i`. */
  lemma {:induction false} FilterMapSource<A, B>(s: seq<A>, f: A -> Option<B>, v: B) returns (i: nat)
    requires v in FilterMap(s, f)
    ensures i < |s| && f(s[i]) == Some(v)
    decreases |s|
  {
    assert s != [];
    if v in Kept(f(s[0])) {
      i := 0;
    } else {
      var j := FilterMapSource(s[1..], f, v);
      assert s[1..][j] == s[j + 1];
      i := j + 1;
    }
  }

  /** The value of every element that `f` keeps is in the result. */
  lemma {:induction false} FilterMapKeeps<A, B>(s: seq<A>, f: A -> Option<B>, i: nat)
    requires i < |s| && f(s[i]).Some?
    ensures f(s[i]).value in FilterMap(s, f)
    decreases i
  {
    if i > 0 {
      assert s[1..][i - 1] == s[i];
      FilterMapKeeps(s[1..], f, i - 1);
    }
  }

  /** When `f` keeps every element, the result has one value per element,
      in place. */
  lemma {:induction false} FilterMapKeepsAll<A, B>(s: seq<A>, f: A -> Option<B>)
    requires forall k :: 0 <= k < |s| ==> f(s[k]).Some?
    ensures |FilterMap(s, f)| == |s|
    ensures forall i :: 0 <= i < |s| ==> Some(FilterMap(s, f)[i]) == f(s[i])
    decreases |s|
  {
    if s != [] {
      var tail := s[1..];
      forall k | 0 <= k < |tail| ensures f(tail[k]).Some? {
        assert tail[k] == s[k + 1];
      }
      FilterMapKeepsAll(tail, f);
      var r := FilterMap(s, f);
      assert r == [f(s[0]).value] + FilterMap(tail, f);
      forall i | 0 <= i < |s| ensures Some(r[i]) == f(s[i]) {
        if i > 0 {
          assert r[i] == FilterMap(tail, f)[i - 1];
          assert tail[i - 1] == s[i];
        }
      }
    }
  }

  /** `filter_map(|line| line.split_whitespace().next())`: the first word of
      every non-blank line, in order. */
  function ModelNames(lines: seq<string>): (names: seq<string>)
    ensures |names| <= |lines|
  {
    FilterMap(lines, FirstToken)
  }

  /** Every name is a non-empty word without whitespace. */
  lemma ModelNamesAreWords(lines: seq<string>)
    ensures forall i :: 0 <= i < |ModelNames(lines)| ==>
      ModelNames(lines)[i] != [] && NoWhitespace(ModelNames(lines)[i])
  {
    var names := ModelNames(lines);
    forall i | 0 <= i < |names| ensures names[i] != [] && NoWhitespace(names[i]) {
      var j := FilterMapSource(lines, FirstToken, names[i]);
      assert FirstToken(lines[j]) == Some(names[i]);
    }
  }

  /** The names keep the order of the lines: the names of two blocks of
      lines are the names of the first, then those of the second. */
  lemma ModelNamesConcat(a: seq<string>, b: seq<string>)
    ensures ModelNames(a + b) == ModelNames(a) + ModelNames(b)
  {
    FilterMapConcat(a, b, FirstToken);
  }

  /** Exactly the first words of the non-blank lines are listed. */
  lemma ModelNamesMembership(lines: seq<string>, name: string)
    ensures name in ModelNames(lines) <==> exists i :: 0 <= i < |lines| && FirstToken(lines[i]) == Some(name)
  {
    if name in ModelNames(lines) {
      var i := FilterMapSource(lines, FirstToken, name);
      assert FirstToken(lines[i]) == Some(name);
    }
    if exists i :: 0 <= i < |lines| && FirstToken(lines[i]) == Some(name) {
      var i :| 0 <= i < |lines| && FirstToken(lines[i]) == Some(name);
      FilterMapKeeps(lines, FirstToken, i);
    }
  }

  /** No line is blank. */
  predicate AllHaveWords(lines: seq<string>) {
    forall k :: 0 <= k < |lines| ==> FirstToken(lines[k]).Some?
  }

  /** When every line has a word, there is one name per line, the line's
      first word. */
  lemma ModelNamesNoBlank(lines: seq<string>)
    requires AllHaveWords(lines)
    ensures |ModelNames(lines)| == |lines|
    ensures forall i :: 0 <= i < |lines| ==> Some(ModelNames(lines)[i]) == FirstToken(lines[i])
  {
    FilterMapKeepsAll(lines, FirstToken);
  }

  /** The names in the standard output of `ollama list`: its header line is
      skipped and every following non-blank line gives its first word;
      there are at most as many names as lines after the header. */
  function ParseModelList(stdout: string): (models: seq<string>)
    ensures |models| <= if Lines(stdout) == [] then 0 else |Lines(stdout)| - 1
    ensures forall i :: 0 <= i < |models| ==> models[i] != [] && NoWhitespace(models[i])
  {
    var lines := Lines(stdout);
    if lines == [] then []
    else
      ModelNamesAreWords(lines[1..]);
      ModelNames(lines[1..])
  }

  /** A table printed one row per line, under a header: the names are the
      first words of the rows, in order. */
  lemma ParseModelTable(header: string, rows: seq<string>)
    requires forall i :: 0 <= i < |rows| ==>
      rows[i] != [] && '\n' !in rows[i] && rows[i][|rows[i]| - 1] != '\r' && !AllWhitespace(rows[i])
    requires '\n' !in header && (header == [] || header[|header| - 1] != '\r')
    ensures |ParseModelList(UnlinesTerminated([header] + rows))| == |rows|
    ensures forall i :: 0 <= i < |rows| ==>
      Some(ParseModelList(UnlinesTerminated([header] + rows))[i]) == FirstToken(rows[i])
  {
    var all := [header] + rows;
    forall i | 0 <= i < |all| ensures '\n' !in all[i] && (all[i] == [] || all[i][|all[i]| - 1] != '\r') {
      if i > 0 {
        assert all[i] == rows[i - 1];
      }
    }
    LinesOfUnlines(all);
    assert all[1..] == rows;
    assert AllHaveWords(rows);
    ModelNamesNoBlank(rows);
  }

  /** `get_ollama_models`: the parsed table when `ollama list` ran and
      succeeded, no models otherwise. */
  function OllamaModels(out: CommandOutput): (models: seq<string>)
    ensures !(out.Exited? && out.success) ==> models == []
    ensures (out.Exited? && out.success) ==> |models| <= |Lines(out.stdout)|
    ensures (out.Exited? && out.success) ==> models == ParseModelList(out.stdout)
  {
    match out
    case Exited(true, stdout) => ParseModelList(stdout)
    case Exited(false, _) => []
    case SpawnFailed => []
  }

  // ---------------------------------------------------------------------
  // Model choice
  // ---------------------------------------------------------------------

  /** The models offered for a provider: the fixed lists for the cloud
      backends, the local installation's for Ollama. The cloud menus are
      never empty and are the fixed lists whatever is installed locally;
      the Ollama menu is empty when `ollama list` cannot be run or fails. */
  function ModelsFor(p: Provider, ollamaList: CommandOutput): (models: seq<string>)
    ensures p != Ollama ==> models != [] && models == (if p == OpenAI then OPENAI_MODELS else ANTHROPIC_MODELS)
    ensures p == Ollama && !(ollamaList.Exited? && ollamaList.success) ==> models == []
    ensures p == Ollama ==> models == OllamaModels(ollamaList)
  {
    match p
    case OpenAI => OPENAI_MODELS
    case Anthropic => ANTHROPIC_MODELS
    case Ollama => OllamaModels(ollamaList)
  }

  /** The answer rule of `select_model`. No models: None (nothing is asked).
      Otherwise the trimmed answer is read as a `usize`; a number from 1 to
      the number of models picks that model, counting from 1; an empty
      answer, a number out of range or anything else is None, which leaves
      the backend's default in force. */
  function ChooseModel(models: seq<string>, line: string): (choice: Option<string>)
    ensures models == [] ==> choice.None?
    ensures Trim(line) == [] ==> choice.None?
    ensures choice.Some? <==>
      (models != [] && ParseUsize(Trim(line)).Some? && 1 <= ParseUsize(Trim(line)).value <= |models|)
    ensures choice.Some? ==> choice.value == models[ParseUsize(Trim(line)).value - 1]
  {
    if models == [] then None
    else
      var answer := Trim(line);
      if answer == [] then None
      else
        match ParseUsize(answer)
        case Some(n) => if 1 <= n <= |models| then Some(models[n - 1]) else None
        case None => None
  }

  /** Typing the number printed before a model, followed by the line
      ending, selects that model. */
  lemma ModelMenuNumberSelects(models: seq<string>, i: nat)
    requires i < |models| < USIZE_LIMIT
    ensures ChooseModel(models, DecimalString(i + 1) + "\n") == Some(models[i])
  {
    AnswerLineParses(i + 1);
    NumberAnswerSelects(models, DecimalString(i + 1) + "\n", i + 1);
  }

  /** An answer that reads as a menu number selects that model. */
  lemma NumberAnswerSelects(models: seq<string>, line: string, n: nat)
    requires ParseUsize(Trim(line)) == Some(n) && 1 <= n <= |models|
    ensures ChooseModel(models, line) == Some(models[n - 1])
  {
    assert models != [] && Trim(line) != [];
  }

  /** `select_model`: the answer rule applied to the provider's menu, so a
      selection is always one of the models offered, and a blank answer
      selects none. */
  function SelectModel(p: Provider, ollamaList: CommandOutput, line: string): (model: Option<string>)
    ensures model.Some? ==> model.value in ModelsFor(p, ollamaList)
    ensures AllWhitespace(line) ==> model.None?
    ensures model == ChooseModel(ModelsFor(p, ollamaList), line)
  {
    ChooseModel(ModelsFor(p, ollamaList), line)
  }

  /** For the cloud backends the first model on the menu, the one marked
      as the default, is the model the configuration falls back to. */
  lemma FirstListedIsDefault(p: Provider)
    requires p != Ollama
    ensures ModelsFor(p, SpawnFailed) != []
    ensures ModelsFor(p, SpawnFailed)[0] == DefaultModel(p)
  {
  }

  /** A blank answer (only the line ending, or only spaces) picks no
      model, so the backend's fallback stays in force. */
  lemma BlankAnswerKeepsDefault(models: seq<string>, line: string)
    requires AllWhitespace(line)
    ensures ChooseModel(models, line) == None
  {
  }

  /** For Ollama the mark does not tell the truth in general: the menu
      marks the first model row after the `ollama list` header as the default, but an empty answer
      leaves the fixed fallback in force. When the only installed model is
      another one, the fallback is not even on the menu. */
  lemma OllamaDefaultMayBeUnlisted(header: string, word: string)
    requires '\n' !in header && (header == [] || header[|header| - 1] != '\r')
    requires word != [] && NoWhitespace(word) && word != DEFAULT_OLLAMA_MODEL
    ensures var out := Exited(true, UnlinesTerminated([header, word]));
      && ModelsFor(Ollama, out) == [word]
      && SelectModel(Ollama, out, "\n") == None
      && DefaultModel(Ollama) !in ModelsFor(Ollama, out)
  {
    OneInstalledModel(header, word);
    FallbackUnlisted(Exited(true, UnlinesTerminated([header, word])), word);
  }

  /** A one-model Ollama menu that does not offer the fallback: an empty
      answer selects nothing, so the unlisted fallback is what is used. */
  lemma FallbackUnlisted(out: CommandOutput, word: string)
    requires OllamaModels(out) == [word] && word != DEFAULT_OLLAMA_MODEL
    ensures ModelsFor(Ollama, out) == [word]
    ensures SelectModel(Ollama, out, "\n") == None
    ensures DefaultModel(Ollama) !in ModelsFor(Ollama, out)
  {
    assert AllWhitespace("\n");
  }

  /** `ollama list` printing a header and one model row lists that model. */
  lemma OneInstalledModel(header: string, word: string)
    requires '\n' !in header && (header == [] || header[|header| - 1] != '\r')
    requires word != [] && NoWhitespace(word)
    ensures OllamaModels(Exited(true, UnlinesTerminated([header, word]))) == [word]
  {
    OnlyWordIsToken(word);
    assert !IsWhitespace(word[|word| - 1]);
    assert '\n' !in word by {
      forall k | 0 <= k < |word| ensures word[k] != '\n' {
        assert !IsWhitespace(word[k]);
      }
    }
    ParseModelTable(header, [word]);
  }

  /** A line that is one word has that word as its first token. */
  lemma OnlyWordIsToken(word: string)
    requires word != [] && NoWhitespace(word)
    ensures FirstToken(word) == Some(word)
  {
    assert TrimStart(word) == word;
    TakeWholeWord(word);
  }

  lemma {:induction false} TakeWholeWord(word: string)
    requires NoWhitespace(word)
    ensures TakeToken(word) == word
    decreases |word|
  {
    if word != [] {
      TakeWholeWord(word[1..]);
    }
  }

  // ---------------------------------------------------------------------
  // The configuration that is saved
  // ---------------------------------------------------------------------

  /** Lines 101-108 of `run_setup`: start from the default configuration,
      set the provider, then the chosen provider's model field. */
  method BuildConfig(provider: Provider, model: Option<string>) returns (config: Config)
    ensures config.provider == provider
    ensures ModelOverride(config, provider) == model
    ensures forall q :: q != provider ==> ModelOverride(config, q).None?
    ensures config.ollamaUrl.None?
  {
    config := DefaultConfig();
    config := config.(provider := provider);
    match provider {
      case OpenAI => config := config.(openaiModel := model);
      case Anthropic => config := config.(anthropicModel := model);
      case Ollama => config := config.(ollamaModel := model);
    }
  }

  /** `run_setup` without the terminal: the answer to the provider menu,
      what `ollama list` gave (only consulted for Ollama) and the answer to
      the model menu (only consulted when there are models). The result is
      the configuration handed to `save`, or None when the provider answer
      was invalid and nothing is saved. */
  method RunSetup(providerLine: string, ollamaList: CommandOutput, modelLine: string)
    returns (saved: Option<Config>)
    ensures saved.None? <==> ParseProviderChoice(providerLine).None?
    ensures saved.Some? ==>
      var p := ParseProviderChoice(providerLine).value;
      var model := SelectModel(p, ollamaList, modelLine);
      && saved.value.provider == p
      && ModelOverride(saved.value, p) == model
      && (forall q :: q != p ==> ModelOverride(saved.value, q).None?)
      && saved.value.ollamaUrl.None?
      && ModelFor(saved.value, p) == model.GetOr(DefaultModel(p))
  {
    var provider := ParseProviderChoice(providerLine);
    if provider.None? {
      return None;
    }
    var model := SelectModel(provider.value, ollamaList, modelLine);
    var config := BuildConfig(provider.value, model);
    ModelAccessorsOverrideOrDefault(config, provider.value);
    return Some(config);
  }
}
