/** The provider and model picker: the constant model table, the list of
    providers it offers, the models shown for a provider, and the two change
    handlers that update the selection and report it. */
module ModelSelection {
  import opened Wrappers
  import opened Sequences
  import AIGeneration

  /** One entry of the model table (`title` is its label); the display colour is left out. */
  datatype ModelOption = ModelOption(provider: string, value: string, title: string)

  /** The model table, in its order. */
  const Models: seq<ModelOption> := [
    ModelOption("OpenAI", "gpt35", "GPT-3.5"),
    ModelOption("OpenAI", "gpt4o-mini", "GPT-4o Mini"),
    ModelOption("Google", "gemini-1.5-flash", "Gemini 1.5 Flash"),
    ModelOption("Google", "gemini-1.5-pro", "Gemini 1.5 Pro"),
    ModelOption("Anthropic", "anthropic/claude-3-sonnet", "Claude 3.5 Sonnet"),
    ModelOption("Anthropic", "anthropic/claude-3-haiku", "Claude 3.5 Haiku"),
    ModelOption("Mistral", "open-mistral-nemo", "Open Mistral Nemo"),
    ModelOption("Mistral", "mistral-large", "Mistral Large 2407"),
    ModelOption("X.AI", "xai", "Grok"),
    ModelOption("Groq", "groq", "Llama 3.2 90B Vision"),
    ModelOption("OpenRouter", "openai/gpt-4o-mini", "GPT-4o Mini"),
    ModelOption("OpenRouter", "google/gemma-2-9b-it:free", "Gemma 2 9B IT (Free)"),
    ModelOption("OpenRouter", "anthropic/claude-3.5-sonnet:beta", "Claude 3.5 Sonnet (Beta)"),
    ModelOption("OpenRouter", "anthropic/claude-3-5-haiku-20241022", "Claude 3.5 Haiku"),
    ModelOption("OpenRouter", "nvidia/llama-3.1-nemotron-70b-instruct", "Nvidia Llama 3.1 Nemotron 70B"),
    ModelOption("OpenRouter", "qwen/qwen-2.5-7b-instruct", "Qwen 2.5 7B Instruct"),
    ModelOption("OpenRouter", "meta-llama/llama-3.2-11b-vision-instruct:free", "Llama 3.2 11B Vision (Free)"),
    ModelOption("OpenRouter", "google/gemini-pro-1.5-exp", "Gemini Pro 1.5 (Experimental)"),
    ModelOption("OpenRouter", "google/gemini-1.5-flash-001", "Gemini 1.5 Flash"),
    ModelOption("OpenRouter", "google/gemini-1.5-pro-001", "Gemini 1.5 Pro")
  ]

  function ProviderColumn(models: seq<ModelOption>): (ps: seq<string>)
    ensures |ps| == |models|
    ensures forall k :: 0 <= k < |models| ==> ps[k] == models[k].provider
  {
    seq(|models|, k requires 0 <= k < |models| => models[k].provider)
  }

  function ValueColumn(models: seq<ModelOption>): (vs: seq<string>)
    ensures |vs| == |models|
    ensures forall k :: 0 <= k < |models| ==> vs[k] == models[k].value
  {
    seq(|models|, k requires 0 <= k < |models| => models[k].value)
  }

  /** `Array.from(new Set(MODELS.map(m => m.provider)))` */
  function Providers(models: seq<ModelOption>): seq<string>
  {
    Distinct(ProviderColumn(models))
  }

  /** `MODELS.filter(m => m.provider === provider)` */
  function ModelsOf(models: seq<ModelOption>, provider: string): (r: seq<ModelOption>)
    ensures |r| <= |models|
    ensures forall m :: m in r ==> m in models && m.provider == provider
  {
    if models == [] then []
    else if models[0].provider == provider then [models[0]] + ModelsOf(models[1..], provider)
    else ModelsOf(models[1..], provider)
  }

  /** `MODELS.find(m => m.provider === provider)` */
  function FirstModelOf(models: seq<ModelOption>, provider: string): (r: Option<ModelOption>)
    ensures r.None? <==> forall m :: m in models ==> m.provider != provider
    ensures r.Some? ==> r.value in models && r.value.provider == provider
  {
    if models == [] then None
    else if models[0].provider == provider then Some(models[0])
    else FirstModelOf(models[1..], provider)
  }

  /** The filter keeps every entry of the provider and no other, each as
      often as it occurs in the table, in table order. */
  lemma {:induction false} ModelsOfExact(models: seq<ModelOption>, provider: string)
    ensures forall m :: m in models && m.provider == provider ==> m in ModelsOf(models, provider)
    ensures forall m: ModelOption :: m.provider == provider ==> multiset(ModelsOf(models, provider))[m] == multiset(models)[m]
  {
    if models != [] {
      ModelsOfExact(models[1..], provider);
      assert models == [models[0]] + models[1..];
    }
  }

  /** The filter distributes over concatenation: the kept entries of a
      table keep their table order. */
  lemma {:induction false} ModelsOfAppend(a: seq<ModelOption>, b: seq<ModelOption>, provider: string)
    ensures ModelsOf(a + b, provider) == ModelsOf(a, provider) + ModelsOf(b, provider)
  {
    if a != [] {
      assert (a + b)[0] == a[0] && (a + b)[1..] == a[1..] + b;
      ModelsOfAppend(a[1..], b, provider);
    } else {
      assert a + b == b;
    }
  }

  /** `find` returns an entry of the provider that no earlier entry of the
      table shares its provider with. */
  lemma {:induction false} FirstModelOfIsFirst(models: seq<ModelOption>, provider: string)
    ensures FirstModelOf(models, provider).Some? ==>
      exists i :: 0 <= i < |models| && models[i] == FirstModelOf(models, provider).value &&
        forall j :: 0 <= j < i ==> models[j].provider != provider
  {
    if models != [] && models[0].provider != provider {
      var rest := models[1..];
      FirstModelOfIsFirst(rest, provider);
      if FirstModelOf(rest, provider).Some? {
        var i :| 0 <= i < |rest| && rest[i] == FirstModelOf(rest, provider).value &&
          forall j :: 0 <= j < i ==> rest[j].provider != provider;
        assert models[i + 1] == rest[i];
        forall j | 0 <= j < i + 1 ensures models[j].provider != provider {
          if j > 0 { assert models[j] == rest[j - 1]; }
        }
      }
    }
  }

  /** `find` returns the head of the filtered list. */
  lemma {:induction false} FirstModelIsFirstOfFilter(models: seq<ModelOption>, provider: string)
    ensures FirstModelOf(models, provider) ==
              if ModelsOf(models, provider) == [] then None else Some(ModelsOf(models, provider)[0])
  {
    if models != [] && models[0].provider != provider {
      FirstModelIsFirstOfFilter(models[1..], provider);
    }
  }

  /** The provider list has no duplicates, lists exactly the providers of
      the table, and in the order of their first appearance. */
  lemma ProvidersFacts(models: seq<ModelOption>)
    ensures NoDuplicates(Providers(models))
    ensures forall m :: m in models ==> m.provider in Providers(models)
    ensures forall p :: p in Providers(models) ==> exists m :: m in models && m.provider == p
    ensures InFirstAppearanceOrder(Providers(models), ProviderColumn(models))
  {
    var column := ProviderColumn(models);
    DistinctHasNoDuplicates(column);
    DistinctSameElements(column);
    DistinctFirstAppearanceOrder(column);
    forall m | m in models ensures m.provider in Providers(models) {
      var k :| 0 <= k < |models| && models[k] == m;
      assert column[k] == m.provider;
    }
    forall p | p in Providers(models) ensures exists m :: m in models && m.provider == p {
      var k :| 0 <= k < |column| && column[k] == p;
      assert models[k] in models;
    }
  }

  /** The provider column of the table is a run per provider. */
  lemma ProviderRuns()
    ensures ProviderColumn(Models) ==
      Repeat("OpenAI", 2) + Repeat("Google", 2) + Repeat("Anthropic", 2) + Repeat("Mistral", 2) +
      Repeat("X.AI", 1) + Repeat("Groq", 1) + Repeat("OpenRouter", 10)
  {
  }

  /** Seven runs of pairwise different elements have those seven as their
      distinct elements. */
  lemma DistinctOfSevenRuns<T>(xs: seq<T>, n: seq<nat>)
    requires |xs| == 7 && |n| == 7 && NoDuplicates(xs)
    requires forall i :: 0 <= i < 7 ==> n[i] >= 1
    ensures Distinct(Repeat(xs[0], n[0]) + Repeat(xs[1], n[1]) + Repeat(xs[2], n[2]) + Repeat(xs[3], n[3]) +
      Repeat(xs[4], n[4]) + Repeat(xs[5], n[5]) + Repeat(xs[6], n[6])) == xs
  {
    var r1 := Repeat(xs[0], n[0]);
    var r2 := r1 + Repeat(xs[1], n[1]);
    var r3 := r2 + Repeat(xs[2], n[2]);
    var r4 := r3 + Repeat(xs[3], n[3]);
    var r5 := r4 + Repeat(xs[4], n[4]);
    var r6 := r5 + Repeat(xs[5], n[5]);
    assert [] + r1 == r1;
    DistinctRunNew([], [], xs[0], n[0]);
    DistinctRunNew(r1, xs[..1], xs[1], n[1]);
    DistinctRunNew(r2, xs[..2], xs[2], n[2]);
    DistinctRunNew(r3, xs[..3], xs[3], n[3]);
    DistinctRunNew(r4, xs[..4], xs[4], n[4]);
    DistinctRunNew(r5, xs[..5], xs[5], n[5]);
    DistinctRunNew(r6, xs[..6], xs[6], n[6]);
    assert xs[..7] == xs;
  }

  /** The seven provider names differ from each other. */
  lemma ProviderNamesDiffer()
    ensures NoDuplicates(["OpenAI", "Google", "Anthropic", "Mistral", "X.AI", "Groq", "OpenRouter"])
  {
    assert "Google"[0] != "OpenAI"[0];
    assert "Groq"[0] != "X.AI"[0];
  }

  /** The providers the picker offers, in order. */
  lemma ProvidersOfTable()
    ensures Providers(Models) == ["OpenAI", "Google", "Anthropic", "Mistral", "X.AI", "Groq", "OpenRouter"]
  {
    ProviderRuns();
    ProviderNamesDiffer();
    DistinctOfSevenRuns(["OpenAI", "Google", "Anthropic", "Mistral", "X.AI", "Groq", "OpenRouter"], [2, 2, 2, 2, 1, 1, 10]);
  }

  /** Model values are unique, so they can serve as item keys. */
  lemma ValuesUnique()
    ensures NoDuplicates(ValueColumn(Models))
  {
  }

  /** The initial selection, provider `OpenAI` with model `gpt35`, is that
      provider's first entry. */
  lemma InitialSelectionConsistent()
    ensures FirstModelOf(Models, "OpenAI") == Some(ModelOption("OpenAI", "gpt35", "GPT-3.5"))
  {
  }

  /** Every `Anthropic` entry holds a `/`, so it takes the OpenRouter path
      with its value passed through. */
  lemma AnthropicEntriesUseOpenRouter()
    ensures forall k :: 0 <= k < |Models| && Models[k].provider == "Anthropic" ==>
              '/' in Models[k].value && AIGeneration.RouteFor(Models[k].value) == AIGeneration.OpenRouter(Models[k].value)
  {
    forall k | 0 <= k < |Models| && Models[k].provider == "Anthropic"
      ensures '/' in Models[k].value
    {
      assert k == 4 || k == 5;
      assert Models[k].value[9] == '/';
    }
  }

  /** No entry of the table reaches the Anthropic SDK: the `claude-sonnet`
      and `claude-haiku` cases of the vendor switch are dead from the picker. */
  lemma ClaudeSwitchCasesUnreachable()
    ensures forall m :: m in Models ==>
              !(AIGeneration.RouteFor(m.value).VendorSdk? && AIGeneration.RouteFor(m.value).vendor == AIGeneration.Anthropic)
  {
    forall m | m in Models
      ensures !(AIGeneration.RouteFor(m.value).VendorSdk? && AIGeneration.RouteFor(m.value).vendor == AIGeneration.Anthropic)
    {
      AIGeneration.VendorFallback(m.value);
      assert m.value != "claude-sonnet" && m.value != "claude-haiku";
    }
  }

  /** The picker's state over its model table: the chosen provider and model,
      and the values reported to the `onModelChange` callback, oldest first. */
  class ModelSelector {
    const models: seq<ModelOption>
    var selectedProvider: string
    var selectedModel: string
    var reported: seq<string>

    /** The selected model is one the selected provider offers. */
    ghost predicate Consistent()
      reads this
    {
      exists m :: m in ModelsOf(models, selectedProvider) && m.value == selectedModel
    }

    /** The initial selection; `InitialSelectionConsistent` shows that the
      table `Models` meets the requirement. */
    constructor (models: seq<ModelOption>)
      requires FirstModelOf(models, "OpenAI").Some? && FirstModelOf(models, "OpenAI").value.value == "gpt35"
      ensures this.models == models
      ensures selectedProvider == "OpenAI" && selectedModel == "gpt35" && reported == []
      ensures Consistent()
    {
      this.models := models;
      selectedProvider := "OpenAI";
      selectedModel := "gpt35";
      reported := [];
      FirstModelIsFirstOfFilter(models, "OpenAI");
      assert FirstModelOf(models, "OpenAI").value in ModelsOf(models, "OpenAI");
    }

    /** `providerModels`: the entries listed for the selected provider. */
    function ProviderModels(): seq<ModelOption>
      reads this
    {
      ModelsOf(models, selectedProvider)
    }

    /** `handleProviderChange`: the provider is always updated; the model is
      reset to, and reported as, the provider's first entry when it has one. */
    method HandleProviderChange(provider: string)
      modifies this
      ensures selectedProvider == provider
      ensures FirstModelOf(models, provider).Some? ==>
                selectedModel == FirstModelOf(models, provider).value.value &&
                reported == old(reported) + [selectedModel]
      ensures FirstModelOf(models, provider).None? ==>
                selectedModel == old(selectedModel) && reported == old(reported)
      ensures provider in Providers(models) ==> Consistent()
    {
      selectedProvider := provider;
      var first := FirstModelOf(models, provider);
      if first.Some? {
        selectedModel := first.value.value;
        reported := reported + [first.value.value];
        FirstModelIsFirstOfFilter(models, provider);
        assert first.value in ModelsOf(models, provider);
      }
      ProvidersFacts(models);
    }

    /** `handleModelChange`: the model is set and reported as given. */
    method HandleModelChange(model: string)
      modifies this
      ensures selectedModel == model && reported == old(reported) + [model]
      ensures selectedProvider == old(selectedProvider)
      ensures (exists m :: m in ProviderModels() && m.value == model) ==> Consistent()
    {
      selectedModel := model;
      reported := reported + [model];
    }
  }
}
