/** The model catalog: the predefined list of Ollama models offered in the model dropdown,
    the rule that picks a default model from the installed ones, and the update that merges
    the installed models into the catalog at startup. */
module Catalog {
  import opened Wrappers
  import opened PyStrings

  /** One dropdown entry: `{"name", "id", "description", "supports_vision"}`. */
  datatype ModelEntry = ModelEntry(name: string, id: string, description: string, supportsVision: bool)

  /** The predefined catalog, in dropdown order. */
  const PredefinedModels: seq<ModelEntry> := [
    ModelEntry("CodeLlama 7B", "codellama:7b", "Code Llama 7B model for code generation", false),
    ModelEntry("CodeLlama 13B", "codellama:13b", "Code Llama 13B model for advanced code generation", false),
    ModelEntry("DeepSeek Coder 6.7B", "deepseek-coder:6.7b",
               "DeepSeek Coder 6.7B model specialized for code generation", false),
    ModelEntry("Llama 3.1 8B", "llama3.1:8b", "Llama 3.1 8B model for general tasks and code generation", false),
    ModelEntry("Llava 7B", "llava:7b", "Llava 7B multimodal model with vision support", true),
    ModelEntry("Llava 13B", "llava:13b", "Llava 13B multimodal model with advanced vision support", true),
    ModelEntry("Mistral 7B", "mistral:7b", "Mistral 7B model for general tasks", false),
    ModelEntry("Qwen2 7B", "qwen2:7b", "Qwen2 7B model for general tasks and code generation", false),
    ModelEntry("CodeGemma 7B", "codegemma:7b", "CodeGemma 7B model for code generation", false)
  ]

  /** The models preferred as default, best first. */
  const DefaultPriority: seq<string> := [
    "gemma3:12b", "gemma2:9b", "gemma2:latest", "llama3.2:3b",
    "qwen2.5:7b", "llama3.1:latest", "mistral:latest", "mistral:7b"
  ]

  // ---------------------------------------------------------------------------------------
  // Picking a model by preference

  /** `name` is the first entry of `preference` that occurs in `present`. */
  ghost predicate IsFirstPresent(preference: seq<string>, present: seq<string>, name: string) {
    exists j :: 0 <= j < |preference| && preference[j] == name && name in present &&
      forall i :: 0 <= i < j ==> preference[i] !in present
  }

  /** The first entry of `preference` that occurs in `present`, if any. */
  function FirstPresent(preference: seq<string>, present: seq<string>): Option<string> {
    if preference == [] then None
    else if preference[0] in present then Some(preference[0])
    else FirstPresent(preference[1..], present)
  }

  /** The search finds the first preferred name that is present, and fails only when no
      preferred name is present. */
  lemma {:induction false} FirstPresentSpec(preference: seq<string>, present: seq<string>)
    ensures FirstPresent(preference, present).None? <==>
              forall p :: p in preference ==> p !in present
    ensures FirstPresent(preference, present).Some? ==>
              IsFirstPresent(preference, present, FirstPresent(preference, present).value)
    decreases |preference|
  {
    if preference != [] && preference[0] !in present {
      var rest := preference[1..];
      FirstPresentSpec(rest, present);
      assert forall p :: p in preference ==> p == preference[0] || p in rest;
      var r := FirstPresent(rest, present);
      if r.Some? {
        var j :| 0 <= j < |rest| && rest[j] == r.value && r.value in present &&
                 forall i :: 0 <= i < j ==> rest[i] !in present;
        assert preference[j + 1] == r.value;
        assert forall i :: 1 <= i < j + 1 ==> preference[i] == rest[i - 1];
      }
    } else if preference != [] {
      assert preference[0] in preference;
    }
  }

  /** `get_default_model_id(installed)`: the best installed model of `DefaultPriority`,
      else the first installed model, else None. */
  function DefaultModelId(installed: seq<string>): Option<string> {
    match FirstPresent(DefaultPriority, installed)
    case Some(p) => Some(p)
    case None => if installed != [] then Some(installed[0]) else None
  }

  /** The default is None exactly when nothing is installed, and otherwise an installed
      model: the first one of the priority list that is installed, or, when none of those
      is, the first installed model. */
  lemma DefaultModelIdSpec(installed: seq<string>)
    ensures DefaultModelId(installed).None? <==> installed == []
    ensures DefaultModelId(installed).Some? ==> DefaultModelId(installed).value in installed
    ensures (exists p :: p in DefaultPriority && p in installed) ==>
              DefaultModelId(installed).Some? &&
              IsFirstPresent(DefaultPriority, installed, DefaultModelId(installed).value)
    ensures (forall p :: p in DefaultPriority ==> p !in installed) && installed != [] ==>
              DefaultModelId(installed) == Some(installed[0])
  {
    FirstPresentSpec(DefaultPriority, installed);
    var r := FirstPresent(DefaultPriority, installed);
    if r.Some? {
      var j :| 0 <= j < |DefaultPriority| && DefaultPriority[j] == r.value && r.value in installed &&
               forall i :: 0 <= i < j ==> DefaultPriority[i] !in installed;
    }
  }

  // ---------------------------------------------------------------------------------------
  // Merging the installed models into the catalog

  /** The entry built for an installed model the catalog does not describe: ":" becomes a
      space and the result is title-cased, and the model counts as a vision model when its
      lower-cased name mentions "llava" or "vision". */
  function BuildEntry(modelName: string): ModelEntry {
    var lower := Lower(modelName);
    ModelEntry(Title(ReplaceChar(modelName, ':', ' ')), modelName, modelName + " model",
               Contains(lower, "llava") || Contains(lower, "vision"))
  }

  /** The catalog entries whose model is installed, in catalog order. */
  function Kept(models: seq<ModelEntry>, installed: seq<string>): (r: seq<ModelEntry>)
    ensures |r| <= |models|
    ensures forall e :: e in r <==> e in models && e.id in installed
  {
    if models == [] then []
    else (if models[0].id in installed then [models[0]] else []) + Kept(models[1..], installed)
  }

  /** A single entry survives exactly when its model is installed. */
  lemma KeptOne(e: ModelEntry, installed: seq<string>)
    ensures Kept([e], installed) == (if e.id in installed then [e] else [])
  {
    assert [e][1..] == [];
  }

  /** Filtering keeps the catalog order and every repeated entry: the survivors of `a + b`
      are the survivors of `a` followed by those of `b`. */
  lemma {:induction false} KeptConcat(a: seq<ModelEntry>, b: seq<ModelEntry>, installed: seq<string>)
    ensures Kept(a + b, installed) == Kept(a, installed) + Kept(b, installed)
    decreases |a|
  {
    if a == [] {
      assert a + b == b;
    } else {
      assert (a + b)[0] == a[0];
      assert (a + b)[1..] == a[1..] + b;
      KeptConcat(a[1..], b, installed);
    }
  }

  /** `[m.get("id") for m in models]`. */
  function Ids(models: seq<ModelEntry>): (r: seq<string>)
    ensures |r| == |models|
    ensures forall k :: 0 <= k < |models| ==> r[k] == models[k].id
  {
    seq(|models|, k requires 0 <= k < |models| => models[k].id)
  }

  lemma IdsMembership(models: seq<ModelEntry>, name: string)
    ensures name in Ids(models) <==> exists e :: e in models && e.id == name
  {
    if exists e :: e in models && e.id == name {
      var e :| e in models && e.id == name;
      var k :| 0 <= k < |models| && models[k] == e;
      assert Ids(models)[k] == name;
    }
  }

  /** The entries built for the installed names not among `ids`, one per occurrence, in
      installed order. */
  function Missing(names: seq<string>, ids: seq<string>): seq<ModelEntry>
    decreases |names|
  {
    if names == [] then []
    else
      var last := names[|names| - 1];
      Missing(names[..|names| - 1], ids) + (if last in ids then [] else [BuildEntry(last)])
  }

  /** The missing entries are built from installed names not among `ids`, and each such
      name gets one. */
  lemma {:induction false} MissingSpec(names: seq<string>, ids: seq<string>)
    ensures forall e :: e in Missing(names, ids) ==> e == BuildEntry(e.id) && e.id in names && e.id !in ids
    ensures forall n :: n in names && n !in ids ==> BuildEntry(n) in Missing(names, ids)
    decreases |names|
  {
    if names != [] {
      var init, last := names[..|names| - 1], names[|names| - 1];
      MissingSpec(init, ids);
      assert forall n :: n in names ==> n in init || n == last;
      assert forall n :: n in init ==> n in names;
    }
  }

  /** One more name adds its entry unless its id is already present. */
  lemma MissingStep(names: seq<string>, i: nat, ids: seq<string>)
    requires i < |names|
    ensures Missing(names[..i + 1], ids) ==
              Missing(names[..i], ids) + (if names[i] in ids then [] else [BuildEntry(names[i])])
  {
    assert names[..i + 1][..i] == names[..i];
    assert names[..i + 1][i] == names[i];
  }

  /** Nothing is missing when every name is already among the ids. */
  lemma {:induction false} MissingNone(names: seq<string>, ids: seq<string>)
    requires forall n :: n in names ==> n in ids
    ensures Missing(names, ids) == []
    decreases |names|
  {
    if names != [] {
      MissingNone(names[..|names| - 1], ids);
      assert names[|names| - 1] in names;
    }
  }

  /** The catalog after a merge with a non-empty installed list: the catalog entries whose
      model is installed, in their order, followed by an entry for every other installed
      name. */
  function Merged(models: seq<ModelEntry>, installed: seq<string>): seq<ModelEntry> {
    var kept := Kept(models, installed);
    kept + Missing(installed, Ids(kept))
  }

  /** After a merge the catalog describes exactly the installed models: each of its entries
      is for an installed model, every installed model has an entry, the surviving catalog
      entries come first, and every added entry is built from its name. */
  lemma MergedCoversInstalled(models: seq<ModelEntry>, installed: seq<string>)
    ensures var r := Merged(models, installed);
            var kept := Kept(models, installed);
            r[..|kept|] == kept &&
            (forall e :: e in r ==> e.id in installed) &&
            (forall n :: n in installed ==> exists e :: e in r && e.id == n) &&
            (forall e :: e in r[|kept|..] ==> e == BuildEntry(e.id) && e !in kept)
  {
    var kept := Kept(models, installed);
    var r := Merged(models, installed);
    assert r[..|kept|] == kept;
    assert r[|kept|..] == Missing(installed, Ids(kept));
    MissingSpec(installed, Ids(kept));
    forall n | n in installed
      ensures exists e :: e in r && e.id == n
    {
      IdsMembership(kept, n);
      if n in Ids(kept) {
        var e :| e in kept && e.id == n;
        assert e in r;
      } else {
        assert BuildEntry(n) in r;
      }
    }
    forall e | e in r[|kept|..]
      ensures e == BuildEntry(e.id) && e !in kept
    {
      IdsMembership(kept, e.id);
    }
  }

  /** The default after a merge with a non-empty installed list. A configured default that
      is not installed is dropped; an empty or dropped default is replaced by the pick of
      `DefaultModelId`. */
  function MergedDefault(configured: Option<string>, installed: seq<string>): Option<string> {
    var d := if configured.Some? && configured.value != "" && configured.value !in installed
             then None else configured;
    if d.None? || d.value == "" then DefaultModelId(installed) else d
  }

  /** After a merge with a non-empty installed list, the default is an installed model: the
      configured one when it is installed, the priority pick otherwise. */
  lemma MergedDefaultInstalled(configured: Option<string>, installed: seq<string>)
    requires installed != []
    ensures MergedDefault(configured, installed).Some?
    ensures MergedDefault(configured, installed).value in installed
    ensures configured.Some? && configured.value != "" && configured.value in installed ==>
              MergedDefault(configured, installed) == configured
    ensures !(configured.Some? && configured.value != "" && configured.value in installed) ==>
              MergedDefault(configured, installed) == DefaultModelId(installed)
  {
    DefaultModelIdSpec(installed);
  }

  /** The loop that appends an entry for every name not among `ids`; with no ids it builds
      an entry for every name. */
  method AppendMissing(models: seq<ModelEntry>, names: seq<string>, ids: seq<string>)
    returns (r: seq<ModelEntry>)
    ensures r == models + Missing(names, ids)
  {
    r := models;
    var i := 0;
    while i < |names|
      invariant 0 <= i <= |names|
      invariant r == models + Missing(names[..i], ids)
    {
      var modelName := names[i];
      MissingStep(names, i, ids);
      ghost var before := Missing(names[..i], ids);
      if modelName !in ids {
        r := r + [BuildEntry(modelName)];
        assert r == models + (before + [BuildEntry(modelName)]);
      } else {
        assert before + [] == before;
      }
      i := i + 1;
    }
    assert names[..i] == names;
  }

  /** The module-level state of `mit_rag/main.py`: the dropdown catalog and the default
      model id. */
  class ModelCatalog {
    var availableModels: seq<ModelEntry>
    var defaultModelId: Option<string>

    /** The state at import time: the predefined catalog and the default taken from the
        environment (`OLLAMA_DEFAULT_MODEL`), passed in. */
    constructor(environmentDefault: Option<string>)
      ensures availableModels == PredefinedModels
      ensures defaultModelId == environmentDefault
    {
      availableModels := PredefinedModels;
      defaultModelId := environmentDefault;
    }

    /** `update_available_models()`, given the installed model names it would have fetched.
        An empty list leaves everything as it was. */
    method UpdateAvailableModels(installed: seq<string>)
      modifies this
      ensures installed == [] ==>
                availableModels == old(availableModels) && defaultModelId == old(defaultModelId)
      ensures installed != [] ==>
                availableModels == Merged(old(availableModels), installed) &&
                defaultModelId == MergedDefault(old(defaultModelId), installed)
    {
      if |installed| == 0 {
        return;
      }
      var models := Kept(availableModels, installed);
      ghost var kept := models;

      if |models| == 0 {
        models := AppendMissing([], installed, []);
        assert [] + Missing(installed, []) == Missing(installed, []);
      }
      ghost var base := models;

      var installedIds := Ids(models);
      models := AppendMissing(models, installed, installedIds);
      if kept == [] {
        MissingSpec(installed, []);
        forall n | n in installed
          ensures n in installedIds
        {
          IdsMembership(base, n);
          assert BuildEntry(n) in base;
        }
        MissingNone(installed, installedIds);
      }
      availableModels := models;

      var defaultId := defaultModelId;
      if defaultId.Some? && defaultId.value != "" {
        if defaultId.value !in installed {
          defaultId := None;
        }
      }
      if defaultId.None? || defaultId.value == "" {
        defaultId := DefaultModelId(installed);
      }
      assert defaultId == MergedDefault(old(defaultModelId), installed);
      defaultModelId := defaultId;
    }
  }
}
