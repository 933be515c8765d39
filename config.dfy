/** The RAG settings read from the environment: the configured model name and the preferred
    models, a comma-separated list parsed into names. Each setting takes the environment
    value when the variable is set, else its default; the environment is passed in. */
module Config {
  import opened Wrappers
  import opened PyStrings

  const DefaultModelName: string := "gpt-oss:20b"
  /** "gpt-oss:20b,codellama:13b,codellama:7b,llama3.1:8b,llava:13b", written piece by piece. */
  const DefaultModelPreference: string :=
    "gpt-oss:20b" + "," + "codellama:13b" + "," + "codellama:7b" + "," + "llama3.1:8b" + "," + "llava:13b"

  /** `os.getenv(name, default)`: the variable's value when it is set, even to "". */
  function GetEnv(value: Option<string>, default: string): (r: string)
    ensures value.Some? ==> r == value.value
    ensures value.None? ==> r == default
  {
    if value.Some? then value.value else default
  }

  /** `MODEL_NAME`, given the value of the `MODEL_NAME` variable. */
  function ModelName(environment: Option<string>): string {
    GetEnv(environment, DefaultModelName)
  }

  /** The stripped pieces that are not blank, in order. */
  function NonBlankStripped(pieces: seq<string>): (r: seq<string>)
    ensures |r| <= |pieces|
    ensures forall k :: 0 <= k < |r| ==> r[k] != [] && IsStripped(r[k])
    ensures forall x :: x in r <==> x != [] && exists p :: p in pieces && Strip(p) == x
  {
    if pieces == [] then []
    else
      var rest := NonBlankStripped(pieces[1..]);
      assert forall p :: p in pieces ==> p == pieces[0] || p in pieces[1..];
      if Strip(pieces[0]) != [] then [Strip(pieces[0])] + rest else rest
  }

  /** A single piece gives its stripped text, or nothing when it is blank. */
  lemma NonBlankStrippedOne(piece: string)
    ensures NonBlankStripped([piece]) == (if Strip(piece) != [] then [Strip(piece)] else [])
  {
    assert [piece][1..] == [];
  }

  /** The filter keeps the pieces in their original order, repeats included: the names from
      `a + b` are the names from `a` followed by those from `b`. */
  lemma {:induction false} NonBlankStrippedConcat(a: seq<string>, b: seq<string>)
    ensures NonBlankStripped(a + b) == NonBlankStripped(a) + NonBlankStripped(b)
    decreases |a|
  {
    if a == [] {
      assert a + b == b;
    } else {
      assert (a + b)[0] == a[0];
      assert (a + b)[1..] == a[1..] + b;
      NonBlankStrippedConcat(a[1..], b);
    }
  }

  /** `[m.strip() for m in preference.split(",") if m.strip()]`. */
  function PreferredModels(preference: string): (r: seq<string>)
    ensures forall k :: 0 <= k < |r| ==> r[k] != [] && IsStripped(r[k])
    ensures forall x :: x in r <==> x != [] && exists p :: p in Split(preference, ",") && Strip(p) == x
  {
    NonBlankStripped(Split(preference, ","))
  }

  /** The names keep the order in which the preference lists them: the names of the text
      before a comma come before those of the text after it. */
  lemma PreferredModelsConcat(a: string, b: string)
    ensures PreferredModels(a + "," + b) == PreferredModels(a) + PreferredModels(b)
  {
    SplitConcat(a, ',', b);
    NonBlankStrippedConcat(Split(a, ","), Split(b, ","));
  }

  /** A single piece without a comma gives its stripped name, or nothing when it is blank. */
  lemma PreferredModelsOne(piece: string)
    requires ',' !in piece
    ensures PreferredModels(piece) == (if Strip(piece) != [] then [Strip(piece)] else [])
  {
    SplitJoin([piece], ',');
    NonBlankStrippedOne(piece);
  }

  /** `PREFERRED_MODELS`, given the value of the `MODEL_PREFERENCE` variable. */
  function PreferredModelsFrom(environment: Option<string>): seq<string> {
    PreferredModels(GetEnv(environment, DefaultModelPreference))
  }

  /** Pieces that are already stripped names are kept as they are. */
  lemma {:induction false} NonBlankStrippedOfNames(names: seq<string>)
    requires forall k :: 0 <= k < |names| ==> names[k] != [] && IsStripped(names[k])
    ensures NonBlankStripped(names) == names
    decreases |names|
  {
    if names != [] {
      NonBlankStrippedOfNames(names[1..]);
      StripOfStripped(names[0]);
    }
  }

  /** Parsing recovers any list of names written out with commas, as long as the names are
      stripped, not empty and free of commas. */
  lemma PreferredModelsOfJoin(names: seq<string>)
    requires names != []
    requires forall k :: 0 <= k < |names| ==> names[k] != [] && IsStripped(names[k]) && ',' !in names[k]
    ensures PreferredModels(Join(names, ",")) == names
  {
    SplitJoin(names, ',');
    NonBlankStrippedOfNames(names);
  }

  lemma JoinCons(head: string, rest: seq<string>, sep: string)
    requires rest != []
    ensures Join([head] + rest, sep) == head + sep + Join(rest, sep)
  {
    assert ([head] + rest)[1..] == rest;
  }

  /** The default preferences, as a list. */
  const DefaultPreferredModels: seq<string> :=
    ["gpt-oss:20b", "codellama:13b", "codellama:7b", "llama3.1:8b", "llava:13b"]

  lemma DefaultPreferenceIsJoin()
    ensures Join(DefaultPreferredModels, ",") == DefaultModelPreference
  {
    var n5 := ["llava:13b"];
    var n4 := ["llama3.1:8b"] + n5;
    var n3 := ["codellama:7b"] + n4;
    var n2 := ["codellama:13b"] + n3;
    assert DefaultPreferredModels == ["gpt-oss:20b"] + n2;
    JoinCons("llama3.1:8b", n5, ",");
    JoinCons("codellama:7b", n4, ",");
    JoinCons("codellama:13b", n3, ",");
    JoinCons("gpt-oss:20b", n2, ",");
  }

  lemma DefaultNamesPlain()
    ensures forall k :: 0 <= k < |DefaultPreferredModels| ==>
              DefaultPreferredModels[k] != [] && IsStripped(DefaultPreferredModels[k]) &&
              ',' !in DefaultPreferredModels[k]
  {
  }

  /** With no environment overrides the model is gpt-oss:20b and the preferences are the
      five defaults, in order. */
  lemma Defaults()
    ensures ModelName(None) == "gpt-oss:20b"
    ensures PreferredModelsFrom(None) ==
              ["gpt-oss:20b", "codellama:13b", "codellama:7b", "llama3.1:8b", "llava:13b"]
  {
    DefaultPreferenceIsJoin();
    DefaultNamesPlain();
    PreferredModelsOfJoin(DefaultPreferredModels);
  }
}
