/** The multi-file replies of the Transformers.js and Svelte output types: the parsers that
    pull each file out of the model's reply, first from a fenced code block of the file's
    language and, failing that, from an `=== name ===` section, and the formatters that lay
    the files out for display in exactly the section form the parsers accept. */
module MultiFile {
  import opened Wrappers
  import opened PyStrings
  import opened Scanners
  import opened Sections

  /** One file of a multi-file reply: its name and the language of its code block. */
  datatype FileSpec = FileSpec(key: string, lang: string)

  /** The names of the files the parsers fill. */
  const IndexHtml := "index.html"
  const IndexJs := "index.js"
  const StyleCss := "style.css"
  const AppSvelte := "src/App.svelte"
  const AppCss := "src/app.css"

  const TransformersJsFiles: seq<FileSpec> :=
    [FileSpec(IndexHtml, "html"), FileSpec(IndexJs, "javascript"), FileSpec(StyleCss, "css")]

  const SvelteFiles: seq<FileSpec> := [FileSpec(AppSvelte, "svelte"), FileSpec(AppCss, "css")]

  function Keys(specs: seq<FileSpec>): (r: seq<string>)
    ensures |r| == |specs| && forall k :: 0 <= k < |specs| ==> r[k] == specs[k].key
  {
    seq(|specs|, k requires 0 <= k < |specs| => specs[k].key)
  }

  /** Each name is given once. */
  predicate DistinctKeys(keys: seq<string>) {
    forall i, j :: 0 <= i < j < |keys| ==> keys[i] != keys[j]
  }

  /** A dictionary built by storing `values[k]` under `keys[k]`. */
  function ToMap(keys: seq<string>, values: seq<string>): (r: map<string, string>)
    requires |keys| == |values|
    ensures forall key :: key in r <==> key in keys
    decreases |keys|
  {
    if keys == [] then map[] else ToMap(keys[1..], values[1..])[keys[0] := values[0]]
  }

  lemma {:induction false} ToMapAt(keys: seq<string>, values: seq<string>, m: nat)
    requires |keys| == |values| && DistinctKeys(keys) && m < |keys|
    ensures ToMap(keys, values)[keys[m]] == values[m]
    decreases |keys|
  {
    if m > 0 {
      assert keys[1..][m - 1] == keys[m] && values[1..][m - 1] == values[m];
      ToMapAt(keys[1..], values[1..], m - 1);
    }
  }

  /** A dictionary holding exactly `keys`, with `values[k]` under `keys[k]`, is the one
      `ToMap` builds. */
  lemma ToMapOf(files: map<string, string>, keys: seq<string>, values: seq<string>)
    requires |keys| == |values| && DistinctKeys(keys)
    requires forall key :: key in files <==> key in keys
    requires forall k :: 0 <= k < |keys| ==> files[keys[k]] == values[k]
    ensures ToMap(keys, values) == files
  {
    var r := ToMap(keys, values);
    forall key | key in files ensures r[key] == files[key] {
      var k :| 0 <= k < |keys| && keys[k] == key;
      ToMapAt(keys, values, k);
    }
  }

  /*** Parsing ***/

  /** What the two searches for one file find: the group of the first code block in its
      language and the group of the first section under its name. */
  datatype Found = Found(block: Option<string>, section: Option<string>)

  function Lookup(text: string, spec: FileSpec): (r: Found)
    ensures r.block.Some? ==> Within(r.block.value, text)
    ensures r.section.Some? ==> Within(r.section.value, text)
  {
    Found(SearchGroup(text, LanguageBlock(spec.lang)), SearchGroup(text, Section(spec.key)))
  }

  function Lookups(text: string, specs: seq<FileSpec>): (r: seq<Found>)
    ensures |r| == |specs| && forall k :: 0 <= k < |specs| ==> r[k] == Lookup(text, specs[k])
  {
    seq(|specs|, k requires 0 <= k < |specs| => Lookup(text, specs[k]))
  }

  /** The value the code-block pass stores: the block's group stripped, or "" when there is none. */
  function BlockValue(f: Found): (r: string)
    ensures IsStripped(r)
    ensures f.block.None? ==> r == []
  {
    if f.block.Some? then Strip(f.block.value) else []
  }

  /** The sections are consulted when some file is still empty after the code-block pass. */
  predicate AnyEmpty(found: seq<Found>) {
    exists k :: 0 <= k < |found| && BlockValue(found[k]) == []
  }

  /** The final value of one file: a section found overrides the code block when the
      sections are consulted. */
  function FileValue(f: Found, fallback: bool): (r: string)
    ensures IsStripped(r)
  {
    if fallback && f.section.Some? then Strip(f.section.value) else BlockValue(f)
  }

  function Assemble(found: seq<Found>): (r: seq<string>)
    ensures |r| == |found|
  {
    var fallback := AnyEmpty(found);
    seq(|found|, k requires 0 <= k < |found| => FileValue(found[k], fallback))
  }

  /** What a multi-file parser returns for the reply `text`. */
  function ParseFiles(text: string, specs: seq<FileSpec>): map<string, string>
  {
    ToMap(Keys(specs), Assemble(Lookups(text, specs)))
  }

  /** The parser returns exactly the names of its files. */
  lemma ParseFilesKeys(text: string, specs: seq<FileSpec>)
    ensures forall key :: key in ParseFiles(text, specs) <==> exists k :: 0 <= k < |specs| && specs[k].key == key
  {
    var keys := Keys(specs);
    forall key ensures key in keys <==> exists k :: 0 <= k < |specs| && specs[k].key == key {
      if key in keys {
        var k :| 0 <= k < |keys| && keys[k] == key;
        assert specs[k].key == key;
      }
    }
  }

  /** Every value the parser stores is stripped and is either empty or a piece of the reply. */
  lemma ParseFilesValue(text: string, specs: seq<FileSpec>, m: nat)
    requires DistinctKeys(Keys(specs)) && m < |specs|
    ensures var found := Lookups(text, specs);
      ParseFiles(text, specs)[specs[m].key] == FileValue(found[m], AnyEmpty(found))
    ensures IsStripped(ParseFiles(text, specs)[specs[m].key])
    ensures ParseFiles(text, specs)[specs[m].key] == [] || Within(ParseFiles(text, specs)[specs[m].key], text)
  {
    var found := Lookups(text, specs);
    ToMapAt(Keys(specs), Assemble(found), m);
    var f := found[m];
    if f.block.Some? {
      StripWithin(f.block.value);
      WithinTrans(Strip(f.block.value), f.block.value, text);
    }
    if f.section.Some? {
      StripWithin(f.section.value);
      WithinTrans(Strip(f.section.value), f.section.value, text);
    }
  }

  /** When every file has a non-empty code block, each file is its block and the sections
      are not consulted. */
  lemma BlocksSuffice(found: seq<Found>, m: nat)
    requires m < |found| && forall k :: 0 <= k < |found| ==> BlockValue(found[k]) != []
    ensures Assemble(found)[m] == BlockValue(found[m])
  {
  }

  /** When some file is empty after the code blocks, a section found wins for every file,
      even over a code block that was found. */
  lemma SectionOverrides(found: seq<Found>, m: nat, e: nat)
    requires m < |found| && e < |found| && BlockValue(found[e]) == [] && found[m].section.Some?
    ensures Assemble(found)[m] == Strip(found[m].section.value)
  {
  }

  /** A file without a section keeps what the code-block pass stored, and a file found
      neither way is empty. */
  lemma NoSectionKeepsBlock(found: seq<Found>, m: nat)
    requires m < |found| && found[m].section.None?
    ensures Assemble(found)[m] == BlockValue(found[m])
    ensures found[m].block.None? ==> Assemble(found)[m] == []
  {
  }

  /*** The display layout round trip ***/

  /** In text without a fence no file has a code block, so the sections are consulted. */
  lemma NoBlocksInText(text: string, specs: seq<FileSpec>)
    requires NoFenceMark(text)
    ensures forall k :: 0 <= k < |specs| ==> Lookup(text, specs[k]).block.None?
  {
    forall k | 0 <= k < |specs| ensures Lookup(text, specs[k]).block.None? {
      NoLanguageBlock(text, specs[k].lang);
    }
  }

  /** The section found for file `m` gives back that file's contents. */
  lemma SectionValueInText(text: string, keys: seq<string>, values: seq<string>, m: nat)
    requires LaidOut(text, 0, keys, values) && GoodLayout(keys, values) && m < |keys|
    ensures var r := SearchGroup(text, Section(keys[m]));
      if r.Some? then Strip(r.value) == values[m] else values[m] == []
  {
    SectionInLayout(text, 0, keys, values, m);
    var v := values[m];
    assert Clean(v);
    if m < |keys| - 1 {
      StripPadded([], v, "\n");
      assert [] + v + "\n" == v + "\n";
    } else {
      StripOfStripped(v);
      assert v + "" == v;
    }
  }

  /** Parsing laid-out text without a fence gives back every file. */
  lemma ParseLaidOut(text: string, specs: seq<FileSpec>, values: seq<string>)
    requires specs != [] && LaidOut(text, 0, Keys(specs), values) && GoodLayout(Keys(specs), values)
    requires NoFenceMark(text)
    ensures Assemble(Lookups(text, specs)) == values
  {
    var keys := Keys(specs);
    var found := Lookups(text, specs);
    NoBlocksInText(text, specs);
    assert AnyEmpty(found) by {
      assert BlockValue(found[0]) == [];
    }
    forall m | 0 <= m < |specs| ensures Assemble(found)[m] == values[m] {
      SectionValueInText(text, keys, values, m);
    }
  }

  /** The facts about the display text the round trip needs. */
  lemma LayoutFacts(keys: seq<string>, values: seq<string>)
    requires keys != [] && GoodLayout(keys, values)
    ensures LaidOut(Layout(keys, values), 0, keys, values) && NoFenceMark(Layout(keys, values))
  {
    LayoutLaidOut(keys, values);
    forall k | 0 <= k < |keys| ensures KeyChars(keys[k]) && NoFenceMark(values[k]) {
      CleanNoFence(values[k]);
    }
    LayoutNoFence(keys, values);
  }

  /** Laying clean files out for display and parsing the display text gives the files back. */
  lemma ParseOfLayout(specs: seq<FileSpec>, values: seq<string>)
    requires specs != [] && GoodLayout(Keys(specs), values)
    ensures Assemble(Lookups(Layout(Keys(specs), values), specs)) == values
    ensures ParseFiles(Layout(Keys(specs), values), specs) == ToMap(Keys(specs), values)
  {
    LayoutFacts(Keys(specs), values);
    ParseLaidOut(Layout(Keys(specs), values), specs, values);
  }

  /*** The two file lists ***/

  /** A letter, a dot or a slash: the characters of the file names the parsers look for. */
  predicate PlainChar(c: char) {
    ('a' <= c <= 'z') || ('A' <= c <= 'Z') || c == '.' || c == '/'
  }

  /** Every character from `i` on is plain. */
  predicate PlainFrom(s: string, i: nat)
    decreases |s| - i
  {
    i >= |s| || (PlainChar(s[i]) && PlainFrom(s, i + 1))
  }

  lemma {:induction false} PlainFromChars(s: string, i: nat)
    requires PlainFrom(s, i)
    ensures forall d :: i <= d < |s| ==> !IsSpace(s[d]) && s[d] != '=' && s[d] != '`'
    decreases |s| - i
  {
    if i < |s| {
      PlainFromChars(s, i + 1);
    }
  }

  lemma PlainKey(key: string)
    requires key != [] && PlainFrom(key, 0)
    ensures KeyChars(key)
  {
    PlainFromChars(key, 0);
  }

  lemma Differ(a: string, b: string, d: nat)
    requires d < |a| && d < |b| && LowerChar(a[d]) != LowerChar(b[d])
    ensures CiDiffer(a, b) && CiDiffer(b, a)
  {
  }

  lemma GoodKeysThree(a: string, b: string, c: string)
    requires KeyChars(a) && KeyChars(b) && KeyChars(c)
    requires CiDiffer(a, b) && CiDiffer(b, a) && CiDiffer(a, c) && CiDiffer(c, a)
    requires CiDiffer(b, c) && CiDiffer(c, b)
    ensures GoodKeys([a, b, c]) && DistinctKeys([a, b, c])
  {
  }

  lemma GoodKeysTwo(a: string, b: string)
    requires KeyChars(a) && KeyChars(b) && CiDiffer(a, b) && CiDiffer(b, a)
    ensures GoodKeys([a, b]) && DistinctKeys([a, b])
  {
  }

  /** The names of the Transformers.js files are well-formed and differ even without case. */
  lemma TransformersJsKeysGood()
    ensures GoodKeys(Keys(TransformersJsFiles)) && DistinctKeys(Keys(TransformersJsFiles))
  {
    assert Keys(TransformersJsFiles) == [IndexHtml, IndexJs, StyleCss];
    PlainKey(IndexHtml);
    PlainKey(IndexJs);
    PlainKey(StyleCss);
    Differ(IndexHtml, IndexJs, 6);
    Differ(IndexHtml, StyleCss, 0);
    Differ(IndexJs, StyleCss, 0);
    GoodKeysThree(IndexHtml, IndexJs, StyleCss);
  }

  /** The names of the Svelte files are well-formed and differ even without case. */
  lemma SvelteKeysGood()
    ensures GoodKeys(Keys(SvelteFiles)) && DistinctKeys(Keys(SvelteFiles))
  {
    assert Keys(SvelteFiles) == [AppSvelte, AppCss];
    PlainKey(AppSvelte);
    PlainKey(AppCss);
    Differ(AppSvelte, AppCss, 8);
    GoodKeysTwo(AppSvelte, AppCss);
  }

  /*** The parsers as the source runs them ***/

  lemma AnyEmptyThree(found: seq<Found>)
    requires |found| == 3
    ensures AnyEmpty(found) <==> BlockValue(found[0]) == [] || BlockValue(found[1]) == [] || BlockValue(found[2]) == []
  {
  }

  lemma AnyEmptyTwo(found: seq<Found>)
    requires |found| == 2
    ensures AnyEmpty(found) <==> BlockValue(found[0]) == [] || BlockValue(found[1]) == []
  {
  }

  lemma ToMapThree(files: map<string, string>, keys: seq<string>, values: seq<string>)
    requires |keys| == 3 && |values| == 3 && DistinctKeys(keys)
    requires forall key :: key in files <==> key == keys[0] || key == keys[1] || key == keys[2]
    requires files[keys[0]] == values[0] && files[keys[1]] == values[1] && files[keys[2]] == values[2]
    ensures files == ToMap(keys, values)
  {
    ToMapOf(files, keys, values);
  }

  lemma ToMapTwo(files: map<string, string>, keys: seq<string>, values: seq<string>)
    requires |keys| == 2 && |values| == 2 && DistinctKeys(keys)
    requires forall key :: key in files <==> key == keys[0] || key == keys[1]
    requires files[keys[0]] == values[0] && files[keys[1]] == values[1]
    ensures files == ToMap(keys, values)
  {
    ToMapOf(files, keys, values);
  }

  /** The dictionary after `if r: files[key] = r.group(1).strip()`. */
  function Put(files: map<string, string>, key: string, r: Option<string>): map<string, string>
  {
    if r.Some? then files[key := Strip(r.value)] else files
  }

  /** Three `Put`s on distinct names, each seen on its own. */
  lemma PutThree(g: map<string, string>, a: string, b: string, c: string, r0: Option<string>, r1: Option<string>, r2: Option<string>)
    requires a != b && a != c && b != c && a in g && b in g && c in g
    ensures var h := Put(Put(Put(g, a, r0), b, r1), c, r2);
      (forall k :: k in h <==> k in g)
      && h[a] == (if r0.Some? then Strip(r0.value) else g[a])
      && h[b] == (if r1.Some? then Strip(r1.value) else g[b])
      && h[c] == (if r2.Some? then Strip(r2.value) else g[c])
  {
  }

  /** The two passes of a three-file parser, on any three distinct names, store what
      `Assemble` gives. */
  lemma ThreeSteps(a: string, b: string, c: string, found: seq<Found>)
    requires a != b && a != c && b != c && |found| == 3
    ensures var g1 := Put(Put(Put(map[a := "", b := "", c := ""], a, found[0].block), b, found[1].block), c, found[2].block);
      var g2 := if !(g1[a] != [] && g1[b] != [] && g1[c] != [])
        then Put(Put(Put(g1, a, found[0].section), b, found[1].section), c, found[2].section) else g1;
      g2 == ToMap([a, b, c], Assemble(found))
  {
    AnyEmptyThree(found);
    var g0 := map[a := "", b := "", c := ""];
    PutThree(g0, a, b, c, found[0].block, found[1].block, found[2].block);
    var g1 := Put(Put(Put(g0, a, found[0].block), b, found[1].block), c, found[2].block);
    assert g1[a] == BlockValue(found[0]) && g1[b] == BlockValue(found[1]) && g1[c] == BlockValue(found[2]);
    PutThree(g1, a, b, c, found[0].section, found[1].section, found[2].section);
    var g2 := if !(g1[a] != [] && g1[b] != [] && g1[c] != [])
      then Put(Put(Put(g1, a, found[0].section), b, found[1].section), c, found[2].section) else g1;
    ToMapThree(g2, [a, b, c], Assemble(found));
  }

  lemma TransformersJsKeys()
    ensures Keys(TransformersJsFiles) == [IndexHtml, IndexJs, StyleCss]
  {
    assert Keys(TransformersJsFiles) == [IndexHtml, IndexJs, StyleCss];
  }

  lemma SvelteKeys()
    ensures Keys(SvelteFiles) == [AppSvelte, AppCss]
  {
    assert Keys(SvelteFiles) == [AppSvelte, AppCss];
  }

  lemma TransformersJsLookups(text: string, found: seq<Found>)
    requires found == Lookups(text, TransformersJsFiles)
    ensures Keys(TransformersJsFiles) == [IndexHtml, IndexJs, StyleCss]
    ensures found[0] == Found(SearchGroup(text, LanguageBlock("html")), SearchGroup(text, Section(IndexHtml)))
    ensures found[1] == Found(SearchGroup(text, LanguageBlock("javascript")), SearchGroup(text, Section(IndexJs)))
    ensures found[2] == Found(SearchGroup(text, LanguageBlock("css")), SearchGroup(text, Section(StyleCss)))
  {
    assert Keys(TransformersJsFiles) == [IndexHtml, IndexJs, StyleCss];
  }

  lemma PutTwo(g: map<string, string>, a: string, b: string, r0: Option<string>, r1: Option<string>)
    requires a != b && a in g && b in g
    ensures var h := Put(Put(g, a, r0), b, r1);
      (forall k :: k in h <==> k in g)
      && h[a] == (if r0.Some? then Strip(r0.value) else g[a])
      && h[b] == (if r1.Some? then Strip(r1.value) else g[b])
  {
  }

  /** The two passes of a two-file parser, on any two distinct names, store what
      `Assemble` gives. */
  lemma TwoSteps(a: string, b: string, found: seq<Found>)
    requires a != b && |found| == 2
    ensures var g1 := Put(Put(map[a := "", b := ""], a, found[0].block), b, found[1].block);
      var g2 := if !(g1[a] != [] && g1[b] != [])
        then Put(Put(g1, a, found[0].section), b, found[1].section) else g1;
      g2 == ToMap([a, b], Assemble(found))
  {
    AnyEmptyTwo(found);
    var g0 := map[a := "", b := ""];
    PutTwo(g0, a, b, found[0].block, found[1].block);
    var g1 := Put(Put(g0, a, found[0].block), b, found[1].block);
    assert g1[a] == BlockValue(found[0]) && g1[b] == BlockValue(found[1]);
    PutTwo(g1, a, b, found[0].section, found[1].section);
    var g2 := if !(g1[a] != [] && g1[b] != [])
      then Put(Put(g1, a, found[0].section), b, found[1].section) else g1;
    assert g2[a] == FileValue(found[0], AnyEmpty(found)) && g2[b] == FileValue(found[1], AnyEmpty(found));
    ToMapTwo(g2, [a, b], Assemble(found));
  }

  /** The three files of a Transformers.js reply, filled in the order the source fills them. */
  method ParseTransformersJs(text: string) returns (files: map<string, string>)
    ensures files == ParseFiles(text, TransformersJsFiles)
  {
    files := map[IndexHtml := "", IndexJs := "", StyleCss := ""];
    var htmlMatch := SearchGroup(text, LanguageBlock("html"));
    if htmlMatch.Some? {
      files := files[IndexHtml := Strip(htmlMatch.value)];
    }
    var jsMatch := SearchGroup(text, LanguageBlock("javascript"));
    if jsMatch.Some? {
      files := files[IndexJs := Strip(jsMatch.value)];
    }
    var cssMatch := SearchGroup(text, LanguageBlock("css"));
    if cssMatch.Some? {
      files := files[StyleCss := Strip(cssMatch.value)];
    }
    if !(files[IndexHtml] != [] && files[IndexJs] != [] && files[StyleCss] != []) {
      var htmlFallback := SearchGroup(text, Section(IndexHtml));
      var jsFallback := SearchGroup(text, Section(IndexJs));
      var cssFallback := SearchGroup(text, Section(StyleCss));
      if htmlFallback.Some? {
        files := files[IndexHtml := Strip(htmlFallback.value)];
      }
      if jsFallback.Some? {
        files := files[IndexJs := Strip(jsFallback.value)];
      }
      if cssFallback.Some? {
        files := files[StyleCss := Strip(cssFallback.value)];
      }
    }
    ghost var found := Lookups(text, TransformersJsFiles);
    TransformersJsLookups(text, found);
    TransformersJsKeysGood();
    ThreeSteps(IndexHtml, IndexJs, StyleCss, found);
  }

  lemma SvelteLookups(text: string, found: seq<Found>)
    requires found == Lookups(text, SvelteFiles)
    ensures Keys(SvelteFiles) == [AppSvelte, AppCss]
    ensures found[0] == Found(SearchGroup(text, LanguageBlock("svelte")), SearchGroup(text, Section(AppSvelte)))
    ensures found[1] == Found(SearchGroup(text, LanguageBlock("css")), SearchGroup(text, Section(AppCss)))
  {
    assert Keys(SvelteFiles) == [AppSvelte, AppCss];
  }

  /** The two files of a Svelte reply, filled in the order the source fills them. */
  method ParseSvelte(text: string) returns (files: map<string, string>)
    ensures files == ParseFiles(text, SvelteFiles)
  {
    files := map[AppSvelte := "", AppCss := ""];
    var svelteMatch := SearchGroup(text, LanguageBlock("svelte"));
    var cssMatch := SearchGroup(text, LanguageBlock("css"));
    if svelteMatch.Some? {
      files := files[AppSvelte := Strip(svelteMatch.value)];
    }
    if cssMatch.Some? {
      files := files[AppCss := Strip(cssMatch.value)];
    }
    if !(files[AppSvelte] != [] && files[AppCss] != []) {
      var appSvelteFallback := SearchGroup(text, Section(AppSvelte));
      if appSvelteFallback.Some? {
        files := files[AppSvelte := Strip(appSvelteFallback.value)];
      }
      var appCssFallback := SearchGroup(text, Section(AppCss));
      if appCssFallback.Some? {
        files := files[AppCss := Strip(appCssFallback.value)];
      }
    }
    ghost var found := Lookups(text, SvelteFiles);
    SvelteLookups(text, found);
    SvelteKeysGood();
    TwoSteps(AppSvelte, AppCss, found);
  }

  /*** Formatting ***/

  /** The title line of one file in the display parts; every title after the first opens
      with a newline, so that joining with newlines leaves a blank line between files. */
  function TitleLine(key: string, first: bool): string {
    (if first then "" else "\n") + "=== " + key + " ==="
  }

  /** The list the formatters build: a title, then the file's contents, for every file. */
  function DisplayParts(keys: seq<string>, values: seq<string>, first: bool): (r: seq<string>)
    requires |keys| == |values|
    ensures |r| == 2 * |keys|
    decreases |keys|
  {
    if keys == [] then [] else [TitleLine(keys[0], first), values[0]] + DisplayParts(keys[1..], values[1..], false)
  }

  lemma JoinPair(a: string, b: string, rest: seq<string>, sep: string)
    ensures Join([a, b] + rest, sep) == a + sep + b + (if rest == [] then [] else sep + Join(rest, sep))
  {
    assert ([a, b] + rest)[1..] == [b] + rest;
    assert ([b] + rest)[1..] == rest;
  }

  lemma TitleHeader(key: string, first: bool)
    ensures TitleLine(key, first) + "\n" == (if first then "" else "\n") + Header(key)
  {
  }

  lemma Regroup(lead: string, h: string, v: string, rest: string)
    ensures lead + (h + v + "\n\n" + rest) == (lead + h) + v + "\n" + ("\n" + rest)
    ensures lead + (h + v) == (lead + h) + v
    ensures "" + h == h
  {
    assert "\n\n" == "\n" + "\n";
  }

  /** Joining the display parts with newlines gives the layout of the files, after one
      newline when the first title opens with one. */
  lemma {:induction false} JoinDisplayParts(keys: seq<string>, values: seq<string>, first: bool)
    requires |keys| == |values| && keys != []
    ensures first ==> Join(DisplayParts(keys, values, first), "\n") == Layout(keys, values)
    ensures !first ==> Join(DisplayParts(keys, values, first), "\n") == "\n" + Layout(keys, values)
    decreases |keys|
  {
    var t, v := TitleLine(keys[0], first), values[0];
    var lead: string := if first then "" else "\n";
    var rest := DisplayParts(keys[1..], values[1..], false);
    assert DisplayParts(keys, values, first) == [t, v] + rest;
    JoinPair(t, v, rest, "\n");
    TitleHeader(keys[0], first);
    if |keys| == 1 {
      assert Join([t, v] + rest, "\n") == (t + "\n") + v;
      Regroup(lead, Header(keys[0]), v, []);
    } else {
      JoinDisplayParts(keys[1..], values[1..], false);
      assert Join(rest, "\n") == "\n" + Layout(keys[1..], values[1..]);
      assert Join([t, v] + rest, "\n") == (t + "\n") + v + "\n" + ("\n" + Layout(keys[1..], values[1..]));
      Regroup(lead, Header(keys[0]), v, Layout(keys[1..], values[1..]));
    }
  }

  lemma DisplayThree(a: string, b: string, c: string, x: string, y: string, z: string)
    ensures DisplayParts([a, b, c], [x, y, z], true) == [TitleLine(a, true), x, TitleLine(b, false), y, TitleLine(c, false), z]
  {
    assert [a, b, c][1..] == [b, c] && [x, y, z][1..] == [y, z];
    DisplayTwo(b, c, y, z);
    assert DisplayParts([b, c], [y, z], false) == [TitleLine(b, false), y, TitleLine(c, false), z] by {
      assert [b, c][1..] == [c] && [y, z][1..] == [z] && [c][1..] == [] && [z][1..] == [];
    }
  }

  lemma DisplayTwo(a: string, b: string, x: string, y: string)
    ensures DisplayParts([a, b], [x, y], true) == [TitleLine(a, true), x, TitleLine(b, false), y]
  {
    assert [a, b][1..] == [b] && [x, y][1..] == [y] && [b][1..] == [] && [y][1..] == [];
  }

  lemma TransformersJsTitles()
    ensures TitleLine(IndexHtml, true) == "=== index.html ==="
    ensures TitleLine(IndexJs, false) == "\n=== index.js ==="
    ensures TitleLine(StyleCss, false) == "\n=== style.css ==="
  {
  }

  lemma SvelteTitles()
    ensures TitleLine(AppSvelte, true) == "=== src/App.svelte ==="
    ensures TitleLine(AppCss, false) == "\n=== src/app.css ==="
  {
  }

  /** The value of `key` in `files`, or "" when it is missing (`files.get(key, "")`). */
  function GetOrEmpty(files: map<string, string>, key: string): string {
    if key in files then files[key] else ""
  }

  /** The values of `keys` in `files`, in order. */
  function ValuesOf(files: map<string, string>, keys: seq<string>): (r: seq<string>)
    ensures |r| == |keys| && forall k :: 0 <= k < |keys| ==> r[k] == GetOrEmpty(files, keys[k])
  {
    seq(|keys|, k requires 0 <= k < |keys| => GetOrEmpty(files, keys[k]))
  }

  /** The display text of the Transformers.js files. A missing file is an error, as the
      source's `files[name]` raises `KeyError`; the error names the first missing file. */
  method FormatTransformersJs(files: map<string, string>) returns (r: Result<string, string>)
    ensures IndexHtml !in files ==> r == Failure(IndexHtml)
    ensures IndexHtml in files && IndexJs !in files ==> r == Failure(IndexJs)
    ensures IndexHtml in files && IndexJs in files && StyleCss !in files ==> r == Failure(StyleCss)
    ensures IndexHtml in files && IndexJs in files && StyleCss in files ==>
      r == Success(Layout(Keys(TransformersJsFiles), ValuesOf(files, Keys(TransformersJsFiles))))
  {
    var output: seq<string> := [];
    output := output + ["=== index.html ==="];
    if IndexHtml !in files {
      return Failure(IndexHtml);
    }
    output := output + [files[IndexHtml]];
    output := output + ["\n=== index.js ==="];
    if IndexJs !in files {
      return Failure(IndexJs);
    }
    output := output + [files[IndexJs]];
    output := output + ["\n=== style.css ==="];
    if StyleCss !in files {
      return Failure(StyleCss);
    }
    output := output + [files[StyleCss]];
    ghost var keys := Keys(TransformersJsFiles);
    assert keys == [IndexHtml, IndexJs, StyleCss];
    ghost var values := ValuesOf(files, keys);
    assert values == [files[IndexHtml], files[IndexJs], files[StyleCss]];
    TransformersJsTitles();
    DisplayThree(IndexHtml, IndexJs, StyleCss, files[IndexHtml], files[IndexJs], files[StyleCss]);
    assert output == DisplayParts(keys, values, true);
    JoinDisplayParts(keys, values, true);
    r := Success(Join(output, "\n"));
  }

  /** The display text of the Svelte files; a missing file shows as empty. */
  method FormatSvelte(files: map<string, string>) returns (r: string)
    ensures r == Layout(Keys(SvelteFiles), ValuesOf(files, Keys(SvelteFiles)))
  {
    var output: seq<string> := [];
    output := output + ["=== src/App.svelte ==="];
    output := output + [GetOrEmpty(files, AppSvelte)];
    output := output + ["\n=== src/app.css ==="];
    output := output + [GetOrEmpty(files, AppCss)];
    ghost var keys := Keys(SvelteFiles);
    assert keys == [AppSvelte, AppCss];
    ghost var values := ValuesOf(files, keys);
    assert values == [GetOrEmpty(files, AppSvelte), GetOrEmpty(files, AppCss)];
    SvelteTitles();
    DisplayTwo(AppSvelte, AppCss, GetOrEmpty(files, AppSvelte), GetOrEmpty(files, AppCss));
    assert output == DisplayParts(keys, values, true);
    JoinDisplayParts(keys, values, true);
    r := Join(output, "\n");
  }

  /*** The round trips of the two output types ***/

  lemma ValuesOfClean(files: map<string, string>, keys: seq<string>)
    requires forall key :: key in files ==> Clean(files[key])
    ensures forall k :: 0 <= k < |keys| ==> Clean(ValuesOf(files, keys)[k])
  {
    forall k | 0 <= k < |keys| ensures Clean(ValuesOf(files, keys)[k]) {
      if keys[k] !in files {
        assert ValuesOf(files, keys)[k] == [];
      }
    }
  }

  lemma ValuesOfMap(files: map<string, string>, keys: seq<string>)
    requires DistinctKeys(keys) && forall key :: key in files <==> key in keys
    ensures ToMap(keys, ValuesOf(files, keys)) == files
  {
    ToMapOf(files, keys, ValuesOf(files, keys));
  }

  /** Laying a dictionary of clean files out with the names of `specs` and parsing the
      display text gives back the dictionary. */
  lemma FormatThenParse(files: map<string, string>, specs: seq<FileSpec>)
    requires specs != [] && GoodKeys(Keys(specs)) && DistinctKeys(Keys(specs))
    requires forall key :: key in files <==> key in Keys(specs)
    requires forall key :: key in files ==> Clean(files[key])
    ensures ParseFiles(Layout(Keys(specs), ValuesOf(files, Keys(specs))), specs) == files
  {
    ValuesOfClean(files, Keys(specs));
    ParseOfLayout(specs, ValuesOf(files, Keys(specs)));
    ValuesOfMap(files, Keys(specs));
  }

  lemma NamesThree(a: string, b: string, c: string)
    ensures forall key :: key in {a, b, c} <==> key in [a, b, c]
  {
  }

  lemma NamesTwo(a: string, b: string)
    ensures forall key :: key in {a, b} <==> key in [a, b]
  {
  }

  lemma SameNames(files: map<string, string>, keys: seq<string>, names: set<string>)
    requires files.Keys == names && forall key :: key in names <==> key in keys
    ensures forall key :: key in files <==> key in keys
  {
  }

  /** Formatting the three Transformers.js files and parsing the result gives them back
      when each is stripped and holds neither a fence marker nor `===`. */
  lemma TransformersJsRoundTrip(files: map<string, string>)
    requires files.Keys == {IndexHtml, IndexJs, StyleCss}
    requires Clean(files[IndexHtml]) && Clean(files[IndexJs]) && Clean(files[StyleCss])
    ensures ParseFiles(Layout(Keys(TransformersJsFiles), ValuesOf(files, Keys(TransformersJsFiles))), TransformersJsFiles) == files
  {
    TransformersJsKeysGood();
    TransformersJsKeys();
    NamesThree(IndexHtml, IndexJs, StyleCss);
    SameNames(files, Keys(TransformersJsFiles), {IndexHtml, IndexJs, StyleCss});
    FormatThenParse(files, TransformersJsFiles);
  }

  /** Formatting the two Svelte files and parsing the result gives them back under the
      same conditions. */
  lemma SvelteRoundTrip(files: map<string, string>)
    requires files.Keys == {AppSvelte, AppCss}
    requires Clean(files[AppSvelte]) && Clean(files[AppCss])
    ensures ParseFiles(Layout(Keys(SvelteFiles), ValuesOf(files, Keys(SvelteFiles))), SvelteFiles) == files
  {
    SvelteKeysGood();
    SvelteKeys();
    NamesTwo(AppSvelte, AppCss);
    SameNames(files, Keys(SvelteFiles), {AppSvelte, AppCss});
    FormatThenParse(files, SvelteFiles);
  }

  /** The Transformers.js parser returns exactly the three file names. */
  lemma TransformersJsParsedNames(text: string)
    ensures ParseFiles(text, TransformersJsFiles).Keys == {IndexHtml, IndexJs, StyleCss}
  {
    TransformersJsKeys();
    NamesThree(IndexHtml, IndexJs, StyleCss);
  }

  /** The Svelte parser returns exactly the two file names. */
  lemma SvelteParsedNames(text: string)
    ensures ParseFiles(text, SvelteFiles).Keys == {AppSvelte, AppCss}
  {
    SvelteKeys();
    NamesTwo(AppSvelte, AppCss);
  }
}
