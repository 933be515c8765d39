/** Hand-written scanners for the five regular-expression shapes the output parsers use,
    with the semantics of Python's `re.search`: the match with the leftmost start wins,
    and at that start the backtracking order of the pattern decides the group.

    - `HtmlFence`      ```` ```(?:html|HTML)\n([\s\S]+?)\n``` ````
    - `PlainFence`     ```` ```\n([\s\S]+?)\n``` ````
    - `InlineFence`    ```` ```([\s\S]+?)``` ````
    - `LanguageBlock`  ```` ```LANG\s*\n([\s\S]+?)\n``` ```` under `re.IGNORECASE`
    - `Section`        `===\s*NAME\s*===\n([\s\S]+?)(?=\n===|$)` under `re.IGNORECASE`

    The lazy group `([\s\S]+?)` is the shortest non-empty text after which the rest of the
    pattern matches. A `\s*` that is followed by a literal starting with a non-space
    character can only match the whole run of spaces, so it is the maximal run; the
    `\s*\n` of `LanguageBlock` backtracks from the right over the newlines of that run. */
module Scanners {
  import opened Wrappers
  import opened PyStrings

  /** The place of group 1 in the searched text. */
  datatype Capture = Capture(start: nat, end: nat)

  /** A successful search: where the match starts, and its group. */
  datatype Match = Match(at: nat, group: Capture)

  /** What has to follow the lazy group. */
  datatype Terminator =
    | Literal(text: string)  // the pattern goes on with this literal text
    | SectionEnd             // the lookahead `(?=\n===|$)`; `$` also matches before a final newline

  datatype Pattern =
    | HtmlFence
    | PlainFence
    | InlineFence
    | LanguageBlock(lang: string)
    | Section(name: string)

  predicate EndsAt(text: string, j: nat, term: Terminator) {
    match term
    case Literal(t) => StartsAt(text, j, t)
    case SectionEnd => StartsAt(text, j, "\n===") || j == |text| || (j + 1 == |text| && text[j] == '\n')
  }

  /** The first index at or after `j` where `term` matches. */
  function EndFrom(text: string, j: nat, term: Terminator): (r: Option<nat>)
    ensures r.Some? ==> j <= r.value <= |text| && EndsAt(text, r.value, term)
    ensures r.Some? ==> forall k :: j <= k < r.value ==> !EndsAt(text, k, term)
    ensures r.None? ==> forall k :: j <= k <= |text| ==> !EndsAt(text, k, term)
    decreases |text| + 1 - j
  {
    if j > |text| then None
    else if EndsAt(text, j, term) then Some(j)
    else EndFrom(text, j + 1, term)
  }

  /** `([\s\S]+?)` starting at `start` and followed by `term`: the shortest non-empty group. */
  function LazyEnd(text: string, start: nat, term: Terminator): (r: Option<nat>)
    ensures r.Some? ==> start < r.value <= |text| && EndsAt(text, r.value, term)
    ensures r.Some? ==> forall j :: start < j < r.value ==> !EndsAt(text, j, term)
    ensures r.None? ==> forall j :: start < j <= |text| ==> !EndsAt(text, j, term)
  {
    EndFrom(text, start + 1, term)
  }

  function Group(text: string, start: nat, term: Terminator): (r: Option<Capture>)
    ensures r.Some? ==> r.value.start == start && LazyEnd(text, start, term) == Some(r.value.end)
    ensures r.None? <==> LazyEnd(text, start, term).None?
  {
    match LazyEnd(text, start, term)
    case Some(e) => Some(Capture(start, e))
    case None => None
  }

  /** The end of the run of spaces that starts at `i`. */
  function SpaceRunEnd(text: string, i: nat): (j: nat)
    requires i <= |text|
    ensures i <= j <= |text|
    ensures forall k :: i <= k < j ==> IsSpace(text[k])
    ensures j == |text| || !IsSpace(text[j])
    decreases |text| - i
  {
    if i == |text| || !IsSpace(text[i]) then i else SpaceRunEnd(text, i + 1)
  }

  /** `\s*\n([\s\S]+?)\n```` where the run of spaces is `text[a..e]`: the `\n` is tried at
      `e - 1`, then at `e - 2`, and so on down to `a`. */
  function NewlineBacktrack(text: string, a: nat, e: nat): (r: Option<Capture>)
    requires a <= e <= |text|
    ensures r.Some? ==> a < r.value.start <= e && text[r.value.start - 1] == '\n'
    ensures r.Some? ==> LazyEnd(text, r.value.start, Literal("\n```")) == Some(r.value.end)
    decreases e
  {
    if e == a then None
    else if text[e - 1] == '\n' && Group(text, e, Literal("\n```")).Some? then Group(text, e, Literal("\n```"))
    else NewlineBacktrack(text, a, e - 1)
  }

  /** ```` ```(?:html|HTML)\n([\s\S]+?)\n``` ```` at `i`. */
  function HtmlFenceAt(text: string, i: nat): (r: Option<Capture>)
    ensures r.Some? <==> (StartsAt(text, i, "```html\n") || StartsAt(text, i, "```HTML\n"))
                         && LazyEnd(text, i + 8, Literal("\n```")).Some?
    ensures r.Some? ==> r == Some(Capture(i + 8, LazyEnd(text, i + 8, Literal("\n```")).value))
  {
    if StartsAt(text, i, "```html\n") || StartsAt(text, i, "```HTML\n") then Group(text, i + 8, Literal("\n```"))
    else None
  }

  /** ```` ```\n([\s\S]+?)\n``` ```` at `i`. */
  function PlainFenceAt(text: string, i: nat): (r: Option<Capture>)
    ensures r.Some? <==> StartsAt(text, i, "```\n") && LazyEnd(text, i + 4, Literal("\n```")).Some?
    ensures r.Some? ==> r == Some(Capture(i + 4, LazyEnd(text, i + 4, Literal("\n```")).value))
  {
    if StartsAt(text, i, "```\n") then Group(text, i + 4, Literal("\n```")) else None
  }

  /** ```` ```([\s\S]+?)``` ```` at `i`. */
  function InlineFenceAt(text: string, i: nat): (r: Option<Capture>)
    ensures r.Some? <==> StartsAt(text, i, "```") && LazyEnd(text, i + 3, Literal("```")).Some?
    ensures r.Some? ==> r == Some(Capture(i + 3, LazyEnd(text, i + 3, Literal("```")).value))
  {
    if StartsAt(text, i, "```") then Group(text, i + 3, Literal("```")) else None
  }

  /** ```` ```LANG\s*\n([\s\S]+?)\n``` ```` at `i`, letters compared without case. */
  function LanguageBlockAt(text: string, i: nat, lang: string): (r: Option<Capture>)
    ensures r.Some? ==> CiStartsAt(text, i, "```" + lang)
    ensures r.Some? ==> LazyEnd(text, r.value.start, Literal("\n```")) == Some(r.value.end)
    ensures r.Some? ==> i + 3 + |lang| < r.value.start && text[r.value.start - 1] == '\n'
    ensures r.Some? ==> forall k :: i + 3 + |lang| <= k < r.value.start - 1 ==> IsSpace(text[k])
  {
    if CiStartsAt(text, i, "```" + lang) then
      var a := i + 3 + |lang|;
      NewlineBacktrack(text, a, SpaceRunEnd(text, a))
    else None
  }

  /** `===\s*NAME\s*===\n([\s\S]+?)(?=\n===|$)` at `i`, letters compared without case. */
  function SectionAt(text: string, i: nat, name: string): (r: Option<Capture>)
    ensures r.Some? ==> StartsAt(text, i, "===") && i + 3 + |name| + 4 <= r.value.start
    ensures r.Some? ==> LazyEnd(text, r.value.start, SectionEnd) == Some(r.value.end)
  {
    if StartsAt(text, i, "===") then SectionNameAt(text, SpaceRunEnd(text, i + 3), name) else None
  }

  /** The rest of the section pattern once the spaces after the opening `===` are passed. */
  function SectionNameAt(text: string, a: nat, name: string): (r: Option<Capture>)
    requires a <= |text|
    ensures r.Some? ==> a + |name| + 4 <= r.value.start
    ensures r.Some? ==> LazyEnd(text, r.value.start, SectionEnd) == Some(r.value.end)
  {
    if CiStartsAt(text, a, name) then SectionBodyAt(text, SpaceRunEnd(text, a + |name|)) else None
  }

  /** The closing `===`, the newline and the group, once the spaces after the name are passed. */
  function SectionBodyAt(text: string, b: nat): (r: Option<Capture>)
    ensures r.Some? ==> r.value.start == b + 4
    ensures r.Some? ==> LazyEnd(text, r.value.start, SectionEnd) == Some(r.value.end)
  {
    if StartsAt(text, b, "===\n") then Group(text, b + 4, SectionEnd) else None
  }

  /** The match of pattern `p` that starts at index `i`, if there is one. */
  function MatchAt(text: string, i: nat, p: Pattern): (r: Option<Capture>)
    ensures r.Some? ==> i < r.value.start < r.value.end <= |text|
  {
    match p
    case HtmlFence => HtmlFenceAt(text, i)
    case PlainFence => PlainFenceAt(text, i)
    case InlineFence => InlineFenceAt(text, i)
    case LanguageBlock(lang) => LanguageBlockAt(text, i, lang)
    case Section(name) => SectionAt(text, i, name)
  }

  function SearchFrom(text: string, i: nat, p: Pattern): (r: Option<Match>)
    ensures r.Some? ==> i <= r.value.at && MatchAt(text, r.value.at, p) == Some(r.value.group)
    ensures r.Some? ==> forall k :: i <= k < r.value.at ==> MatchAt(text, k, p).None?
    ensures r.None? ==> forall k :: i <= k ==> MatchAt(text, k, p).None?
    decreases |text| + 1 - i
  {
    if i > |text| then
      assert forall k :: i <= k ==> MatchAt(text, k, p).None?;
      None
    else
      match MatchAt(text, i, p)
      case Some(c) => Some(Match(i, c))
      case None =>
        var r := SearchFrom(text, i + 1, p);
        assert r.Some? ==> forall k :: i <= k < r.value.at ==> MatchAt(text, k, p).None?;
        r
  }

  /** `re.search(p, text)`: the match with the leftmost start. */
  function Search(text: string, p: Pattern): (r: Option<Match>)
    ensures r.Some? ==> MatchAt(text, r.value.at, p) == Some(r.value.group)
    ensures r.Some? ==> forall k: nat :: k < r.value.at ==> MatchAt(text, k, p).None?
    ensures r.None? ==> forall k: nat :: MatchAt(text, k, p).None?
  {
    var r := SearchFrom(text, 0, p);
    assert r.Some? ==> forall k: nat :: 0 <= k < r.value.at ==> MatchAt(text, k, p).None?;
    r
  }

  /** `match.group(1)`. */
  function GroupText(text: string, c: Capture): string
    requires c.start <= c.end <= |text|
  {
    text[c.start..c.end]
  }

  /** `re.search(p, text)`, and then `match.group(1)` when it matched. */
  function SearchGroup(text: string, p: Pattern): (r: Option<string>)
    ensures r.None? <==> Search(text, p).None?
    ensures r.Some? ==> Within(r.value, text)
  {
    match Search(text, p)
    case Some(m) =>
      assert StartsAt(text, m.group.start, GroupText(text, m.group));
      Some(GroupText(text, m.group))
    case None => None
  }

  /** Pattern `p` matches at none of `i`, `i + 1`, ..., `j - 1`. */
  ghost predicate NoMatchIn(text: string, i: nat, j: nat, p: Pattern) {
    forall k: nat :: i <= k < j ==> MatchAt(text, k, p).None?
  }

  /** Pattern `p` matches nowhere from `i` on. */
  ghost predicate NoMatchFrom(text: string, i: nat, p: Pattern) {
    forall k: nat :: i <= k ==> MatchAt(text, k, p).None?
  }

  lemma NoMatchJoin(text: string, i: nat, j: nat, k: nat, p: Pattern)
    requires i <= j <= k && NoMatchIn(text, i, j, p) && NoMatchIn(text, j, k, p)
    ensures NoMatchIn(text, i, k, p)
  {
  }

  /** A search that finds nothing at `i`, `i + 1`, ..., `j - 1` goes on as the search from `j`. */
  lemma {:induction false} SearchSkip(text: string, i: nat, j: nat, p: Pattern)
    requires i <= j && NoMatchIn(text, i, j, p)
    ensures SearchFrom(text, i, p) == SearchFrom(text, j, p)
    decreases j - i
  {
    if i < j {
      SearchStep(text, i, p);
      SearchSkip(text, i + 1, j, p);
    }
  }

  /** A search that finds nothing at `i` goes on as the search from `i + 1`. */
  lemma SearchStep(text: string, i: nat, p: Pattern)
    requires MatchAt(text, i, p).None?
    ensures SearchFrom(text, i, p) == SearchFrom(text, i + 1, p)
  {
  }

  /** A search from `i` finds nothing when the pattern matches nowhere from `i` on. */
  lemma {:induction false} SearchNone(text: string, i: nat, p: Pattern)
    requires NoMatchFrom(text, i, p)
    ensures SearchFrom(text, i, p).None?
    decreases |text| + 1 - i
  {
    if i <= |text| {
      SearchNone(text, i + 1, p);
    }
  }
}
