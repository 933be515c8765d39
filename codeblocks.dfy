/** `remove_code_block`: the code a model reply holds, taken from its first fenced block,
    or from the whole reply when it has none. */
module CodeBlocks {
  import opened Wrappers
  import opened PyStrings
  import opened Scanners

  /** The first lines that name a language and are dropped from an extracted block.
      The line is lowered before the comparison, so `sql-plSQL` can never be met. */
  const LanguageMarkers: seq<string> := [
    "python", "html", "css", "javascript", "json", "c", "cpp", "markdown", "latex",
    "jinja2", "typescript", "yaml", "dockerfile", "shell", "r", "sql", "sql-mssql",
    "sql-mysql", "sql-mariadb", "sql-sqlite", "sql-cassandra", "sql-plSQL", "sql-hive",
    "sql-pgsql", "sql-gql", "sql-gpsql", "sql-sparksql", "sql-esper"
  ]

  predicate IsMarkerLine(line: string) {
    Lower(Strip(line)) in LanguageMarkers
  }

  /** A language marker written with capitals never matches: the line is lowered first. */
  lemma MixedCaseMarkerUnreachable(line: string)
    ensures Lower(line) != "sql-plSQL"
  {
    if |line| == 9 {
      assert Lower(line)[6] == LowerChar(line[6]);
    }
  }

  /** Drops a first line that names a language; a block that is only that line becomes empty. */
  function DropMarkerLine(s: string): (r: string)
    ensures Within(r, s)
  {
    var (first, rest) := SplitOnce(s, '\n');
    if IsMarkerLine(first) then
      if rest.Some? then
        assert StartsAt(s, |first| + 1, rest.value);
        rest.value
      else
        assert StartsAt(s, 0, []);
        ""
    else
      assert StartsAt(s, 0, s);
      s
  }

  lemma MarkerLineDropped(first: string, body: string)
    requires '\n' !in first && IsMarkerLine(first)
    ensures DropMarkerLine(first + "\n" + body) == body
  {
    SplitOnceAt(first, '\n', body);
  }

  lemma MarkerLineKept(s: string)
    requires !IsMarkerLine(SplitOnce(s, '\n').0)
    ensures DropMarkerLine(s) == s
  {
  }

  /** `text.strip()[9:-3].strip()`: the branch for a reply that starts with "```python",
      as the source writes it. */
  function PythonFenceAsWritten(s: string): string {
    Strip(PySlice(s, 9, -3))
  }

  /** The same branch as intended: drop the opening "```python", and a closing fence when
      there is one. */
  function PythonFence(s: string): (r: string)
    requires StartsWith(s, "```python")
    ensures Within(r, s)
  {
    var body := s[9..];
    var code := if EndsWith(body, "```") then body[..|body| - 3] else body;
    assert StartsAt(s, 9, code);
    StripWithin(code);
    WithinTrans(Strip(code), code, s);
    Strip(code)
  }

  /** A reply without a fence: a document starting with a tag is kept whole, a python block
      opened but not closed loses its marker, and a first line naming a language is dropped. */
  function Unfenced(s: string, fixedPython: bool): string {
    if StartsWith(s, "<!DOCTYPE html>") || StartsWith(s, "<html") || StartsWith(s, "<") then s
    else if StartsWith(s, "```python") then
      (if fixedPython then PythonFence(s) else PythonFenceAsWritten(s))
    else DropMarkerLine(s)
  }

  /** The fence patterns are tried in order, html block, plain block, inline block; the group
      of the first one that matches is the extracted text. */
  function FenceGroup(text: string): (r: Option<string>)
    ensures r.Some? ==> Within(r.value, text)
  {
    match SearchGroup(text, HtmlFence)
    case Some(g) => Some(g)
    case None =>
      match SearchGroup(text, PlainFence)
      case Some(g) => Some(g)
      case None => SearchGroup(text, InlineFence)
  }

  function RemoveCodeBlockWith(text: string, fixedPython: bool): string {
    match FenceGroup(text)
    case Some(g) => DropMarkerLine(Strip(g))
    case None => Unfenced(Strip(text), fixedPython)
  }

  /** `remove_code_block(text)`, with the python branch corrected. */
  function RemoveCodeBlock(text: string): string {
    RemoveCodeBlockWith(text, true)
  }

  /** `remove_code_block(text)` exactly as written. */
  function RemoveCodeBlockAsWritten(text: string): string {
    RemoveCodeBlockWith(text, false)
  }

  /** Two fence markers far enough apart to hold a non-empty block between them. */
  ghost predicate TwoFences(text: string) {
    exists i: nat, j: nat :: StartsAt(text, i, "```") && StartsAt(text, j, "```") && i + 4 <= j
  }

  /** Two fence markers with a character between them make the inline pattern match. */
  lemma FencePairMatches(text: string, i: nat, j: nat)
    requires StartsAt(text, i, "```") && StartsAt(text, j, "```") && i + 4 <= j
    ensures InlineFenceAt(text, i).Some?
  {
    assert EndsAt(text, j, Literal("```"));
  }

  /** A block that ends with a newline and a fence holds a fence marker right after that newline. */
  lemma ClosingFenceMarker(text: string, e: nat)
    requires StartsAt(text, e, "\n```")
    ensures StartsAt(text, e + 1, "```")
  {
    assert text[e + 1..e + 4] == text[e..e + 4][1..];
  }

  /** A match of any of the fence patterns holds two fence markers. */
  lemma FenceMatchHasPair(text: string, i: nat)
    requires HtmlFenceAt(text, i).Some? || PlainFenceAt(text, i).Some? || InlineFenceAt(text, i).Some?
    ensures TwoFences(text)
  {
    if HtmlFenceAt(text, i).Some? {
      var e := HtmlFenceAt(text, i).value.end;
      assert text[i..i + 3] == text[i..i + 8][..3];
      ClosingFenceMarker(text, e);
      assert StartsAt(text, i, "```") && StartsAt(text, e + 1, "```");
    } else if PlainFenceAt(text, i).Some? {
      var e := PlainFenceAt(text, i).value.end;
      assert text[i..i + 3] == text[i..i + 4][..3];
      ClosingFenceMarker(text, e);
      assert StartsAt(text, i, "```") && StartsAt(text, e + 1, "```");
    } else {
      var e := InlineFenceAt(text, i).value.end;
      assert StartsAt(text, i, "```") && StartsAt(text, e, "```");
    }
  }

  /** One of the fence patterns matches exactly when the reply holds two fence markers with
      at least one character between them. */
  lemma FenceFoundIff(text: string)
    ensures FenceGroup(text).Some? <==> TwoFences(text)
  {
    if TwoFences(text) {
      var i: nat, j: nat :| StartsAt(text, i, "```") && StartsAt(text, j, "```") && i + 4 <= j;
      FencePairMatches(text, i, j);
      assert MatchAt(text, i, InlineFence).Some?;
    }
    if Search(text, HtmlFence).Some? {
      FenceMatchHasPair(text, Search(text, HtmlFence).value.at);
    } else if Search(text, PlainFence).Some? {
      FenceMatchHasPair(text, Search(text, PlainFence).value.at);
    } else if Search(text, InlineFence).Some? {
      FenceMatchHasPair(text, Search(text, InlineFence).value.at);
    }
  }

  /** The fence patterns are tried in order: the html block, then the plain block, then the
      inline block, each winning over the later ones wherever it occurs; the language line
      is dropped from the stripped group of the winner. */
  lemma FencedCases(text: string, fixedPython: bool)
    ensures SearchGroup(text, HtmlFence).Some? ==>
              RemoveCodeBlockWith(text, fixedPython) == DropMarkerLine(Strip(SearchGroup(text, HtmlFence).value))
    ensures SearchGroup(text, HtmlFence).None? && SearchGroup(text, PlainFence).Some? ==>
              RemoveCodeBlockWith(text, fixedPython) == DropMarkerLine(Strip(SearchGroup(text, PlainFence).value))
    ensures SearchGroup(text, HtmlFence).None? && SearchGroup(text, PlainFence).None? &&
            SearchGroup(text, InlineFence).Some? ==>
              RemoveCodeBlockWith(text, fixedPython) == DropMarkerLine(Strip(SearchGroup(text, InlineFence).value))
  {
  }

  /** A reply without two fence markers is kept whole, stripped, when it starts with a tag
      (which covers "<!DOCTYPE html>" and "<html"); one that starts with neither a tag nor
      "```python" loses its language line. The python branch in between is stated by the
      lemmas below. */
  lemma UnfencedCases(text: string, fixedPython: bool)
    requires !TwoFences(text)
    ensures StartsWith(Strip(text), "<") ==> RemoveCodeBlockWith(text, fixedPython) == Strip(text)
    ensures !StartsWith(Strip(text), "<") && !StartsWith(Strip(text), "```python") ==>
              RemoveCodeBlockWith(text, fixedPython) == DropMarkerLine(Strip(text))
  {
    FenceFoundIff(text);
    UnfencedBranch(text, fixedPython);
    UnfencedTag(Strip(text), fixedPython);
  }

  lemma UnfencedBranch(text: string, fixedPython: bool)
    requires FenceGroup(text).None?
    ensures RemoveCodeBlockWith(text, fixedPython) == Unfenced(Strip(text), fixedPython)
  {
  }

  lemma UnfencedTag(s: string, fixedPython: bool)
    ensures StartsWith(s, "<") ==> Unfenced(s, fixedPython) == s
    ensures !StartsWith(s, "<") && !StartsWith(s, "```python") ==> Unfenced(s, fixedPython) == DropMarkerLine(s)
  {
    StartsWithHead(s, "<!DOCTYPE html>");
    StartsWithHead(s, "<html");
    StartsAtChar(s, 0, '<');
  }

  /** The source and the corrected function differ only on the python branch: with a fence,
      or without one on a reply that does not start with "```python", they agree. */
  lemma AsWrittenAgrees(text: string)
    requires TwoFences(text) || !StartsWith(Strip(text), "```python")
    ensures RemoveCodeBlockAsWritten(text) == RemoveCodeBlock(text)
  {
    FenceFoundIff(text);
    if FenceGroup(text).None? {
      UnfencedBranch(text, true);
      UnfencedBranch(text, false);
    }
  }

  /** A block that is only a language line becomes empty. */
  lemma MarkerLineOnly(line: string)
    requires '\n' !in line && IsMarkerLine(line)
    ensures DropMarkerLine(line) == ""
  {
  }

  /** Whatever the reply, the code handed back is a piece of it, with the python branch as
      written or corrected. */
  lemma RemoveCodeBlockWithin(text: string, fixedPython: bool)
    ensures Within(RemoveCodeBlockWith(text, fixedPython), text)
  {
    match FenceGroup(text)
    case Some(g) =>
      StripWithin(g);
      WithinTrans(Strip(g), g, text);
      WithinTrans(DropMarkerLine(Strip(g)), Strip(g), text);
    case None =>
      var s := Strip(text);
      StripWithin(text);
      if StartsWith(s, "<!DOCTYPE html>") || StartsWith(s, "<html") || StartsWith(s, "<") {
      } else if StartsWith(s, "```python") {
        if fixedPython {
          WithinTrans(PythonFence(s), s, text);
        } else {
          PySliceWithin(s, 9, -3);
          StripWithin(PySlice(s, 9, -3));
          WithinTrans(PythonFenceAsWritten(s), PySlice(s, 9, -3), s);
          WithinTrans(PythonFenceAsWritten(s), s, text);
        }
      } else {
        WithinTrans(DropMarkerLine(s), s, text);
      }
  }

  /** The python branch only runs on a reply with no closing fence, so the three characters
      `[9:-3]` cuts off are always code. */
  lemma PythonBranchUnclosed(text: string)
    requires !TwoFences(text)
    requires StartsWith(Strip(text), "```python")
    ensures !EndsWith(Strip(text), "```")
  {
    var s := Strip(text);
    var a := LeadingSpaces(text);
    StripSlice(text);
    assert s[..3] == s[..9][..3];
    assert text[a..a + 3] == s[..3];
    assert StartsAt(text, a, "```");
    assert StartsAt(text, a, s);
    SuffixWithin(text, a, s, "```");
  }

  /** Without a fence, a reply starting with "```python" goes to the python branch. */
  lemma PythonBranchTaken(text: string, fixedPython: bool)
    requires FenceGroup(text).None?
    requires StartsWith(Strip(text), "```python")
    ensures RemoveCodeBlockWith(text, fixedPython)
            == if fixedPython then PythonFence(Strip(text)) else PythonFenceAsWritten(Strip(text))
  {
    var s := Strip(text);
    StartsWithHead(s, "```python");
    StartsWithHead(s, "<!DOCTYPE html>");
    StartsWithHead(s, "<html");
    StartsWithHead(s, "<");
  }

  /** Without a closing fence the corrected branch keeps everything after the marker. */
  lemma PythonBranchKeepsCode(text: string)
    requires !TwoFences(text)
    requires StartsWith(Strip(text), "```python")
    ensures RemoveCodeBlock(text) == Strip(Strip(text)[9..])
  {
    var s := Strip(text);
    FenceFoundIff(text);
    PythonBranchUnclosed(text);
    EndsWithOfSuffix(s, 9, "```");
    assert PythonFence(s) == Strip(s[9..]);
    PythonBranchTaken(text, true);
  }

  /** A python block that was opened and never closed holds a single fence marker. */
  lemma OpenPythonBlockUnfenced(code: string)
    requires '`' !in code
    ensures !TwoFences("```python\n" + code)
  {
    var text := "```python\n" + code;
    assert text[3..10] == "python\n";
    forall j: nat | 3 <= j ensures !StartsAt(text, j, "```") {
      if j + 3 <= |text| {
        assert text[j..j + 3][0] == text[j];
        if j < 10 {
          assert text[j] == text[3..10][j - 3];
        } else {
          assert text[j] == code[j - 10];
        }
      }
    }
  }

  /** An opened python block without a fence goes to the python branch. */
  lemma OpenPythonBlock(code: string)
    requires code != [] && IsStripped(code) && '`' !in code
    ensures var text := "```python\n" + code;
      !TwoFences(text) && FenceGroup(text).None? && Strip(text) == text && StartsWith(text, "```python")
  {
    var text := "```python\n" + code;
    assert text[..9] == "```python";
    assert text[0] == '`' && text[|text| - 1] == code[|code| - 1];
    StripOfStripped(text);
    OpenPythonBlockUnfenced(code);
    FenceFoundIff(text);
  }

  /** After the "```python" marker of an open block come a newline and the code. */
  lemma OpenPythonCode(code: string)
    requires IsStripped(code)
    ensures Strip(("```python\n" + code)[9..]) == code
  {
    var text := "```python\n" + code;
    assert text[9..] == "\n" + code + [];
    StripPadded("\n", code, []);
  }

  /** A python block that was opened and never closed: the corrected branch hands back all
      of its code. */
  lemma PythonFenceKeepsCode(code: string)
    requires code != [] && IsStripped(code) && '`' !in code
    ensures RemoveCodeBlock("```python\n" + code) == code
  {
    var text := "```python\n" + code;
    OpenPythonBlock(code);
    OpenPythonCode(code);
    PythonBranchKeepsCode(text);
  }

  /** The same block as the source handles it: the last three characters of the code are cut
      off as if they were a closing fence, so less code comes back than the block holds. */
  lemma PythonFenceLosesCode(code: string)
    requires code != [] && IsStripped(code) && '`' !in code
    ensures var text := "```python\n" + code;
      RemoveCodeBlockAsWritten(text) == Strip(PySlice(text, 9, -3))
    ensures |RemoveCodeBlockAsWritten("```python\n" + code)| < |code|
  {
    var text := "```python\n" + code;
    OpenPythonBlock(code);
    PythonBranchTaken(text, false);
    assert |PySlice(text, 9, -3)| < |code|;
  }

  /** The input "```python\nprint(1)" comes back from the source as "print". */
  lemma PythonFenceCutsPrint(code: string)
    requires code == "print(1)"
    ensures RemoveCodeBlockAsWritten("```python\n" + code) == "print"
  {
    assert code[0] == 'p' && code[7] == ')';
    assert '`' !in code;
    PythonFenceLosesCode(code);
    PrintSliced(code);
  }

  lemma PrintSliced(code: string)
    requires code == "print(1)"
    ensures Strip(PySlice("```python\n" + code, 9, -3)) == "print"
  {
    var text := "```python\n" + code;
    assert text[9..15] == "\nprint";
    assert PySlice(text, 9, -3) == "\n" + "print" + [];
    StripPadded("\n", "print", []);
  }

  /** Inside code without a fence marker no closing fence starts. */
  lemma NoClosingFenceInside(open: string, code: string, j: nat)
    requires !Contains(code, "```") && |open| < j < |open| + |code|
    ensures !StartsAt(open + code + "\n```", j, "\n```")
  {
    var text := open + code + "\n```";
    var e := |open| + |code|;
    ContainsIff(code, "```");
    if j + 4 <= e {
      assert text[j + 1..j + 4] == code[j + 1 - |open|..j + 4 - |open|];
      assert !StartsAt(code, j + 1 - |open|, "```");
      assert text[j + 1..j + 4] == text[j..j + 4][1..];
    } else {
      assert text[e] == '\n';
      assert text[j..j + 4][e - j] == text[e];
    }
  }

  /** In a fenced block whose code holds no fence marker, the first closing fence after the
      opening one is the one right after the code. */
  lemma ClosingFenceFollowsCode(open: string, code: string)
    requires code != [] && !Contains(code, "```")
    ensures LazyEnd(open + code + "\n```", |open|, Literal("\n```")) == Some(|open| + |code|)
  {
    var text := open + code + "\n```";
    var e := |open| + |code|;
    assert text[e..e + 4] == "\n```";
    assert EndsAt(text, e, Literal("\n```"));
    forall j | |open| < j < e ensures !EndsAt(text, j, Literal("\n```")) {
      NoClosingFenceInside(open, code, j);
    }
  }

  /** "```html\n" + code + "\n```" matches the first fence pattern, with the code as its group. */
  lemma HtmlFenceFound(code: string)
    requires code != [] && !Contains(code, "```")
    ensures FenceGroup("```html\n" + code + "\n```") == Some(code)
  {
    var text := "```html\n" + code + "\n```";
    assert MatchAt(text, 0, HtmlFence) == Some(Capture(8, 8 + |code|)) by {
      assert text[..8] == "```html\n";
      ClosingFenceFollowsCode("```html\n", code);
    }
    var m := Search(text, HtmlFence).value;
    assert m.at == 0;
    assert text[8..8 + |code|] == code;
  }

  /** The inverse direction for a single HTML block: fencing stripped code as "```html" and
      removing the fence gives the code back. */
  lemma HtmlFenceRoundTrip(code: string, fixedPython: bool)
    requires code != [] && IsStripped(code) && !Contains(code, "```")
    requires !IsMarkerLine(SplitOnce(code, '\n').0)
    ensures RemoveCodeBlockWith("```html\n" + code + "\n```", fixedPython) == code
  {
    HtmlFenceFound(code);
    StripOfStripped(code);
    MarkerLineKept(code);
  }
}
