/** `process_code_output`: what the code panel shows for a reply of each output type. */
module Output {
  import opened Wrappers
  import opened Sections
  import opened CodeBlocks
  import opened MultiFile
  import opened PyStrings

  /** What the panel shows for a Transformers.js reply: the three files parsed from it, laid
      out as sections. */
  function TransformersJsDisplay(text: string): string {
    Layout(Keys(TransformersJsFiles), ValuesOf(ParseFiles(text, TransformersJsFiles), Keys(TransformersJsFiles)))
  }

  /** What the panel shows for a Svelte reply. */
  function SvelteDisplay(text: string): string {
    Layout(Keys(SvelteFiles), ValuesOf(ParseFiles(text, SvelteFiles), Keys(SvelteFiles)))
  }

  /** The processed reply: the code block for "HTML" and any type not listed, extracted by
      `remove_code_block` as the source writes it, and the parsed and re-formatted files for
      "Transformers.js" and "Svelte". The formatter cannot fail here, because the parser
      always returns every file name. */
  method ProcessCodeOutput(codeOutput: string, outputType: string) returns (result: string)
    ensures outputType == "HTML" ==> result == RemoveCodeBlockAsWritten(codeOutput)
    ensures outputType == "Transformers.js" ==> result == TransformersJsDisplay(codeOutput)
    ensures outputType == "Svelte" ==> result == SvelteDisplay(codeOutput)
    ensures outputType != "HTML" && outputType != "Transformers.js" && outputType != "Svelte" ==>
      result == RemoveCodeBlockAsWritten(codeOutput)
  {
    if outputType == "HTML" {
      result := RemoveCodeBlockAsWritten(codeOutput);
    } else if outputType == "Transformers.js" {
      var files := ParseTransformersJs(codeOutput);
      TransformersJsParsedNames(codeOutput);
      var formatted := FormatTransformersJs(files);
      result := formatted.value;
    } else if outputType == "Svelte" {
      var files := ParseSvelte(codeOutput);
      result := FormatSvelte(files);
    } else {
      result := RemoveCodeBlockAsWritten(codeOutput);
    }
  }

  /** The code block shown for "HTML" is a piece of the reply, and it is the one the
      corrected extraction gives unless the reply opens a python block it never closes. */
  lemma HtmlDisplayWithin(codeOutput: string)
    ensures Within(RemoveCodeBlockAsWritten(codeOutput), codeOutput)
    ensures TwoFences(codeOutput) || !StartsWith(Strip(codeOutput), "```python") ==>
              RemoveCodeBlockAsWritten(codeOutput) == RemoveCodeBlock(codeOutput)
  {
    RemoveCodeBlockWithin(codeOutput, false);
    if TwoFences(codeOutput) || !StartsWith(Strip(codeOutput), "```python") {
      AsWrittenAgrees(codeOutput);
    }
  }

  /** Processing the shown Transformers.js text again shows the same text, when every file
      parsed from the reply is stripped and holds neither a fence marker nor `===`. */
  lemma TransformersJsStable(text: string)
    requires forall key :: key in ParseFiles(text, TransformersJsFiles) ==> Clean(ParseFiles(text, TransformersJsFiles)[key])
    ensures TransformersJsDisplay(TransformersJsDisplay(text)) == TransformersJsDisplay(text)
  {
    var files := ParseFiles(text, TransformersJsFiles);
    TransformersJsParsedNames(text);
    TransformersJsRoundTrip(files);
  }

  /** The same for the Svelte text. */
  lemma SvelteStable(text: string)
    requires forall key :: key in ParseFiles(text, SvelteFiles) ==> Clean(ParseFiles(text, SvelteFiles)[key])
    ensures SvelteDisplay(SvelteDisplay(text)) == SvelteDisplay(text)
  {
    var files := ParseFiles(text, SvelteFiles);
    SvelteParsedNames(text);
    SvelteRoundTrip(files);
  }
}
