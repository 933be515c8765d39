# Lokal-ollama-coder: the text-processing core, in Dafny

Lokal-ollama-coder is a local code-generation front end for Ollama models. A model reply
goes through a text-processing layer before it reaches the UI. This project models that
layer and proves what it does:

- **Code-block extraction.** `remove_code_block` takes the code out of the first fenced
  block of a reply, with the fence kinds tried in a fixed order. It drops a leading
  language line. A reply without a fence goes to three fallbacks.
- **Multi-file replies.** The Transformers.js and Svelte parsers fill a fixed set of files.
  Each file first comes from the first code block in its language. The `=== name ===`
  sections then win once any file is still empty. The formatters lay the files out in
  exactly the section form the parsers accept. `process_code_output` picks the treatment
  by output type, and calls `remove_code_block` as the source writes it, python branch
  included (see "## Findings").
- **Chat-history converters.** History turns become model messages and back, and history
  items become chatbot messages. Multimodal user content is flattened to its text parts.
- **Model selection.** Three rules pick a model:
  - the default model is chosen by a priority list;
  - the installed models are merged into the predefined dropdown catalog;
  - the RAG connection test picks the configured model, else the first preferred one.

  The preferred-model setting is a comma-separated list.
- **The RAG helpers.** These are:
  - the connection test's name normalisation and messages;
  - the recovery of the chosen model from the success message;
  - the normalisation of uploaded file paths;
  - the typing effect, which grows the assistant message one character per frame.

Two copies of this code exist: `mit_rag/main.py` (newer) and the root `main.py` (older,
truncated at line 669). Where the two hold the same code up to quoting and layout, the same
members model both. The table cites the newer copy. The older copies are:

- `get_gradio_language`, at main.py:28-33;
- `history_to_messages`, at main.py:513-528;
- `messages_to_history`, at main.py:530-544;
- `remove_code_block`, at main.py:562-587;
- `parse_transformers_js_output`, at main.py:589-630;
- `format_transformers_js_output`, at main.py:632-641.

Module `Legacy` models the two operations that differ in the older file:
`update_available_models` and `history_to_chatbot_messages`.

Everything the code fetches is passed in as a parameter instead of being fetched. That means:

- the installed model names;
- the server's reply to `GET /api/tags` (or the text of the exception);
- the environment values;
- the uploads;
- the answer of the retrieval chain (or the text of the exception it raised).

Python values are a `PyValue` datatype, and raised exceptions are the `Failure` side of a
`Result`. Each regular expression of the source is a hand-written scanner for that one
pattern (module `Scanners`):

- a search gives the match with the leftmost start;
- a lazy `([\s\S]+?)` takes the shortest non-empty group that the rest of the pattern
  accepts;
- `re.IGNORECASE` compares ASCII letters without case.

Modules: `Wrappers`, `PyStrings` (the `str` methods used), `PyValues`, `Scanners`,
`Sections` (where the section pattern matches in formatted text), `CodeBlocks`, `MultiFile`,
`Output`, `History`, `Catalog`, `Legacy`, `Languages`, `Config`, `Rag`.

## Model

| member | source | states |
|---|---|---|
| Languages.GradioLanguage | mit_rag/main.py:26-60 | the result is always a supported language (None included); a supported language is kept, any other becomes None |
| Languages.GradioLanguageIdempotent | mit_rag/main.py:59-60 | applying the check twice gives the result of applying it once |
| Catalog.FirstPresentSpec | mit_rag/main.py:556-558 | the preference search fails exactly when no preferred name is present; otherwise it gives the first preferred name that is present |
| Catalog.DefaultModelIdSpec | mit_rag/main.py:543-560 | the default is None exactly when nothing is installed; it is always an installed model; it is the first installed one of the priority list when there is one, else the first installed model |
| Catalog.Kept | mit_rag/main.py:576 | the catalog filter keeps exactly the entries whose id is installed, and never grows the list |
| Catalog.KeptOne | mit_rag/main.py:576 | one entry survives the filter exactly when its id is installed |
| Catalog.KeptConcat | mit_rag/main.py:576 | the filter keeps catalog order and repeated entries: the survivors of `a + b` are those of `a` followed by those of `b` |
| Catalog.IdsMembership | mit_rag/main.py:595 | a name is in the id list exactly when some entry carries that id |
| Catalog.MissingSpec | mit_rag/main.py:596-608 | every appended entry is built from an installed name that was not yet among the ids; every such name gets an entry |
| Catalog.AppendMissing | mit_rag/main.py:596-608 | the append loop adds, after the given entries, exactly the entries of `Missing` in installed order |
| Catalog.MergedCoversInstalled | mit_rag/main.py:576-608 | after a merge the surviving catalog entries come first and in order; every entry is for an installed model; every installed model has an entry; every added entry is built from its name (":" to a space, title-cased, the vision flag from "llava" or "vision"), and no added entry repeats a surviving one (a name installed twice is added twice, as `installed_ids` is computed once) |
| Catalog.MergedDefaultInstalled | mit_rag/main.py:615-624 | after a non-empty update the default is an installed model: the configured one when it is installed, otherwise `get_default_model_id`'s pick (a configured default that is not installed is cleared) |
| Catalog.ModelCatalog.constructor | mit_rag/main.py:352-411 | the state before the start-up update: the predefined catalog and the environment's default model |
| Catalog.ModelCatalog.UpdateAvailableModels | mit_rag/main.py:564-629 | an empty installed list changes nothing; otherwise the catalog becomes `Merged` and the default `MergedDefault` of the old state |
| Legacy.LegacyMergedPrefix | main.py:476-492 | the older merge is a prefix of the newer one: all of it when no catalog entry is installed, otherwise just the surviving entries |
| Legacy.LegacyCatalog.constructor | main.py:324-379 | the state before the start-up update is the predefined catalog |
| Legacy.LegacyCatalog.UpdateAvailableModels | main.py:473-494 | an empty installed list changes nothing; otherwise the surviving catalog entries, or one built entry per installed name when none survive |
| Legacy.LegacyChatbotIsMessagesTail | main.py:546-560 | the older chatbot messages are the messages of `history_to_messages` without the system message, and they fail on the same histories |
| Legacy.LegacyChatbotShape | main.py:546-560 | exactly 2·\|history\| messages in turn order: the flattened user content, then the assistant content unchanged; this fails exactly when some user content cannot be flattened |
| Legacy.LegacyHistoryToChatbotMessages | main.py:546-560 | the loop builds exactly `LegacyChatbotOf(history)` and stops at the first error |
| History.ThenAssoc | mit_rag/main.py:657-660 | running three steps in sequence groups either way: the first error wins, otherwise the outputs concatenate |
| History.TextOfConcat | mit_rag/main.py:657-660 | flattening distributes over concatenation of the part list, and an error in the first half comes first |
| History.TextOfOne | mit_rag/main.py:658-660 | one part adds its `text` when it is a dict of type "text" ("" without a `text`), nothing otherwise |
| History.TextOfNonText | mit_rag/main.py:658-660 | parts that are not text dicts add nothing |
| History.FlattenText | mit_rag/main.py:657-660 | the accumulation loop computes `TextOf` |
| History.UserContentOfList | mit_rag/main.py:655-661 | a list that flattens becomes a non-empty string: its text, or `str(list)` when the text is empty |
| History.UserContentIdempotent | mit_rag/main.py:655-661 | flattened content is never a list, so flattening it again changes nothing |
| History.FlattenContent | mit_rag/main.py:654-661 | the shared loop body computes `UserContent` |
| History.MessagesOfShape | mit_rag/main.py:650-665 | the conversion succeeds exactly when every user content flattens; then it gives 1+2·\|history\| messages, the system message first, then the roles alternate user/assistant with the flattened user content and the assistant content verbatim |
| History.HistoryToMessages | mit_rag/main.py:650-665 | the loop computes `MessagesOf` |
| History.MessagesFailureExtends | mit_rag/main.py:652-661 | once a prefix fails to convert, the whole history fails with that error |
| History.MessagesToHistory | mit_rag/main.py:668-682 | the loop computes `HistoryOf`: an empty list raises `IndexError`, a first message that is not the system one fails the assertion, otherwise the messages after the first are paired two by two |
| History.TrailingMessageDropped | mit_rag/main.py:671 | a trailing message without a partner is dropped by the zip |
| History.PairsOfPrefix | mit_rag/main.py:671 | the pairs depend only on the messages they cover |
| History.PairsOfMessages | mit_rag/main.py:668-682 | converting messages back pairs up exactly the history's turns, user content flattened and assistant content verbatim |
| History.RoundTripFlattens | mit_rag/main.py:650-682 | whenever a history converts, converting the messages back gives the history with flattened user contents |
| History.RoundTrip | mit_rag/main.py:650-682 | for user contents that are not lists, `messages_to_history(history_to_messages(h, s)) == h` |
| History.ChatbotConcat | mit_rag/main.py:685-729 | the chatbot conversion keeps the history order: the messages of `a + b` are those of `a`, then those of `b`; an error in `a` comes first |
| History.ChatbotOne | mit_rag/main.py:690-726 | a single item converts to its own messages |
| History.ItemMessagesCases | mit_rag/main.py:693-726 | a dict with `role` and `content` passes through unchanged; a list or tuple of two or more plain values gives a user and an assistant message, with None as "" and other values through `str`; any other item is skipped |
| History.ChatTextOfList | mit_rag/main.py:704-710 | the chatbot text of a list is the text its flattening gives |
| History.NormaliseText | mit_rag/main.py:704-722 | the normalisation computes `ChatText` |
| History.HistoryToChatbotMessages | mit_rag/main.py:685-729 | the loop computes `ChatbotMessagesOf` |
| History.ChatbotFailureExtends | mit_rag/main.py:690-726 | once a prefix fails to convert, the whole history fails with that error |
| CodeBlocks.FenceGroup | mit_rag/main.py:734-742 | the extracted group is a piece of the reply |
| CodeBlocks.FencedCases | mit_rag/main.py:734-775 | the html block wins wherever it occurs, then the plain block, then the inline block; the winner's group is stripped and loses a leading language line |
| CodeBlocks.FenceFoundIff | mit_rag/main.py:734-741 | some fence pattern matches exactly when the reply holds two fence markers with a character between them |
| CodeBlocks.FencePairMatches | mit_rag/main.py:737 | two fence markers with a character between them make the inline pattern match |
| CodeBlocks.FenceMatchHasPair | mit_rag/main.py:735-737 | every fence match holds two fence markers |
| CodeBlocks.MixedCaseMarkerUnreachable | mit_rag/main.py:744-773 | a lowered line is never "sql-plSQL", so that list entry can never match |
| CodeBlocks.DropMarkerLine | mit_rag/main.py:744-775 | what remains after the language line is dropped is a piece of the block |
| CodeBlocks.MarkerLineDropped | mit_rag/main.py:744-774 | a first line naming a language is removed together with its newline |
| CodeBlocks.MarkerLineOnly | mit_rag/main.py:774 | a block that is only a language line becomes "" |
| CodeBlocks.MarkerLineKept | mit_rag/main.py:775 | a block whose first line names no language is kept whole |
| CodeBlocks.UnfencedCases | mit_rag/main.py:777-819 | without two fence markers: text starting with "<" is returned stripped; text starting with neither "<" nor "```python" loses its language line |
| CodeBlocks.PythonBranchTaken | mit_rag/main.py:777-785 | without a fence, a stripped reply starting with "```python" goes to the python branch |
| CodeBlocks.PythonBranchUnclosed | mit_rag/main.py:784-785 | text reaching the python branch never ends with a closing fence |
| CodeBlocks.PythonFence | mit_rag/main.py:784-785 | the corrected python branch gives a piece of its input |
| CodeBlocks.PythonBranchKeepsCode | mit_rag/main.py:784-785 | on the corrected branch, everything after the "```python" marker comes back, stripped |
| CodeBlocks.PythonFenceKeepsCode | mit_rag/main.py:784-785 | the corrected branch gives back all the code of an open python block |
| CodeBlocks.PythonFenceLosesCode | mit_rag/main.py:784-785 | as written, the branch returns less code than an open python block holds |
| CodeBlocks.PythonFenceCutsPrint | mit_rag/main.py:784-785 | as written, "```python\nprint(1)" comes back as "print" |
| CodeBlocks.RemoveCodeBlockWithin | mit_rag/main.py:732-819 | whatever the reply, the code handed back is a piece of it, with the python branch as written or corrected |
| CodeBlocks.AsWrittenAgrees | mit_rag/main.py:732-819 | the code as written and the corrected function agree on every reply with a fence, and on every reply without one that does not start with "```python" |
| CodeBlocks.HtmlFenceFound | mit_rag/main.py:735 | an html-fenced block with no fence marker inside matches the first pattern, with the code as its group |
| CodeBlocks.HtmlFenceRoundTrip | mit_rag/main.py:732-775 | fencing stripped code as "```html" and removing the fence gives the code back, with the python branch as written or corrected |
| Scanners.LazyEnd | mit_rag/main.py:735-737 | the lazy group ends at the first place after its start where the rest of the pattern matches, and the group is never empty |
| Scanners.HtmlFenceAt | mit_rag/main.py:735 | the html pattern matches at `i` exactly when "```html\n" or "```HTML\n" starts there and a closing "\n```" follows; the group is what lies between |
| Scanners.PlainFenceAt | mit_rag/main.py:736 | the same for "```\n" |
| Scanners.InlineFenceAt | mit_rag/main.py:737 | the same for "```" closed by "```" |
| Scanners.NewlineBacktrack | mit_rag/main.py:827 | `\s*\n` gives back spaces until its newline can be followed by a group and a closing fence |
| Scanners.LanguageBlockAt | mit_rag/main.py:827-829 | a language-block match starts with three backquotes and the language, without case; only spaces lie between the language and the newline that opens the group; the group ends at the first closing fence |
| Scanners.SectionAt | mit_rag/main.py:849-857 | a section match begins with `===`, and its group ends where the lookahead `\n===` or the end of the text first allows |
| Scanners.Search | mit_rag/main.py:832 | the search finds the match with the leftmost start, and fails only when the pattern matches nowhere |
| Scanners.SearchGroup | mit_rag/main.py:832-834 | the group is found exactly when the search matches, and it is a piece of the text |
| Scanners.SearchSkip | mit_rag/main.py:832 | a search from a point before any match runs on as the search from further on |
| MultiFile.ToMapOf | mit_rag/main.py:824 | a dictionary holding exactly the file names is determined by its values |
| MultiFile.Lookup | mit_rag/main.py:832-857 | a code block or a section found for a file is a piece of the reply |
| MultiFile.BlockValue | mit_rag/main.py:832-844 | the code-block pass stores a stripped value, "" when there is no block |
| MultiFile.FileValue | mit_rag/main.py:832-863 | every stored value is stripped |
| MultiFile.ParseFilesKeys | mit_rag/main.py:824 | the parser returns exactly the names of its files |
| MultiFile.ParseFilesValue | mit_rag/main.py:832-865 | each file's value comes from its block and section as `FileValue` says; it is stripped and it is "" or a piece of the reply |
| MultiFile.BlocksSuffice | mit_rag/main.py:847 | when every file has a non-empty code block, each file is its block and the sections are not consulted |
| MultiFile.SectionOverrides | mit_rag/main.py:847-863 | when some file is empty after the code blocks, a section found wins for every file, even over a non-empty block |
| MultiFile.NoSectionKeepsBlock | mit_rag/main.py:858-863 | a file without a section keeps its code-block value, and a file found neither way is "" |
| MultiFile.ThreeSteps | mit_rag/main.py:824-865 | the two passes of the three-file parser, with its in-place stores, give `Assemble`'s values |
| MultiFile.TwoSteps | mit_rag/main.py:882-913 | the same for the two-file parser |
| MultiFile.ParseTransformersJs | mit_rag/main.py:822-865 | the parser computes `ParseFiles` for index.html (html), index.js (javascript) and style.css (css) |
| MultiFile.ParseSvelte | mit_rag/main.py:880-913 | the parser computes `ParseFiles` for src/App.svelte (svelte) and src/app.css (css) |
| MultiFile.TransformersJsParsedNames | mit_rag/main.py:824 | the Transformers.js parser returns exactly its three file names |
| MultiFile.SvelteParsedNames | mit_rag/main.py:882 | the Svelte parser returns exactly its two file names |
| MultiFile.TransformersJsKeysGood | mit_rag/main.py:849-857 | the three file names contain no spaces, `=` or backquotes, and differ even without case |
| MultiFile.SvelteKeysGood | mit_rag/main.py:902-908 | the same for the two Svelte names |
| MultiFile.JoinDisplayParts | mit_rag/main.py:870-877 | joining the title/contents parts with newlines gives the section layout, files separated by a blank line |
| MultiFile.TransformersJsTitles | mit_rag/main.py:871-875 | the three titles are "=== index.html ===", "\n=== index.js ===" and "\n=== style.css ===" |
| MultiFile.SvelteTitles | mit_rag/main.py:919-921 | the two titles are "=== src/App.svelte ===" and "\n=== src/app.css ===" |
| MultiFile.FormatTransformersJs | mit_rag/main.py:868-877 | the display text is the section layout of the three files; a missing file raises `KeyError`, naming the first one missing |
| MultiFile.FormatSvelte | mit_rag/main.py:916-923 | the display text is the section layout of the two files, a missing file shown as "" |
| MultiFile.ParseOfLayout | mit_rag/main.py:846-877 | laying clean files out and parsing the display text gives the files back |
| MultiFile.FormatThenParse | mit_rag/main.py:846-877 | a dictionary of clean files under well-formed names, laid out and parsed, comes back unchanged |
| MultiFile.TransformersJsRoundTrip | mit_rag/main.py:822-877 | `parse_transformers_js_output(format_transformers_js_output(f)) == f` when every value is stripped and holds neither "```" nor "===" |
| MultiFile.SvelteRoundTrip | mit_rag/main.py:880-923 | `parse_svelte_output(format_svelte_output(f)) == f` under the same conditions |
| Sections.LayoutLaidOut | mit_rag/main.py:868-877 | the formatted text is block after block: header line, contents, blank line |
| Sections.SectionInLayout | mit_rag/main.py:849-863 | in formatted text, the section search for a file's name skips the earlier blocks and yields that file's contents |
| Sections.OwnGroup | mit_rag/main.py:849-851 | at its own header, the section pattern captures exactly the file's contents, up to the blank line or the end |
| Sections.LayoutNoFence | mit_rag/main.py:868-877 | formatted text of fence-free files holds no fence marker |
| Sections.NoLanguageBlock | mit_rag/main.py:827-829 | text without a fence marker holds no code block, so the parser falls back to the sections |
| Output.ProcessCodeOutput | mit_rag/main.py:998-1015 | "HTML" and any unlisted type give `remove_code_block` as written; "Transformers.js" and "Svelte" give the parsed files laid out again; the formatter cannot fail here |
| Output.HtmlDisplayWithin | mit_rag/main.py:1003-1004 | the code shown for "HTML" is a piece of the reply, and equals the corrected extraction unless the reply opens a python block it never closes |
| Output.TransformersJsStable | mit_rag/main.py:998-1015 | processing the shown Transformers.js text again shows the same text, when the parsed files are clean |
| Output.SvelteStable | mit_rag/main.py:998-1015 | the same for Svelte |
| Config.NonBlankStripped | mit_rag/scr/config.py:20 | it keeps exactly the stripped pieces that are not blank; each is non-empty and stripped |
| Config.NonBlankStrippedOne | mit_rag/scr/config.py:20 | one piece gives its stripped text, or nothing when blank |
| Config.NonBlankStrippedConcat | mit_rag/scr/config.py:20 | the filter keeps the pieces' order and repeats: the names of `a + b` are those of `a` followed by those of `b` |
| Config.PreferredModels | mit_rag/scr/config.py:20 | the preferred models contain no empty string, every one equals its own `strip()`, and they are exactly the non-blank stripped comma-separated pieces |
| Config.PreferredModelsConcat | mit_rag/scr/config.py:20 | the names keep the order of the text: those before a comma come before those after it |
| Config.PreferredModelsOne | mit_rag/scr/config.py:20 | a comma-free piece gives its stripped name, or nothing when blank |
| Config.PreferredModelsOfJoin | mit_rag/scr/config.py:20 | parsing recovers any list of stripped, non-empty, comma-free names written out with commas |
| Config.Defaults | mit_rag/scr/config.py:9-20 | with no environment overrides the model is "gpt-oss:20b" and the preferences are the five defaults, in order |
| Rag.NormaliseModelNames | mit_rag/scr/rag.py:14-19 | one name per server entry, in order: a dict's truthy `name`, else its truthy `id`, else ""; any other entry through `str` |
| Rag.SelectedSpec | mit_rag/scr/rag.py:21-29 | the configured model when the server has it; otherwise the first preferred model the server has; there is none exactly when the server has neither; any selection is a name the server listed |
| Rag.SelectModel | mit_rag/scr/rag.py:21-29 | the loop with its `break` computes `Selected` |
| Rag.TestConnection | mit_rag/scr/rag.py:6-41 | no answer gives False with "Connection failed"; a status other than 200 gives False with the status; otherwise True with "Using model: <selected>" exactly when a non-empty model is selected, else False with the list of names |
| Rag.InitializeChatbot | mit_rag/scr/rag.py:82-84 | a failed connection test raises with its message; a message without "Using model:" leaves the configured model |
| Rag.ModelToUseSplits | mit_rag/scr/rag.py:104-107 | the model used is the stripped last piece of the message split at "Using model:" |
| Rag.ModelRecovered | mit_rag/scr/rag.py:104-107 | the success message gives back the selected name whenever it is stripped and does not contain "Using model:" |
| Rag.UploadPathsConcat | mit_rag/scr/rag.py:126-134 | the paths keep the order of the uploads |
| Rag.UploadPathsCount | mit_rag/scr/rag.py:126-134 | one path per upload that is not None |
| Rag.ProcessAndInitialize | mit_rag/scr/rag.py:119-134 | None or an empty list asks for a file; otherwise the paths in order, with None skipped, strings kept and objects giving their `name`, else their `str` |
| Rag.TypingEffect | mit_rag/scr/rag.py:143-156 | on an answer `a`, one user and one assistant message are appended (to the given non-empty log in place, else to a fresh one); there are \|a\| frames and frame k ends with `a[:k+1]`; on an exception, one error message is appended and yielded once |
| PyStrings.Strip | mit_rag/main.py:742 | `strip()` gives a piece of its input with no space at either end |
| PyStrings.StripPadded | mit_rag/main.py:742 | `strip()` removes exactly the spaces around a stripped string |
| PyStrings.Split | mit_rag/scr/config.py:20 | the pieces joined with the separator give the text back, and no piece contains the separator |
| PyStrings.SplitJoin | mit_rag/scr/config.py:20 | splitting the join of separator-free pieces gives the pieces back |
| PyStrings.SplitConcat | mit_rag/scr/config.py:20 | splitting `a`, a separator and `b` gives the pieces of `a` followed by the pieces of `b` |
| PyStrings.LastPieceOfSplit | mit_rag/scr/rag.py:107 | the text after the last separator is the last piece of the split |
| PyStrings.SplitOnce | mit_rag/main.py:744 | `split("\n", 1)` gives the text before the first newline and, when there is one, the text after it |
| PyStrings.Lower | mit_rag/main.py:583 | `lower()` lowers each character and keeps the length |
| PyStrings.CiStartsAtChars | mit_rag/main.py:832 | `re.IGNORECASE` compares each letter without case |
| PyStrings.ClampIndex | mit_rag/main.py:785 | a slice bound is counted from the end when negative, then clamped to the text: past the end gives the length, before the start gives 0 |
| PyStrings.PySliceWithin | mit_rag/main.py:785 | a slice is a piece of the text it is taken from |
| PyStrings.ReplaceChar | mit_rag/main.py:587 | `replace(":", " ")` changes just those characters |
| PyValues.Get | mit_rag/scr/rag.py:17 | `d.get(key)` finds a value exactly when the key is present, and the value found is the one stored under the key |
| PyValues.ReprOfListBracketed | mit_rag/main.py:661 | `str(list)` is never empty: it is bracketed |

## Left out

- The Gradio interface and its event wiring (`create_interface` and the handlers): declarative UI bound to a framework.
- Network and process I/O: the Ollama client calls, `requests.get`, the `ollama list` fallback in `get_available_ollama_models`, Tavily web search, and `chat_with_model`. Their results are parameters.
- `get_available_ollama_models` itself: it only fetches. The installed names it would return are the parameter of `UpdateAvailableModels`.
- OCR and image handling (pytesseract, PIL): foreign libraries.
- The RAG framework calls: `load_doc`, `create_db`, the langchain memory, the LLM and the retrieval chain. `InitializeChatbot` models only the connection check and the choice of model. `ProcessAndInitialize` stops at the path list handed to the loader, so its "Database created!" and "Processing error" results are not modelled.
- `time.sleep` in the typing loop: only the frames it yields are modelled.
- The printing in `update_available_models`, `history_to_chatbot_messages` and `process_code_output`: it affects nothing they return. The broad `except` in `update_available_models` is left out too; nothing in the modelled part raises.
- `load_dotenv` and the `.env` file: the environment values are parameters. `OLLAMA_HOST` and `EMBEDDING_MODEL` are read only by network and framework code.
- The system-prompt constants and the SEARCH/REPLACE marker constants: data, with no applier in the source.
- Root `main.py` past line 669: the file ends inside `parse_svelte_output`. The older Svelte parser and everything after it are not modelled.
- Rag.TestConnection: the reply is either an exception text or a status with a `models` list. A JSON body without `models` is the empty list. A `models` value that is not a list, and the exact text Python gives `str(e)`, are not modelled.
- Rag.TypingEffect: each frame is a snapshot of the history when it is yielded. The source yields the same list object every time, so a consumer that keeps the frames would see only the final state. The chain's answer is taken to be a string.
- Rag.ChatLog: only the `messages` list is modelled. Each message is a value, not a shared dict.
- Legacy.LegacyHistoryToChatbotMessages: history items are pairs by type. The `ValueError` the older code raises on an item of another length is not modelled.
- History.MessagesToHistory: messages are role/content records. The `KeyError` on a message without `role` or `content` is not modelled.
- PyValues.Repr: `repr` is written out for ASCII text. Non-ASCII characters are copied as they are, with no `\u` escapes.
- PyStrings.Lower: `lower()`, `title()` and `re.IGNORECASE` fold ASCII letters only.
- Catalog.DefaultModelId and Catalog.Missing have no `ensures` of their own. Their properties are stated by `DefaultModelIdSpec` and `MissingSpec`.
- Catalog.ModelEntry: entries are records with the four keys. The `get("id")` on an entry without an `id` is not modelled.

## Findings

| source | as written | input that shows it | evidently intended | confidence | as-written member | corrected member |
|---|---|---|---|---|---|---|
| mit_rag/main.py:784-785 (also main.py:581-582) | a reply without a fence that starts with "```python" is cut to `text.strip()[9:-3].strip()`. The branch is reached only when there is no closing fence, so the last three characters cut off are always code. | "```python\nprint(1)" gives "print" | drop the "```python" marker, and a closing fence only when one is there | not executed | CodeBlocks.RemoveCodeBlockAsWritten (shown by CodeBlocks.PythonFenceCutsPrint and CodeBlocks.PythonFenceLosesCode) | CodeBlocks.RemoveCodeBlock (proved by CodeBlocks.PythonFenceKeepsCode and CodeBlocks.PythonBranchKeepsCode) |
