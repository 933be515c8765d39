/** The document question-answering helpers: the Ollama connection test and its choice of
    model, the recovery of that choice when the chain is built, the normalisation of the
    uploaded files, and the typing effect that streams an answer into the chat. The model
    server's reply, the uploaded files and the chain's answer are passed in. */
module Rag {
  import opened Wrappers
  import opened PyStrings
  import opened PyValues
  import opened Catalog
  import opened History

  // ---------------------------------------------------------------------------------------
  // test_ollama_connection

  /** What `GET /api/tags` gave: no answer (the text of the exception), or a status code and
      the `models` list of the JSON body. */
  datatype TagsReply = Unreachable(error: string) | Reply(status: int, models: seq<PyValue>)

  /** The name shown for one entry of the server's model list: a dict's `name`, else its
      `id`, else "" (each taken only when truthy); any other entry as `str(entry)`. */
  function ModelNameOf(m: PyValue): PyValue {
    if m.PyDict? then
      var name := Get(m.entries, "name");
      if name.Some? && Truthy(name.value) then name.value
      else
        var id := Get(m.entries, "id");
        if id.Some? && Truthy(id.value) then id.value else PyStr("")
    else PyStr(Str(m))
  }

  /** The loop building `model_names`: one name per entry, in order. */
  method NormaliseModelNames(models: seq<PyValue>) returns (names: seq<PyValue>)
    ensures |names| == |models|
    ensures forall k :: 0 <= k < |models| ==> names[k] == ModelNameOf(models[k])
  {
    names := [];
    var i := 0;
    while i < |models|
      invariant 0 <= i <= |models|
      invariant |names| == i
      invariant forall k :: 0 <= k < i ==> names[k] == ModelNameOf(models[k])
    {
      var m := models[i];
      if m.PyDict? {
        var name := Get(m.entries, "name");
        if name.Some? && Truthy(name.value) {
          names := names + [name.value];
        } else {
          var id := Get(m.entries, "id");
          names := names + [if id.Some? && Truthy(id.value) then id.value else PyStr("")];
        }
      } else {
        names := names + [PyStr(Str(m))];
      }
      i := i + 1;
    }
  }

  /** The string names among the normalised names. */
  function StringNames(names: seq<PyValue>): (r: seq<string>)
    ensures forall x :: x in r <==> PyStr(x) in names
  {
    if names == [] then []
    else
      assert forall v :: v in names ==> v == names[0] || v in names[1..];
      (if names[0].PyStr? then [names[0].s] else []) + StringNames(names[1..])
  }

  /** The model the connection test settles on: the configured one when the server has it,
      else the first preferred one the server has. */
  function Selected(modelName: string, preferred: seq<string>, names: seq<PyValue>): Option<string> {
    if PyStr(modelName) in names then Some(modelName)
    else FirstPresent(preferred, StringNames(names))
  }

  /** The selection is the configured model when the server has it; otherwise the first
      preferred model the server has; and there is none exactly when the server has neither. */
  lemma SelectedSpec(modelName: string, preferred: seq<string>, names: seq<PyValue>)
    ensures PyStr(modelName) in names ==> Selected(modelName, preferred, names) == Some(modelName)
    ensures PyStr(modelName) !in names ==>
              (Selected(modelName, preferred, names).None? <==>
                 forall p :: p in preferred ==> PyStr(p) !in names)
    ensures PyStr(modelName) !in names && Selected(modelName, preferred, names).Some? ==>
              IsFirstPresent(preferred, StringNames(names), Selected(modelName, preferred, names).value)
    ensures Selected(modelName, preferred, names).Some? ==>
              PyStr(Selected(modelName, preferred, names).value) in names
  {
    FirstPresentSpec(preferred, StringNames(names));
    var r := FirstPresent(preferred, StringNames(names));
    if PyStr(modelName) !in names && r.Some? {
      var j :| 0 <= j < |preferred| && preferred[j] == r.value && r.value in StringNames(names) &&
               forall i :: 0 <= i < j ==> preferred[i] !in StringNames(names);
    }
  }

  /** The selection loop of the connection test, with its `break`. */
  method SelectModel(modelName: string, preferred: seq<string>, names: seq<PyValue>)
    returns (selected: Option<string>)
    ensures selected == Selected(modelName, preferred, names)
  {
    selected := None;
    if PyStr(modelName) in names {
      selected := Some(modelName);
    } else {
      var i := 0;
      while i < |preferred|
        invariant 0 <= i <= |preferred|
        invariant FirstPresent(preferred, StringNames(names)) == FirstPresent(preferred[i..], StringNames(names))
      {
        var pref := preferred[i];
        assert preferred[i..][1..] == preferred[i + 1..];
        if PyStr(pref) in names {
          selected := Some(pref);
          break;
        }
        i := i + 1;
      }
      if selected.None? {
        assert preferred[i..] == [];
      }
    }
  }

  const ConnectedPrefix: string := "\U{2705} Connected! "
  const UsingModel: string := "Using model:"

  /** The message of a successful test: "✅ Connected! Using model: " and the name. */
  function ConnectedMessage(selected: string): string {
    ConnectedPrefix + UsingModel + " " + selected
  }

  /** `test_ollama_connection()`, given the server's reply and the two settings. The test
      fails on an unreachable server, on a status other than 200, and when no model can be
      selected; an empty name selected counts as none. */
  method TestConnection(reply: TagsReply, modelName: string, preferred: seq<string>)
    returns (ok: bool, message: string)
    ensures reply.Unreachable? ==> !ok && message == "\U{274C} Connection failed: " + reply.error
    ensures reply.Reply? && reply.status != 200 ==>
              !ok && message == "\U{274C} Ollama error: HTTP " + IntToString(reply.status)
    ensures reply.Reply? && reply.status == 200 ==>
              var names := seq(|reply.models|, k requires 0 <= k < |reply.models| => ModelNameOf(reply.models[k]));
              var selected := Selected(modelName, preferred, names);
              ok == (selected.Some? && selected.value != "") &&
              (ok ==> message == ConnectedMessage(selected.value)) &&
              (!ok ==> message == "\U{274C} None of preferred models found. Available: " + Repr(PyList(names)))
  {
    if reply.Unreachable? {
      return false, "\U{274C} Connection failed: " + reply.error;
    }
    if reply.status != 200 {
      return false, "\U{274C} Ollama error: HTTP " + IntToString(reply.status);
    }
    var modelNames := NormaliseModelNames(reply.models);
    var selected := SelectModel(modelName, preferred, modelNames);
    ghost var names := seq(|reply.models|, k requires 0 <= k < |reply.models| => ModelNameOf(reply.models[k]));
    assert modelNames == names;
    if selected.Some? && selected.value != "" {
      return true, ConnectedMessage(selected.value);
    }
    return false, "\U{274C} None of preferred models found. Available: " + Repr(PyList(modelNames));
  }

  // ---------------------------------------------------------------------------------------
  // initialize_chatbot

  /** The model the chain is built with: the stripped text after the last "Using model:" of
      the connection message when it has one, else the configured model. `LastPiece` is
      `split(...)[-1]` (see `LastPieceOfSplit`). */
  function ModelToUse(message: string, modelName: string): string {
    if Contains(message, UsingModel) then Strip(LastPiece(message, UsingModel)) else modelName
  }

  /** `ModelToUse` takes the last piece of the message split at "Using model:". */
  lemma ModelToUseSplits(message: string, modelName: string)
    requires Contains(message, UsingModel)
    ensures var pieces := Split(message, UsingModel);
            ModelToUse(message, modelName) == Strip(pieces[|pieces| - 1])
  {
    LastPieceOfSplit(message, UsingModel);
  }

  /** The part of `initialize_chatbot` that is not framework calls: a failed connection test
      raises with its message, a successful one yields the model to use. */
  function InitializeChatbot(ok: bool, message: string, modelName: string): (r: Result<string, string>)
    ensures !ok ==> r == Failure("Ollama connection failed: " + message)
    ensures ok && !Contains(message, UsingModel) ==> r == Success(modelName)
  {
    if !ok then Failure("Ollama connection failed: " + message)
    else Success(ModelToUse(message, modelName))
  }

  /** Neither the success prefix nor the rest of "Using model:" holds its first character. */
  lemma SeparatorFacts()
    ensures UsingModel != [] && UsingModel[0] !in ConnectedPrefix
    ensures forall k :: 1 <= k < |UsingModel| ==> UsingModel[k] != UsingModel[0]
  {
  }

  /** The success message holds "Using model:" right after its prefix. */
  lemma MessageHasSeparator(b: string)
    ensures Contains(ConnectedPrefix + UsingModel + b, UsingModel)
  {
    var message := ConnectedPrefix + UsingModel + b;
    assert message[|ConnectedPrefix|..|ConnectedPrefix| + |UsingModel|] == UsingModel;
    assert StartsAt(message, |ConnectedPrefix|, UsingModel);
    ContainsIff(message, UsingModel);
  }

  /** A name with no surrounding whitespace that does not itself contain "Using model:" is
      recovered from the success message. */
  lemma ModelRecovered(selected: string, modelName: string)
    requires IsStripped(selected)
    requires !Contains(selected, UsingModel)
    ensures InitializeChatbot(true, ConnectedMessage(selected), modelName) == Success(selected)
  {
    var b := " " + selected;
    var message := ConnectedPrefix + UsingModel + b;
    assert ConnectedMessage(selected) == message;
    SeparatorFacts();
    MessageHasSeparator(b);
    NoSeparatorAfterSpace(selected);
    LastPieceAfterFirst(ConnectedPrefix, UsingModel, b);
    assert b == " " + selected + [];
    StripPadded(" ", selected, []);
    assert ModelToUse(message, modelName) == Strip(b);
  }

  /** A leading space cannot start "Using model:", so it adds no occurrence. */
  lemma NoSeparatorAfterSpace(s: string)
    requires !Contains(s, UsingModel)
    ensures !Contains(" " + s, UsingModel)
  {
    var t := " " + s;
    ContainsIff(s, UsingModel);
    ContainsIff(t, UsingModel);
    forall i: nat
      ensures !StartsAt(t, i, UsingModel)
    {
      StartsAtHead(t, i, UsingModel);
      if i > 0 {
        StartsAtShift(" ", s, i - 1, UsingModel);
        assert t == " " + s && i == |" "| + (i - 1);
      }
    }
  }

  // ---------------------------------------------------------------------------------------
  // process_and_initialize

  /** One element of the upload list: nothing, a path string, or a file object with its
      `name` attribute (if any) and its `str()` text. */
  datatype Upload = NoUpload | PathUpload(path: string) | FileUpload(name: Option<string>, text: string)

  /** The path taken from one upload: None is skipped, a string is a path, an object gives
      its `name`, or its `str()` when it has none. */
  function UploadPath(f: Upload): Option<string> {
    match f
    case NoUpload => None
    case PathUpload(path) => Some(path)
    case FileUpload(name, text) => if name.Some? then name else Some(text)
  }

  /** The paths of all uploads, in order. */
  function UploadPaths(files: seq<Upload>): seq<string>
    decreases |files|
  {
    if files == [] then []
    else
      var p := UploadPath(files[|files| - 1]);
      UploadPaths(files[..|files| - 1]) + (if p.Some? then [p.value] else [])
  }

  /** The paths keep the order of the uploads: those of `a + b` are those of `a`, then those
      of `b`; and each upload other than None gives exactly one path. */
  lemma {:induction false} UploadPathsConcat(a: seq<Upload>, b: seq<Upload>)
    ensures UploadPaths(a + b) == UploadPaths(a) + UploadPaths(b)
    decreases |b|
  {
    if b == [] {
      assert a + b == a;
    } else {
      var b' := b[..|b| - 1];
      assert (a + b)[..|a + b| - 1] == a + b';
      assert (a + b)[|a + b| - 1] == b[|b| - 1];
      UploadPathsConcat(a, b');
      var p := UploadPath(b[|b| - 1]);
      var tail := if p.Some? then [p.value] else [];
      assert UploadPaths(a) + UploadPaths(b') + tail == UploadPaths(a) + (UploadPaths(b') + tail);
    }
  }

  /** The number of paths is the number of uploads that are not None. */
  lemma {:induction false} UploadPathsCount(files: seq<Upload>)
    ensures |UploadPaths(files)| == |files| - multiset(files)[NoUpload]
    decreases |files|
  {
    if files != [] {
      var init := files[..|files| - 1];
      UploadPathsCount(init);
      assert files == init + [files[|files| - 1]];
      assert multiset(files) == multiset(init) + multiset{files[|files| - 1]};
    }
  }

  /** `process_and_initialize(files)` up to the loader: no upload at all gives the request
      for a file, otherwise the list of paths handed to the document loader. */
  method ProcessAndInitialize(files: Option<seq<Upload>>) returns (r: Result<seq<string>, string>)
    ensures files.None? || files.value == [] ==> r == Failure("Please upload a file first.")
    ensures files.Some? && files.value != [] ==> r == Success(UploadPaths(files.value))
  {
    if files.None? || |files.value| == 0 {
      return Failure("Please upload a file first.");
    }
    var uploads := files.value;
    var paths := [];
    var i := 0;
    while i < |uploads|
      invariant 0 <= i <= |uploads|
      invariant paths == UploadPaths(uploads[..i])
    {
      var file := uploads[i];
      assert uploads[..i + 1][..i] == uploads[..i];
      assert uploads[..i + 1][i] == file;
      if file.PathUpload? {
        paths := paths + [file.path];
      } else if file.FileUpload? {
        paths := paths + [if file.name.Some? then file.name.value else file.text];
      } else {
        assert paths + [] == paths;
      }
      i := i + 1;
    }
    assert uploads[..i] == uploads;
    return Success(paths);
  }

  // ---------------------------------------------------------------------------------------
  // user_query_typing_effect

  /** The chat history a UI component holds and the typing effect appends to. */
  class ChatLog {
    var messages: seq<Message>

    constructor(messages: seq<Message>)
      ensures this.messages == messages
    {
      this.messages := messages;
    }
  }

  /** `user_query_typing_effect(query, qa_chain, chatbot)`, given what the chain answered
      (or the text of the exception it raised), as the list of histories it yields. A
      missing or empty chat log is replaced by a fresh one; a non-empty one is appended to
      in place. On an answer, the question and an empty assistant message are appended and
      the assistant message grows by one character per yield. On an exception, one error
      message is appended and yielded once. */
  method TypingEffect(query: string, answer: Result<string, string>, chatbot: ChatLog?)
    returns (history: ChatLog, frames: seq<seq<Message>>)
    modifies chatbot
    ensures chatbot != null && old(chatbot.messages) != [] ==> history == chatbot
    ensures chatbot == null || old(chatbot.messages) == [] ==> fresh(history)
    ensures chatbot != null && old(chatbot.messages) == [] ==> chatbot.messages == []
    ensures var start := if chatbot == null then [] else old(chatbot.messages);
            match answer
            case Success(a) =>
              history.messages == start + [Message("user", PyStr(query)), Message("assistant", PyStr(a))] &&
              |frames| == |a| &&
              forall k :: 0 <= k < |a| ==>
                frames[k] == start + [Message("user", PyStr(query)), Message("assistant", PyStr(a[..k + 1]))]
            case Failure(e) =>
              history.messages == start + [Message("assistant", PyStr("Error: " + e))] &&
              frames == [history.messages]
  {
    if chatbot != null && |chatbot.messages| > 0 {
      history := chatbot;
    } else {
      history := new ChatLog([]);
    }
    ghost var start := history.messages;
    if answer.Failure? {
      history.messages := history.messages + [Message("assistant", PyStr("Error: " + answer.error))];
      frames := [history.messages];
      return;
    }
    var assistantResponse := answer.value;
    history.messages := history.messages + [Message("user", PyStr(query))];
    history.messages := history.messages + [Message("assistant", PyStr(""))];
    frames := [];
    var i := 0;
    while i < |assistantResponse|
      invariant 0 <= i <= |assistantResponse|
      invariant history.messages ==
                  start + [Message("user", PyStr(query)), Message("assistant", PyStr(assistantResponse[..i]))]
      invariant chatbot != null && old(chatbot.messages) == [] ==> chatbot.messages == []
      invariant |frames| == i
      invariant forall k :: 0 <= k < i ==>
                  frames[k] == start + [Message("user", PyStr(query)),
                                        Message("assistant", PyStr(assistantResponse[..k + 1]))]
    {
      var last := |history.messages| - 1;
      var content := history.messages[last].content.s + [assistantResponse[i]];
      assert content == assistantResponse[..i + 1];
      history.messages := history.messages[last := Message("assistant", PyStr(content))];
      frames := frames + [history.messages];
      i := i + 1;
    }
    assert assistantResponse[..i] == assistantResponse;
  }
}
