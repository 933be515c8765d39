/** The chat-history converters: between the UI's history of (user, assistant) turns, the
    role-tagged message list sent to the model, and the chatbot widget's message dicts.
    Multimodal user content (a list of parts) is flattened to its text on the way. */
module History {
  import opened Wrappers
  import opened PyValues

  /** One entry of the UI history: `[user_content, assistant_content]`. */
  datatype Turn = Turn(user: PyValue, assistant: PyValue)

  /** One message of the model conversation: `{"role": role, "content": content}`. */
  datatype Message = Message(role: string, content: PyValue)

  // ---------------------------------------------------------------------------------------
  // Flattening multimodal content

  /** What one part of a multimodal list adds to the flattened text: the `text` of a dict
      whose `type` is "text" ("" when it has none), nothing for any other part. Adding a
      `text` that is not a string to a string raises a `TypeError`. */
  function TextPiece(item: PyValue): Result<string, PyError> {
    if item.PyDict? && Get(item.entries, "type") == Some(PyStr("text")) then
      match Get(item.entries, "text")
      case None => Success("")
      case Some(t) => if t.PyStr? then Success(t.s) else Failure(TypeError)
    else Success("")
  }

  /** Two steps run one after the other: the first error wins, otherwise the outputs are
      concatenated. */
  function Then<T>(x: Result<seq<T>, PyError>, y: Result<seq<T>, PyError>): Result<seq<T>, PyError> {
    if x.Failure? then x else if y.Failure? then y else Success(x.value + y.value)
  }

  lemma ThenUnit<T>(x: Result<seq<T>, PyError>)
    ensures Then(x, Success([])) == x
    ensures Then(Success([]), x) == x
  {
    if x.Success? {
      assert x.value + [] == x.value;
      assert [] + x.value == x.value;
    }
  }

  lemma ThenAssoc<T>(x: Result<seq<T>, PyError>, y: Result<seq<T>, PyError>, z: Result<seq<T>, PyError>)
    ensures Then(Then(x, y), z) == Then(x, Then(y, z))
  {
    if x.Success? && y.Success? && z.Success? {
      assert x.value + y.value + z.value == x.value + (y.value + z.value);
    }
  }

  /** The flattened text of a list of parts, accumulated left to right; the first part that
      raises decides the error. */
  function TextOf(items: seq<PyValue>): Result<string, PyError>
    decreases |items|
  {
    if items == [] then Success("")
    else Then(TextOf(items[..|items| - 1]), TextPiece(items[|items| - 1]))
  }

  /** Flattening distributes over concatenation: the text of `a + b` is the text of `a`
      followed by the text of `b`, and an error in `a` comes before anything in `b`. */
  lemma {:induction false} TextOfConcat(a: seq<PyValue>, b: seq<PyValue>)
    ensures TextOf(a + b) == Then(TextOf(a), TextOf(b))
    decreases |b|
  {
    if b == [] {
      assert a + b == a;
      ThenUnit(TextOf(a));
    } else {
      var b', last := b[..|b| - 1], b[|b| - 1];
      assert (a + b)[..|a + b| - 1] == a + b';
      assert (a + b)[|a + b| - 1] == last;
      TextOfConcat(a, b');
      ThenAssoc(TextOf(a), TextOf(b'), TextPiece(last));
    }
  }

  /** A single part contributes exactly its own piece. */
  lemma TextOfOne(item: PyValue)
    ensures TextOf([item]) == TextPiece(item)
  {
    assert [item][..0] == [];
    ThenUnit(TextPiece(item));
  }

  /** Parts that are not "text" dicts add nothing, whatever they hold. */
  lemma {:induction false} TextOfNonText(items: seq<PyValue>)
    requires forall k :: 0 <= k < |items| ==>
               !items[k].PyDict? || Get(items[k].entries, "type") != Some(PyStr("text"))
    ensures TextOf(items) == Success("")
    decreases |items|
  {
    if items != [] {
      var init := items[..|items| - 1];
      assert forall k :: 0 <= k < |init| ==> init[k] == items[k];
      TextOfNonText(init);
      assert TextPiece(items[|items| - 1]) == Success("");
      var empty: string := "";
      assert empty + empty == empty;
    }
  }

  lemma TextOfStep(items: seq<PyValue>, i: nat)
    requires i < |items|
    ensures TextOf(items[..i + 1]) == Then(TextOf(items[..i]), TextPiece(items[i]))
  {
    assert items[..i + 1][..i] == items[..i];
    assert items[..i + 1][i] == items[i];
  }

  /** Once a part raises, the flattening of the whole list raises the same error. */
  lemma TextOfFailureExtends(items: seq<PyValue>, i: nat)
    requires i < |items|
    requires TextOf(items[..i + 1]).Failure?
    ensures TextOf(items) == TextOf(items[..i + 1])
  {
    TextOfConcat(items[..i + 1], items[i + 1..]);
    assert items[..i + 1] + items[i + 1..] == items;
  }

  /** `text_content` accumulated by the loop over the parts of a list. */
  method FlattenText(items: seq<PyValue>) returns (r: Result<string, PyError>)
    ensures r == TextOf(items)
  {
    var text := "";
    var i := 0;
    while i < |items|
      invariant 0 <= i <= |items|
      invariant TextOf(items[..i]) == Success(text)
    {
      var item := items[i];
      TextOfStep(items, i);
      if item.PyDict? && Get(item.entries, "type") == Some(PyStr("text")) {
        var t := Get(item.entries, "text");
        if t.Some? {
          if !t.value.PyStr? {
            TextOfFailureExtends(items, i);
            return Failure(TypeError);
          }
          text := text + t.value.s;
        } else {
          assert text + "" == text;
        }
      } else {
        assert text + "" == text;
      }
      i := i + 1;
    }
    assert items[..i] == items;
    return Success(text);
  }

  /** The flattened form of a content value: a list becomes its text, or `str(list)` when
      that text is empty; any other value is kept as it is. */
  function UserContent(v: PyValue): Result<PyValue, PyError> {
    if v.PyList? then
      match TextOf(v.items)
      case Failure(e) => Failure(e)
      case Success(t) => Success(PyStr(if t != "" then t else Repr(v)))
    else Success(v)
  }

  /** A flattened value is never a list, so flattening it again changes nothing. */
  lemma UserContentIdempotent(v: PyValue)
    requires UserContent(v).Success?
    ensures !UserContent(v).value.PyList?
    ensures UserContent(UserContent(v).value) == UserContent(v)
  {
  }

  /** A list that flattens without error becomes a non-empty string: its text, or its `repr`. */
  lemma UserContentOfList(items: seq<PyValue>)
    requires TextOf(items).Success?
    ensures UserContent(PyList(items)).Success?
    ensures var u := UserContent(PyList(items)).value;
            u.PyStr? && u.s != [] &&
            (TextOf(items).value != [] ==> u.s == TextOf(items).value) &&
            (TextOf(items).value == [] ==> u.s == Repr(PyList(items)))
  {
  }

  /** The loop body shared by the converters: flatten `v` when it is a list. */
  method FlattenContent(v: PyValue) returns (r: Result<PyValue, PyError>)
    ensures r == UserContent(v)
  {
    if v.PyList? {
      var text := FlattenText(v.items);
      if text.Failure? {
        return Failure(text.error);
      }
      r := Success(PyStr(if text.value != "" then text.value else Repr(v)));
    } else {
      r := Success(v);
    }
  }

  // ---------------------------------------------------------------------------------------
  // history_to_messages

  /** The message list for `history` after the system prompt `system`. */
  function MessagesOf(history: seq<Turn>, system: string): Result<seq<Message>, PyError>
    decreases |history|
  {
    if history == [] then Success([Message("system", PyStr(system))])
    else
      var last := history[|history| - 1];
      match MessagesOf(history[..|history| - 1], system)
      case Failure(e) => Failure(e)
      case Success(ms) =>
        match UserContent(last.user)
        case Failure(e) => Failure(e)
        case Success(u) => Success(ms + [Message("user", u), Message("assistant", last.assistant)])
  }

  /** The conversion succeeds exactly when every user content can be flattened, and then
      the list is the system message followed by one user and one assistant message per
      turn, in order: 1 + 2·|history| messages, roles alternating, the flattened user
      content and the assistant content verbatim. */
  lemma {:induction false} MessagesOfShape(history: seq<Turn>, system: string)
    ensures MessagesOf(history, system).Success? <==>
              forall k :: 0 <= k < |history| ==> UserContent(history[k].user).Success?
    ensures MessagesOf(history, system).Success? ==>
              var ms := MessagesOf(history, system).value;
              |ms| == 1 + 2 * |history| &&
              ms[0] == Message("system", PyStr(system)) &&
              forall k :: 0 <= k < |history| ==>
                ms[2 * k + 1] == Message("user", UserContent(history[k].user).value) &&
                ms[2 * k + 2] == Message("assistant", history[k].assistant)
    decreases |history|
  {
    if history != [] {
      var init := history[..|history| - 1];
      MessagesOfShape(init, system);
      assert forall k :: 0 <= k < |init| ==> init[k] == history[k];
    }
  }

  /** `history_to_messages(history, system)`. */
  method HistoryToMessages(history: seq<Turn>, system: string) returns (r: Result<seq<Message>, PyError>)
    ensures r == MessagesOf(history, system)
  {
    var messages := [Message("system", PyStr(system))];
    var i := 0;
    while i < |history|
      invariant 0 <= i <= |history|
      invariant MessagesOf(history[..i], system) == Success(messages)
    {
      var h := history[i];
      assert history[..i + 1][..i] == history[..i];
      assert history[..i + 1][i] == h;
      var userContent := FlattenContent(h.user);
      if userContent.Failure? {
        MessagesFailureExtends(history, i + 1, system);
        return Failure(userContent.error);
      }
      ghost var before := messages;
      messages := messages + [Message("user", userContent.value)];
      messages := messages + [Message("assistant", h.assistant)];
      assert messages == before + [Message("user", userContent.value), Message("assistant", h.assistant)];
      i := i + 1;
    }
    assert history[..i] == history;
    return Success(messages);
  }

  /** Once a prefix of the history fails to convert, the whole history fails the same way. */
  lemma {:induction false} MessagesFailureExtends(history: seq<Turn>, n: nat, system: string)
    requires n <= |history|
    requires MessagesOf(history[..n], system).Failure?
    ensures MessagesOf(history, system) == MessagesOf(history[..n], system)
    decreases |history| - n
  {
    if n < |history| {
      assert history[..n + 1][..n] == history[..n];
      MessagesFailureExtends(history, n + 1, system);
    } else {
      assert history[..n] == history;
    }
  }

  // ---------------------------------------------------------------------------------------
  // messages_to_history

  /** The first `n` turns paired from `messages[1::2]` and `messages[2::2]`. */
  function PairsOf(messages: seq<Message>, n: nat): Result<seq<Turn>, PyError>
    requires 2 * n + 1 <= |messages|
  {
    if n == 0 then Success([])
    else
      match PairsOf(messages, n - 1)
      case Failure(e) => Failure(e)
      case Success(ts) =>
        match UserContent(messages[2 * n - 1].content)
        case Failure(e) => Failure(e)
        case Success(u) => Success(ts + [Turn(u, messages[2 * n].content)])
  }

  /** `messages_to_history(messages)`: an empty list raises on `messages[0]`, a first message
      that is not the system one fails the assertion, otherwise the zip pairs the messages
      after the first two by two, as many pairs as the shorter slice holds. */
  function HistoryOf(messages: seq<Message>): Result<seq<Turn>, PyError> {
    if messages == [] then Failure(IndexError)
    else if messages[0].role != "system" then Failure(AssertionError)
    else PairsOf(messages, (|messages| - 1) / 2)
  }

  /** `messages_to_history`, with the loop over the zipped pairs. */
  method MessagesToHistory(messages: seq<Message>) returns (r: Result<seq<Turn>, PyError>)
    ensures r == HistoryOf(messages)
  {
    if |messages| == 0 {
      return Failure(IndexError);
    }
    if messages[0].role != "system" {
      return Failure(AssertionError);
    }
    var pairs := (|messages| - 1) / 2;
    var history := [];
    var k := 0;
    while k < pairs
      invariant 0 <= k <= pairs
      invariant PairsOf(messages, k) == Success(history)
    {
      var q := messages[2 * k + 1];
      var a := messages[2 * k + 2];
      var userContent := FlattenContent(q.content);
      if userContent.Failure? {
        PairsFailureExtends(messages, k + 1, pairs);
        return Failure(userContent.error);
      }
      history := history + [Turn(userContent.value, a.content)];
      k := k + 1;
    }
    return Success(history);
  }

  /** Once the first `n` pairs fail to convert, the first `m >= n` pairs fail the same way. */
  lemma {:induction false} PairsFailureExtends(messages: seq<Message>, n: nat, m: nat)
    requires n <= m && 2 * m + 1 <= |messages|
    requires PairsOf(messages, n).Failure?
    ensures PairsOf(messages, m) == PairsOf(messages, n)
    decreases m - n
  {
    if n < m {
      PairsFailureExtends(messages, n + 1, m);
    }
  }

  /** The pairs only look at the messages they cover. */
  lemma {:induction false} PairsOfPrefix(messages: seq<Message>, extra: seq<Message>, n: nat)
    requires 2 * n + 1 <= |messages|
    ensures PairsOf(messages + extra, n) == PairsOf(messages, n)
    decreases n
  {
    if n > 0 {
      PairsOfPrefix(messages, extra, n - 1);
      assert (messages + extra)[2 * n - 1] == messages[2 * n - 1];
      assert (messages + extra)[2 * n] == messages[2 * n];
    }
  }

  /** A trailing user message with no answer is dropped by the zip. */
  lemma TrailingMessageDropped(messages: seq<Message>, extra: Message)
    requires |messages| % 2 == 1
    ensures HistoryOf(messages + [extra]) == HistoryOf(messages)
  {
    assert (messages + [extra])[0] == messages[0];
    assert (|messages + [extra]| - 1) / 2 == (|messages| - 1) / 2;
    PairsOfPrefix(messages, [extra], (|messages| - 1) / 2);
  }

  /** Converting back pairs up exactly the turns of the history, with their user content
      flattened: the assistant content comes back verbatim. */
  lemma {:induction false} PairsOfMessages(history: seq<Turn>, system: string, n: nat)
    requires MessagesOf(history, system).Success?
    requires n <= |history|
    ensures |MessagesOf(history, system).value| == 1 + 2 * |history|
    ensures PairsOf(MessagesOf(history, system).value, n).Success?
    ensures var ts := PairsOf(MessagesOf(history, system).value, n).value;
            |ts| == n &&
            forall k :: 0 <= k < n ==>
              UserContent(history[k].user).Success? &&
              ts[k] == Turn(UserContent(history[k].user).value, history[k].assistant)
    decreases n
  {
    MessagesOfShape(history, system);
    if n > 0 {
      PairsOfMessages(history, system, n - 1);
      var ms := MessagesOf(history, system).value;
      assert ms[2 * (n - 1) + 1] == Message("user", UserContent(history[n - 1].user).value);
      UserContentIdempotent(history[n - 1].user);
    }
  }

  /** The round trip: whenever the history converts, converting the messages back gives the
      history with its user contents flattened. */
  lemma RoundTripFlattens(history: seq<Turn>, system: string)
    requires MessagesOf(history, system).Success?
    ensures HistoryOf(MessagesOf(history, system).value).Success?
    ensures var back := HistoryOf(MessagesOf(history, system).value).value;
            |back| == |history| &&
            forall k :: 0 <= k < |history| ==>
              UserContent(history[k].user).Success? &&
              back[k] == Turn(UserContent(history[k].user).value, history[k].assistant)
  {
    MessagesOfShape(history, system);
    PairsOfMessages(history, system, |history|);
  }

  /** For a history whose user contents are not lists (plain strings, say) the round trip
      gives back the history itself. */
  lemma RoundTrip(history: seq<Turn>, system: string)
    requires forall k :: 0 <= k < |history| ==> !history[k].user.PyList?
    ensures MessagesOf(history, system).Success?
    ensures HistoryOf(MessagesOf(history, system).value) == Success(history)
  {
    MessagesOfShape(history, system);
    RoundTripFlattens(history, system);
    var back := HistoryOf(MessagesOf(history, system).value).value;
    forall k | 0 <= k < |history|
      ensures back[k] == history[k]
    {
      assert UserContent(history[k].user) == Success(history[k].user);
    }
    assert back == history;
  }

  // ---------------------------------------------------------------------------------------
  // history_to_chatbot_messages

  /** A message content as the chatbot shows it: a list flattened as above, None as "",
      any other value as `str(value)`. */
  function ChatText(v: PyValue): Result<string, PyError> {
    if v.PyList? then
      match TextOf(v.items)
      case Failure(e) => Failure(e)
      case Success(t) => Success(if t != "" then t else Repr(v))
    else if v.PyNone? then Success("")
    else Success(Str(v))
  }

  /** `{"role": role, "content": text}`. */
  function ChatMessage(role: string, text: string): PyValue {
    PyDict([PyEntry("role", PyStr(role)), PyEntry("content", PyStr(text))])
  }

  /** True for a dict holding both a `role` and a `content` key. */
  predicate IsMessageDict(item: PyValue) {
    item.PyDict? && HasKey(item.entries, "role") && HasKey(item.entries, "content")
  }

  /** True for a list or tuple with at least two elements. */
  predicate IsPair(item: PyValue) {
    (item.PyList? || item.PyTuple?) && |item.items| >= 2
  }

  /** The messages one history item turns into: a pair gives a user and an assistant
      message, a message dict is kept as it is, anything else is skipped. */
  function ItemMessages(item: PyValue): Result<seq<PyValue>, PyError> {
    if IsPair(item) then
      match ChatText(item.items[0])
      case Failure(e) => Failure(e)
      case Success(u) =>
        match ChatText(item.items[1])
        case Failure(e) => Failure(e)
        case Success(a) => Success([ChatMessage("user", u), ChatMessage("assistant", a)])
    else if IsMessageDict(item) then Success([item])
    else Success([])
  }

  /** The chatbot messages of a whole history, item by item. */
  function ChatbotMessagesOf(history: seq<PyValue>): Result<seq<PyValue>, PyError>
    decreases |history|
  {
    if history == [] then Success([])
    else Then(ChatbotMessagesOf(history[..|history| - 1]), ItemMessages(history[|history| - 1]))
  }

  /** The conversion keeps the order of the history: the messages of `a + b` are those of
      `a` followed by those of `b`, and an error in `a` comes first. */
  lemma {:induction false} ChatbotConcat(a: seq<PyValue>, b: seq<PyValue>)
    ensures ChatbotMessagesOf(a + b) == Then(ChatbotMessagesOf(a), ChatbotMessagesOf(b))
    decreases |b|
  {
    if b == [] {
      assert a + b == a;
      ThenUnit(ChatbotMessagesOf(a));
    } else {
      var b', last := b[..|b| - 1], b[|b| - 1];
      assert (a + b)[..|a + b| - 1] == a + b';
      assert (a + b)[|a + b| - 1] == last;
      ChatbotConcat(a, b');
      ThenAssoc(ChatbotMessagesOf(a), ChatbotMessagesOf(b'), ItemMessages(last));
    }
  }

  /** A single item converts to its own messages. */
  lemma ChatbotOne(item: PyValue)
    ensures ChatbotMessagesOf([item]) == ItemMessages(item)
  {
    assert [item][..0] == [];
    ThenUnit(ItemMessages(item));
  }

  /** What each kind of item becomes: a message dict is passed through unchanged, a pair of
      plain values becomes a user and an assistant message with None shown as "" and any
      other scalar through `str`, and an item of any other shape is skipped. */
  lemma ItemMessagesCases(item: PyValue)
    ensures IsMessageDict(item) ==> ItemMessages(item) == Success([item])
    ensures !IsPair(item) && !IsMessageDict(item) ==> ItemMessages(item) == Success([])
    ensures IsPair(item) && !item.items[0].PyList? && !item.items[1].PyList? ==>
              ItemMessages(item) == Success([
                ChatMessage("user", if item.items[0].PyNone? then "" else Str(item.items[0])),
                ChatMessage("assistant", if item.items[1].PyNone? then "" else Str(item.items[1]))])
  {
  }

  /** The chatbot content of a value that flattens to `UserContent` is that content's text. */
  lemma ChatTextOfList(items: seq<PyValue>)
    requires TextOf(items).Success?
    ensures ChatText(PyList(items)) == Success(UserContent(PyList(items)).value.s)
  {
  }

  /** `str(v)` of a flattened list, or "" for None: the chatbot text of `v`. */
  method NormaliseText(v: PyValue) returns (r: Result<string, PyError>)
    ensures r == ChatText(v)
  {
    if v.PyList? {
      var text := FlattenText(v.items);
      if text.Failure? {
        return Failure(text.error);
      }
      r := Success(if text.value != "" then text.value else Repr(v));
    } else if v.PyNone? {
      r := Success("");
    } else {
      r := Success(Str(v));
    }
  }

  /** `history_to_chatbot_messages(history)`. */
  method HistoryToChatbotMessages(history: seq<PyValue>) returns (r: Result<seq<PyValue>, PyError>)
    ensures r == ChatbotMessagesOf(history)
  {
    var messages := [];
    var i := 0;
    while i < |history|
      invariant 0 <= i <= |history|
      invariant ChatbotMessagesOf(history[..i]) == Success(messages)
    {
      var item := history[i];
      assert history[..i + 1][..i] == history[..i];
      assert history[..i + 1][i] == item;
      if IsPair(item) {
        var userText := NormaliseText(item.items[0]);
        if userText.Failure? {
          ChatbotFailureExtends(history, i + 1);
          return Failure(userText.error);
        }
        var assistantText := NormaliseText(item.items[1]);
        if assistantText.Failure? {
          ChatbotFailureExtends(history, i + 1);
          return Failure(assistantText.error);
        }
        ghost var before := messages;
        messages := messages + [ChatMessage("user", userText.value)];
        messages := messages + [ChatMessage("assistant", assistantText.value)];
        assert messages == before + [ChatMessage("user", userText.value), ChatMessage("assistant", assistantText.value)];
      } else if IsMessageDict(item) {
        messages := messages + [item];
      } else {
        assert messages + [] == messages;
      }
      i := i + 1;
    }
    assert history[..i] == history;
    return Success(messages);
  }

  /** Once a prefix of the history fails to convert, the whole history fails the same way. */
  lemma {:induction false} ChatbotFailureExtends(history: seq<PyValue>, n: nat)
    requires n <= |history|
    requires ChatbotMessagesOf(history[..n]).Failure?
    ensures ChatbotMessagesOf(history) == ChatbotMessagesOf(history[..n])
    decreases |history| - n
  {
    if n < |history| {
      assert history[..n + 1][..n] == history[..n];
      ChatbotFailureExtends(history, n + 1);
    } else {
      assert history[..n] == history;
    }
  }
}
