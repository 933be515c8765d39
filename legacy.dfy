/** The two operations of the older root `main.py` that differ from their `mit_rag/main.py`
    versions: a catalog update that only filters (and builds entries only when nothing is
    left), and a chatbot converter for plain (user, assistant) pairs. Everything else the
    older file defines is the same as in the newer one and is modelled once. */
module Legacy {
  import opened Wrappers
  import opened PyValues
  import opened Catalog
  import opened History

  // ---------------------------------------------------------------------------------------
  // update_available_models

  /** The catalog after the older update with a non-empty installed list: the catalog entries
      whose model is installed or, when there are none, one built entry per installed name. */
  function LegacyMerged(models: seq<ModelEntry>, installed: seq<string>): seq<ModelEntry> {
    var kept := Kept(models, installed);
    if kept == [] then Missing(installed, []) else kept
  }

  /** The older update is the newer one without the appended names: its catalog is a prefix
      of the newer catalog, the whole of it when no catalog entry is installed, and just the
      surviving entries otherwise. */
  lemma LegacyMergedPrefix(models: seq<ModelEntry>, installed: seq<string>)
    ensures var legacy := LegacyMerged(models, installed);
            var merged := Merged(models, installed);
            |legacy| <= |merged| && merged[..|legacy|] == legacy
    ensures Kept(models, installed) == [] ==> LegacyMerged(models, installed) == Merged(models, installed)
    ensures Kept(models, installed) != [] ==> LegacyMerged(models, installed) == Kept(models, installed)
  {
    var kept := Kept(models, installed);
    if kept == [] {
      assert Ids(kept) == [];
      assert [] + Missing(installed, []) == Missing(installed, []);
    } else {
      assert Merged(models, installed)[..|kept|] == kept;
    }
  }

  /** The module-level catalog of the older `main.py`, which has no default model id. */
  class LegacyCatalog {
    var availableModels: seq<ModelEntry>

    constructor()
      ensures availableModels == PredefinedModels
    {
      availableModels := PredefinedModels;
    }

    /** `update_available_models()` of the older file, given the installed model names. */
    method UpdateAvailableModels(installed: seq<string>)
      modifies this
      ensures installed == [] ==> availableModels == old(availableModels)
      ensures installed != [] ==> availableModels == LegacyMerged(old(availableModels), installed)
    {
      if |installed| > 0 {
        var models := Kept(availableModels, installed);
        if |models| == 0 {
          models := AppendMissing([], installed, []);
          assert [] + Missing(installed, []) == Missing(installed, []);
        }
        availableModels := models;
      }
    }
  }

  // ---------------------------------------------------------------------------------------
  // history_to_chatbot_messages

  /** The older chatbot messages: a user and an assistant message per turn, the user content
      flattened and the assistant content passed through. */
  function LegacyChatbotOf(history: seq<Turn>): Result<seq<Message>, PyError>
    decreases |history|
  {
    if history == [] then Success([])
    else
      var last := history[|history| - 1];
      match LegacyChatbotOf(history[..|history| - 1])
      case Failure(e) => Failure(e)
      case Success(ms) =>
        match UserContent(last.user)
        case Failure(e) => Failure(e)
        case Success(u) => Success(ms + [Message("user", u), Message("assistant", last.assistant)])
  }

  /** The older chatbot messages are the model messages of `history_to_messages` without the
      system message in front. */
  lemma {:induction false} LegacyChatbotIsMessagesTail(history: seq<Turn>, system: string)
    ensures LegacyChatbotOf(history).Success? <==> MessagesOf(history, system).Success?
    ensures LegacyChatbotOf(history).Success? ==>
              MessagesOf(history, system).value ==
                [Message("system", PyStr(system))] + LegacyChatbotOf(history).value
    decreases |history|
  {
    if history != [] {
      var init := history[..|history| - 1];
      LegacyChatbotIsMessagesTail(init, system);
      if LegacyChatbotOf(history).Success? {
        var head, ms := [Message("system", PyStr(system))], LegacyChatbotOf(init).value;
        var u := UserContent(history[|history| - 1].user).value;
        var pair := [Message("user", u), Message("assistant", history[|history| - 1].assistant)];
        assert head + ms + pair == head + (ms + pair);
      }
    }
  }

  /** Exactly two messages per turn, in order: the flattened user content, then the
      assistant content unchanged. */
  lemma LegacyChatbotShape(history: seq<Turn>)
    ensures LegacyChatbotOf(history).Success? <==>
              forall k :: 0 <= k < |history| ==> UserContent(history[k].user).Success?
    ensures LegacyChatbotOf(history).Success? ==>
              var ms := LegacyChatbotOf(history).value;
              |ms| == 2 * |history| &&
              forall k :: 0 <= k < |history| ==>
                UserContent(history[k].user).Success? &&
                ms[2 * k] == Message("user", UserContent(history[k].user).value) &&
                ms[2 * k + 1] == Message("assistant", history[k].assistant)
  {
    LegacyChatbotIsMessagesTail(history, "");
    MessagesOfShape(history, "");
    if LegacyChatbotOf(history).Success? {
      var ms := LegacyChatbotOf(history).value;
      var all := MessagesOf(history, "").value;
      assert forall j :: 0 <= j < |ms| ==> ms[j] == all[j + 1];
    }
  }

  /** `history_to_chatbot_messages(history)` of the older file. */
  method LegacyHistoryToChatbotMessages(history: seq<Turn>) returns (r: Result<seq<Message>, PyError>)
    ensures r == LegacyChatbotOf(history)
  {
    var messages := [];
    var i := 0;
    while i < |history|
      invariant 0 <= i <= |history|
      invariant LegacyChatbotOf(history[..i]) == Success(messages)
    {
      var turn := history[i];
      assert history[..i + 1][..i] == history[..i];
      assert history[..i + 1][i] == turn;
      var userMsg := FlattenContent(turn.user);
      if userMsg.Failure? {
        LegacyFailureExtends(history, i + 1);
        return Failure(userMsg.error);
      }
      ghost var before := messages;
      messages := messages + [Message("user", userMsg.value)];
      messages := messages + [Message("assistant", turn.assistant)];
      assert messages == before + [Message("user", userMsg.value), Message("assistant", turn.assistant)];
      i := i + 1;
    }
    assert history[..i] == history;
    return Success(messages);
  }

  lemma {:induction false} LegacyFailureExtends(history: seq<Turn>, n: nat)
    requires n <= |history|
    requires LegacyChatbotOf(history[..n]).Failure?
    ensures LegacyChatbotOf(history) == LegacyChatbotOf(history[..n])
    decreases |history| - n
  {
    if n < |history| {
      assert history[..n + 1][..n] == history[..n];
      LegacyFailureExtends(history, n + 1);
    } else {
      assert history[..n] == history;
    }
  }
}
