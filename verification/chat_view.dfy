/** The chat page's handlers (src/components/ChatView.jsx) as the actions
    they dispatch. The call to the image service is abstracted to its
    outcome: an object URL for the generated image, or an error message. */
module ChatView {
  import opened JsValues
  import opened JsStrings
  import opened ChatContext
  import PromptInput

  datatype Outcome = Success(url: string) | Failure(message: string)

  /** `{ id, type: 'prompt', text }` */
  function PromptMessage(id: int, text: string): Message {
    Message(id, Empty.(kind := Some("prompt"), text := Some(text)))
  }

  /** `{ id, type: 'image', url: '', promptText, isLoading: true, images: [] }` */
  function Placeholder(id: int, text: string): Message {
    Message(id, Empty.(kind := Some("image"), url := Some(""), promptText := Some(text),
                       isLoading := Some(true), images := Some([])))
  }

  /** The id of the prompt message added to chat `c`; the placeholder takes
      the next one. */
  function PromptId(c: Chat): int {
    NextId(MessageIds(c.messages))
  }

  /** The debug line naming the first three characters of the API key. */
  function ApiKeyInfo(apiKey: string): string {
    if apiKey != "" then Concat(["API key exists (first 3 chars: ", Prefix(apiKey, 3), "...)"])
    else "API key is missing"
  }

  function FailureText(message: string, apiKey: string): string {
    Concat(["Error: ", if message != "" then message else "Unknown error",
            "\n\nDebug Info: ", ApiKeyInfo(apiKey), "\n\nPlease check browser console for more details."])
  }

  function SuccessPatch(url: string): Fields {
    Empty.(newImageUrl := Some(url), isLoading := Some(false))
  }

  function FailurePatch(message: string, apiKey: string): Fields {
    Empty.(text := Some(FailureText(message, apiKey)), isLoading := Some(false), isError := Some(true))
  }

  /** The three actions that open a send in chat `c`: the prompt message,
      the loading placeholder with the next id, and SET_LOADING(true). */
  function Announce(c: Chat, promptText: string): seq<Action> {
    var pid := PromptId(c);
    [AddMessage(PromptMessage(pid, promptText)), AddMessage(Placeholder(pid + 1, promptText)), SetLoading(true)]
  }

  /** What follows once the image service has answered. After a failure the
      handler calls `setError`, which is not in scope there, so it throws
      before SET_LOADING(false) is dispatched. */
  function Settle(placeholderId: int, outcome: Outcome, apiKey: string, now: string): seq<Action> {
    match outcome
    case Success(url) => [UpdateImageMessage(placeholderId, SuccessPatch(url), now), SetLoading(false)]
    case Failure(msg) => [UpdateImageMessage(placeholderId, FailurePatch(msg, apiKey), now)]
  }

  /** `handleSendMessage(promptText)` as written: nothing for a blank prompt
      or without an active chat; otherwise the opening actions, then the
      outcome's. */
  function SendMessage(s: State, promptText: string, outcome: Outcome, apiKey: string, now: string): seq<Action> {
    match GetActiveChat(s)
    case None => []
    case Some(c) =>
      if Trim(promptText) == "" then [] else Announce(c, promptText) + Settle(PromptId(c) + 1, outcome, apiKey, now)
  }

  /** The failure path as the handler evidently means it: the error is also
      raised globally and the loading flag is cleared. */
  function SendMessageIntended(s: State, promptText: string, outcome: Outcome, apiKey: string, now: string): seq<Action> {
    var written := SendMessage(s, promptText, outcome, apiKey, now);
    if written != [] && outcome.Failure? then
      written + [SetError(Some("Error generating image: " + outcome.message)), SetLoading(false)]
    else written
  }

  /** `handleRegenerateImage(promptText, messageId)` */
  function RegenerateImage(s: State, promptText: string, messageId: int, outcome: Outcome, now: string): seq<Action> {
    if Trim(promptText) == "" || GetActiveChat(s).None? then []
    else
      [UpdateImageMessage(messageId, Empty.(isLoading := Some(true), isError := Some(false)), now), SetLoading(true)]
      + match outcome
        case Success(url) =>
          [UpdateImageMessage(messageId, Empty.(newImageUrl := Some(url), isLoading := Some(false), promptText := Some(promptText)), now),
           SetLoading(false)]
        case Failure(_) =>
          [UpdateImageMessage(messageId, VariationFailurePatch(), now), SetLoading(false)]
  }

  /** The text a failed regeneration leaves on its message. */
  const VariationError := "Error generating image variation. Please try again."

  function VariationFailurePatch(): Fields {
    Empty.(text := Some(VariationError), isLoading := Some(false), isError := Some(true))
  }

  /** `handleSaveEdit()`: renames the active chat to the trimmed name, unless
      the trimmed name is empty. */
  function SaveEdit(s: State, newChatName: string): seq<Action> {
    match GetActiveChat(s)
    case None => []
    case Some(c) => if Trim(newChatName) != "" then [RenameChat(c.id, Trim(newChatName))] else []
  }

  /** `handleDeleteChat()`, `confirmed` being the answer to the dialog. */
  function DeleteCurrentChat(s: State, confirmed: bool): seq<Action> {
    match GetActiveChat(s)
    case None => []
    case Some(c) => if confirmed then [DeleteChat(c.id)] else []
  }

  // ---------------------------------------------------------------------
  // Properties

  /** Sending does nothing exactly when the prompt is blank or no chat is
      active. */
  lemma SendGuard(s: State, promptText: string, outcome: Outcome, apiKey: string, now: string)
    ensures SendMessage(s, promptText, outcome, apiKey, now) == []
            <==> Trim(promptText) == "" || GetActiveChat(s).None?
  {
  }

  /** The prompt message comes first, then the placeholder; their ids are
      consecutive and new to the active chat. */
  lemma SendAllocatesFreshIds(s: State, promptText: string, outcome: Outcome, apiKey: string, now: string)
    requires GetActiveChat(s).Some? && Trim(promptText) != ""
    ensures var acts := SendMessage(s, promptText, outcome, apiKey, now);
      var c := GetActiveChat(s).value;
      && |acts| >= 4
      && acts[0].AddMessage? && acts[1].AddMessage?
      && acts[1].message.id == acts[0].message.id + 1
      && (forall j :: 0 <= j < |c.messages| ==>
            c.messages[j].id < acts[0].message.id && c.messages[j].id != acts[1].message.id)
      && (|c.messages| == 0 ==> acts[0].message.id == 1)
      && acts[0].message.fields.text == Some(promptText)
      && acts[1].message.fields.kind == Some("image")
      && acts[1].message.fields.isLoading == Some(true)
      && acts[1].message.fields.images == Some([])
      && acts[1].message.fields.promptText == Some(promptText)
      && acts[2] == SetLoading(true)
      && acts[3].UpdateImageMessage? && acts[3].messageId == acts[1].message.id
  {
    var c := GetActiveChat(s).value;
    SendShape(s, c, promptText, outcome, apiKey, now);
    SettleStartsWithUpdate(PromptId(c) + 1, outcome, apiKey, now);
    AnnouncedIdsAreFresh(c, promptText, Settle(PromptId(c) + 1, outcome, apiKey, now));
  }

  lemma SettleStartsWithUpdate(placeholderId: int, outcome: Outcome, apiKey: string, now: string)
    ensures var settle := Settle(placeholderId, outcome, apiKey, now);
      |settle| >= 1 && settle[0].UpdateImageMessage? && settle[0].messageId == placeholderId
  {
  }

  /** The opening actions of a send from chat `c`, followed by closing ones
      that start with an update of the placeholder. */
  lemma AnnouncedIdsAreFresh(c: Chat, promptText: string, settle: seq<Action>)
    requires |settle| >= 1 && settle[0].UpdateImageMessage? && settle[0].messageId == PromptId(c) + 1
    ensures var acts := Announce(c, promptText) + settle;
      && |acts| >= 4
      && acts[0].AddMessage? && acts[1].AddMessage?
      && acts[1].message.id == acts[0].message.id + 1
      && (forall j :: 0 <= j < |c.messages| ==>
            c.messages[j].id < acts[0].message.id && c.messages[j].id != acts[1].message.id)
      && (|c.messages| == 0 ==> acts[0].message.id == 1)
      && acts[0].message.fields.text == Some(promptText)
      && acts[1].message.fields.kind == Some("image")
      && acts[1].message.fields.isLoading == Some(true)
      && acts[1].message.fields.images == Some([])
      && acts[1].message.fields.promptText == Some(promptText)
      && acts[2] == SetLoading(true)
      && acts[3].UpdateImageMessage? && acts[3].messageId == acts[1].message.id
  {
    PromptIdIsFresh(c);
    assert (Announce(c, promptText) + settle)[3] == settle[0];
  }

  /** The prompt id is above every id in the chat, and 1 in an empty one. */
  lemma PromptIdIsFresh(c: Chat)
    ensures forall j :: 0 <= j < |c.messages| ==> c.messages[j].id < PromptId(c)
    ensures |c.messages| == 0 ==> PromptId(c) == 1
  {
    var ids := MessageIds(c.messages);
    forall j | 0 <= j < |c.messages|
      ensures c.messages[j].id < PromptId(c)
    {
      assert ids[j] == c.messages[j].id;
    }
  }

  /** With unique chat ids, ADD_MESSAGE changes exactly the active chat. */
  lemma AddMessageToActive(s: State, k: nat, m: Message)
    requires UniqueChatIds(s.chats) && k < |s.chats| && IsActive(s, s.chats[k])
    ensures Reduce(s, AddMessage(m)) == s.(chats := s.chats[k := s.chats[k].(messages := s.chats[k].messages + [m])])
  {
  }

  /** With unique chat ids, UPDATE_IMAGE_MESSAGE changes exactly the active
      chat. */
  lemma UpdateActive(s: State, k: nat, mid: int, updates: Fields, now: string)
    requires UniqueChatIds(s.chats) && k < |s.chats| && IsActive(s, s.chats[k])
    ensures Reduce(s, UpdateImageMessage(mid, updates, now))
            == s.(chats := s.chats[k := s.chats[k].(messages := UpdateMessages(s.chats[k].messages, mid, updates, now))])
  {
  }

  /** Replacing a chat by one with the same id keeps the ids unique. */
  lemma ReplaceKeepsUnique(chats: seq<Chat>, k: nat, c: Chat)
    requires UniqueChatIds(chats) && k < |chats| && c.id == chats[k].id
    ensures UniqueChatIds(chats[k := c])
  {
  }

  /** The placeholder is the only message the outcome's update reaches. */
  lemma UpdatePlaceholderOnly(c: Chat, promptText: string, updates: Fields, now: string)
    ensures var pid := PromptId(c);
      UpdateMessages(c.messages + [PromptMessage(pid, promptText), Placeholder(pid + 1, promptText)], pid + 1, updates, now)
      == c.messages + [PromptMessage(pid, promptText), UpdateMessage(Placeholder(pid + 1, promptText), pid + 1, updates, now)]
  {
    var pid := PromptId(c);
    var ms := c.messages + [PromptMessage(pid, promptText), Placeholder(pid + 1, promptText)];
    var r := UpdateMessages(ms, pid + 1, updates, now);
    forall j | 0 <= j < |c.messages|
      ensures r[j] == c.messages[j]
    {
      assert MessageIds(c.messages)[j] == c.messages[j].id;
    }
  }

  /** A send from an active chat with a non-blank prompt is the opening
      actions followed by the closing ones. */
  lemma SendShape(s: State, c: Chat, promptText: string, outcome: Outcome, apiKey: string, now: string)
    requires GetActiveChat(s) == Some(c) && Trim(promptText) != ""
    ensures SendMessage(s, promptText, outcome, apiKey, now) == Announce(c, promptText) + Settle(PromptId(c) + 1, outcome, apiKey, now)
  {
  }

  /** The state after the opening actions of a send. */
  lemma AnnounceEffect(s: State, k: nat, promptText: string)
    requires UniqueChatIds(s.chats) && FindChat(s.chats, s.activeChatId) == Some(k)
    ensures var c := s.chats[k];
      var pid := PromptId(c);
      Run(s, Announce(c, promptText))
      == s.(chats := s.chats[k := c.(messages := c.messages + [PromptMessage(pid, promptText), Placeholder(pid + 1, promptText)])],
            isLoading := true)
  {
    var c := s.chats[k];
    var pid := PromptId(c);
    var p := PromptMessage(pid, promptText);
    var h := Placeholder(pid + 1, promptText);
    assert Announce(c, promptText) == [AddMessage(p), AddMessage(h), SetLoading(true)];
    AddTwoThenLoading(s, k, p, h);
  }

  /** Two messages added to the active chat and the loading flag raised. */
  lemma AddTwoThenLoading(s: State, k: nat, p: Message, h: Message)
    requires UniqueChatIds(s.chats) && k < |s.chats| && IsActive(s, s.chats[k])
    ensures Run(s, [AddMessage(p), AddMessage(h), SetLoading(true)])
            == s.(chats := s.chats[k := s.chats[k].(messages := s.chats[k].messages + [p, h])], isLoading := true)
  {
    RunThree(s, AddMessage(p), AddMessage(h), SetLoading(true));
    LoadingAfterTwo(s, k, p, h);
  }

  lemma LoadingAfterTwo(s: State, k: nat, p: Message, h: Message)
    requires UniqueChatIds(s.chats) && k < |s.chats| && IsActive(s, s.chats[k])
    ensures Reduce(Reduce(Reduce(s, AddMessage(p)), AddMessage(h)), SetLoading(true))
            == s.(chats := s.chats[k := s.chats[k].(messages := s.chats[k].messages + [p, h])], isLoading := true)
  {
    AddTwoToActive(s, k, p, h);
  }

  /** Two messages added one after the other land, in order, at the end of
      the active chat. */
  lemma AddTwoToActive(s: State, k: nat, p: Message, h: Message)
    requires UniqueChatIds(s.chats) && k < |s.chats| && IsActive(s, s.chats[k])
    ensures Reduce(Reduce(s, AddMessage(p)), AddMessage(h))
            == s.(chats := s.chats[k := s.chats[k].(messages := s.chats[k].messages + [p, h])])
  {
    var c := s.chats[k];
    var c1 := c.(messages := c.messages + [p]);
    var c2 := c.(messages := c.messages + [p, h]);
    var s1 := s.(chats := s.chats[k := c1]);
    AddMessageToActive(s, k, p);
    ReplaceKeepsUnique(s.chats, k, c1);
    AddMessageToActive(s1, k, h);
    assert c1.(messages := c1.messages + [h]) == c2;
    UpdateTwice(s.chats, k, c1, c2);
  }


  /** The placeholder of a send from chat `c` as the outcome leaves it: on
      success it holds the one generated image and stops loading; on failure
      it holds the error text and is flagged as an error. */
  function Completed(c: Chat, promptText: string, outcome: Outcome, apiKey: string, now: string): Message {
    var id := PromptId(c) + 1;
    var f := Placeholder(id, promptText).fields;
    match outcome
    case Success(url) => Message(id, f.(url := Some(url), isLoading := Some(false), images := Some([Image(url, now)])))
    case Failure(m) => Message(id, f.(text := Some(FailureText(m, apiKey)), isLoading := Some(false), isError := Some(true)))
  }

  /** The closing actions complete the placeholder and nothing else. */
  lemma SettleEffect(s: State, k: nat, c: Chat, promptText: string, outcome: Outcome, apiKey: string, now: string)
    requires UniqueChatIds(s.chats) && k < |s.chats| && IsActive(s, s.chats[k])
    requires s.chats[k] == Announced(c, promptText)
    requires outcome.Success? ==> outcome.url != ""
    ensures Run(s, Settle(PromptId(c) + 1, outcome, apiKey, now))
            == s.(chats := s.chats[k := Settled(c, promptText, outcome, apiKey, now)],
                  isLoading := if outcome.Success? then false else s.isLoading)
  {
    var t := s.(chats := s.chats[k := Settled(c, promptText, outcome, apiKey, now)]);
    var update := UpdateImageMessage(PromptId(c) + 1, OutcomePatch(outcome, apiKey), now);
    if outcome.Success? {
      assert Settle(PromptId(c) + 1, outcome, apiKey, now) == [update, SetLoading(false)];
      RunTwo(s, update, SetLoading(false));
      CompleteThenStop(s, k, c, promptText, outcome, apiKey, now);
    } else {
      assert Settle(PromptId(c) + 1, outcome, apiKey, now) == [update];
      RunOne(s, update);
      CompletePlaceholder(s, k, c, promptText, outcome, apiKey, now);
    }
  }

  /** The patch the service's answer is turned into. */
  function OutcomePatch(outcome: Outcome, apiKey: string): Fields {
    match outcome
    case Success(url) => SuccessPatch(url)
    case Failure(m) => FailurePatch(m, apiKey)
  }

  /** The chat `c` with the prompt and the completed placeholder appended. */
  function Settled(c: Chat, promptText: string, outcome: Outcome, apiKey: string, now: string): Chat {
    c.(messages := c.messages + [PromptMessage(PromptId(c), promptText), Completed(c, promptText, outcome, apiKey, now)])
  }

  /** UPDATE_IMAGE_MESSAGE on the placeholder turns it into the completed
      message and touches nothing else. */
  lemma CompletePlaceholder(s: State, k: nat, c: Chat, promptText: string, outcome: Outcome, apiKey: string, now: string)
    requires UniqueChatIds(s.chats) && k < |s.chats| && IsActive(s, s.chats[k])
    requires s.chats[k] == Announced(c, promptText)
    requires outcome.Success? ==> outcome.url != ""
    ensures Reduce(s, UpdateImageMessage(PromptId(c) + 1, OutcomePatch(outcome, apiKey), now))
            == s.(chats := s.chats[k := Settled(c, promptText, outcome, apiKey, now)])
  {
    var pid := PromptId(c);
    var h := Placeholder(pid + 1, promptText);
    var patch := OutcomePatch(outcome, apiKey);
    UpdateActive(s, k, pid + 1, patch, now);
    UpdatePlaceholderOnly(c, promptText, patch, now);
    assert UpdateMessage(h, pid + 1, patch, now) == Completed(c, promptText, outcome, apiKey, now) by {
      if outcome.Success? {
        assert [] + [Image(outcome.url, now)] == [Image(outcome.url, now)];
      }
    }
  }

  /** After a success the placeholder is completed and loading stops. */
  lemma CompleteThenStop(s: State, k: nat, c: Chat, promptText: string, outcome: Outcome, apiKey: string, now: string)
    requires UniqueChatIds(s.chats) && k < |s.chats| && IsActive(s, s.chats[k])
    requires s.chats[k] == Announced(c, promptText)
    requires outcome.Success? && outcome.url != ""
    ensures Reduce(Reduce(s, UpdateImageMessage(PromptId(c) + 1, OutcomePatch(outcome, apiKey), now)), SetLoading(false))
            == s.(chats := s.chats[k := Settled(c, promptText, outcome, apiKey, now)], isLoading := false)
  {
    CompletePlaceholder(s, k, c, promptText, outcome, apiKey, now);
  }

  /** The chat `c` with the prompt and the loading placeholder appended. */
  function Announced(c: Chat, promptText: string): Chat {
    c.(messages := c.messages + [PromptMessage(PromptId(c), promptText), Placeholder(PromptId(c) + 1, promptText)])
  }

  /** Whatever follows the opening actions of a send runs on the announced
      state. */
  lemma AnnounceThen(s: State, k: nat, promptText: string, rest: seq<Action>)
    requires UniqueChatIds(s.chats) && FindChat(s.chats, s.activeChatId) == Some(k)
    ensures Run(s, Announce(s.chats[k], promptText) + rest)
            == Run(s.(chats := s.chats[k := Announced(s.chats[k], promptText)], isLoading := true), rest)
  {
    var c := s.chats[k];
    RunAppend(s, Announce(c, promptText), rest);
    AnnounceEffect(s, k, promptText);
  }

  /** A send adds the prompt and the completed placeholder to the active
      chat and changes nothing else. The loading flag ends cleared after a
      success but, the handler throwing before it can clear it, stays set
      after a failure. */
  lemma SendEffect(s: State, k: nat, promptText: string, outcome: Outcome, apiKey: string, now: string)
    requires UniqueChatIds(s.chats) && FindChat(s.chats, s.activeChatId) == Some(k)
    requires Trim(promptText) != ""
    requires outcome.Success? ==> outcome.url != ""
    ensures var c := s.chats[k];
      Run(s, SendMessage(s, promptText, outcome, apiKey, now))
      == s.(chats := s.chats[k := c.(messages := c.messages + [PromptMessage(PromptId(c), promptText),
                                                             Completed(c, promptText, outcome, apiKey, now)])],
            isLoading := outcome.Failure?)
  {
    var c := s.chats[k];
    assert GetActiveChat(s) == Some(c);
    SendShape(s, c, promptText, outcome, apiKey, now);
    AnnounceThen(s, k, promptText, Settle(PromptId(c) + 1, outcome, apiKey, now));
    SettleAfterAnnounce(s, k, promptText, outcome, apiKey, now);
  }

  /** The closing actions, run on the announced state, complete the
      placeholder; the loading flag stays set only after a failure. */
  lemma SettleAfterAnnounce(s: State, k: nat, promptText: string, outcome: Outcome, apiKey: string, now: string)
    requires UniqueChatIds(s.chats) && FindChat(s.chats, s.activeChatId) == Some(k)
    requires outcome.Success? ==> outcome.url != ""
    ensures var c := s.chats[k];
      Run(s.(chats := s.chats[k := Announced(c, promptText)], isLoading := true), Settle(PromptId(c) + 1, outcome, apiKey, now))
      == s.(chats := s.chats[k := Settled(c, promptText, outcome, apiKey, now)], isLoading := outcome.Failure?)
  {
    var c := s.chats[k];
    var s3 := s.(chats := s.chats[k := Announced(c, promptText)], isLoading := true);
    var done := Settled(c, promptText, outcome, apiKey, now);
    AnnouncedStateReady(s, k, promptText);
    SettleEffect(s3, k, c, promptText, outcome, apiKey, now);
    UpdateTwice(s.chats, k, Announced(c, promptText), done);
  }

  /** The announced state still has unique chat ids and the same active
      chat, now holding the announced messages. */
  lemma AnnouncedStateReady(s: State, k: nat, promptText: string)
    requires UniqueChatIds(s.chats) && FindChat(s.chats, s.activeChatId) == Some(k)
    ensures var s3 := s.(chats := s.chats[k := Announced(s.chats[k], promptText)], isLoading := true);
      && UniqueChatIds(s3.chats) && k < |s3.chats| && IsActive(s3, s3.chats[k])
      && s3.chats[k] == Announced(s.chats[k], promptText)
  {
    ReplaceKeepsUnique(s.chats, k, Announced(s.chats[k], promptText));
  }

  lemma UpdateTwice<T>(xs: seq<T>, k: nat, a: T, b: T)
    requires k < |xs|
    ensures xs[k := a][k := b] == xs[k := b]
  {
  }

  /** The completed placeholder keeps the placeholder's id; a success gives
      it exactly one image, a failure an error text starting "Error: " and
      no image. */
  lemma CompletedShape(c: Chat, promptText: string, outcome: Outcome, apiKey: string, now: string)
    ensures var m := Completed(c, promptText, outcome, apiKey, now);
      && m.id == PromptId(c) + 1
      && m.fields.isLoading == Some(false) && m.fields.promptText == Some(promptText)
      && (outcome.Success? ==> m.fields.images == Some([Image(outcome.url, now)]) && m.fields.url == Some(outcome.url)
                               && m.fields.isError.None?)
      && (outcome.Failure? ==> m.fields.images == Some([]) && m.fields.isError == Some(true)
                               && m.fields.text.Some? && "Error: " <= m.fields.text.value)
  {
  }

  /** With the failure path completed as intended, the loading flag is
      cleared and the error raised. */
  lemma SendIntendedClearsLoading(s: State, promptText: string, outcome: Outcome, apiKey: string, now: string)
    requires GetActiveChat(s).Some? && Trim(promptText) != ""
    ensures !Run(s, SendMessageIntended(s, promptText, outcome, apiKey, now)).isLoading
    ensures outcome.Failure? ==>
      Run(s, SendMessageIntended(s, promptText, outcome, apiKey, now)).error
      == Some("Error generating image: " + outcome.message)
  {
    var c := GetActiveChat(s).value;
    SendShape(s, c, promptText, outcome, apiKey, now);
    if outcome.Success? {
      IntendedSuccessEnds(s, c, promptText, outcome.url, apiKey, now);
    } else {
      IntendedFailureEnds(s, promptText, outcome.message, apiKey, now);
    }
  }

  lemma IntendedSuccessEnds(s: State, c: Chat, promptText: string, url: string, apiKey: string, now: string)
    requires SendMessage(s, promptText, Success(url), apiKey, now) == Announce(c, promptText) + Settle(PromptId(c) + 1, Success(url), apiKey, now)
    ensures !Run(s, SendMessageIntended(s, promptText, Success(url), apiKey, now)).isLoading
  {
    var update := UpdateImageMessage(PromptId(c) + 1, SuccessPatch(url), now);
    var announce := Announce(c, promptText);
    assert SendMessageIntended(s, promptText, Success(url), apiKey, now) == (announce + [update]) + [SetLoading(false)];
    RunThenSet(s, announce + [update], None, false, false);
  }

  lemma IntendedFailureEnds(s: State, promptText: string, m: string, apiKey: string, now: string)
    requires SendMessage(s, promptText, Failure(m), apiKey, now) != []
    ensures var r := Run(s, SendMessageIntended(s, promptText, Failure(m), apiKey, now));
      !r.isLoading && r.error == Some("Error generating image: " + m)
  {
    var written := SendMessage(s, promptText, Failure(m), apiKey, now);
    assert SendMessageIntended(s, promptText, Failure(m), apiKey, now)
           == written + [SetError(Some("Error generating image: " + m)), SetLoading(false)];
    RunThenSet(s, written, Some("Error generating image: " + m), false, true);
  }

  /** The message a successful regeneration leaves: loading and error flags
      cleared, one more image, the url and prompt text refreshed. */
  function Regenerated(m: Message, promptText: string, url: string, now: string): Message {
    Message(m.id, m.fields.(isLoading := Some(false), isError := Some(false), promptText := Some(promptText),
                            url := Some(url), images := Some(m.fields.images.GetOr([]) + [Image(url, now)])))
  }

  function MarkLoading(): Fields {
    Empty.(isLoading := Some(true), isError := Some(false))
  }

  function RegeneratePatch(url: string, promptText: string): Fields {
    Empty.(newImageUrl := Some(url), isLoading := Some(false), promptText := Some(promptText))
  }

  /** The two updates of a successful regeneration, on one message. */
  lemma RegenerateMessage(m: Message, mid: int, promptText: string, url: string, now: string)
    requires url != ""
    ensures UpdateMessage(m, mid, MarkLoading(), now).fields.images == m.fields.images
    ensures m.id == mid ==>
      UpdateMessage(m, mid, MarkLoading(), now).fields.isLoading == Some(true)
      && UpdateMessage(m, mid, MarkLoading(), now).fields.isError == Some(false)
    ensures UpdateMessage(UpdateMessage(m, mid, MarkLoading(), now), mid, RegeneratePatch(url, promptText), now)
            == if m.id == mid then Regenerated(m, promptText, url, now) else m
  {
  }

  /** Regeneration first marks the message as loading and clears its error
      flag without touching its images; on success it then appends exactly one
      image, refreshes the prompt text, and clears the loading flag. Messages
      with other ids and the other chats are unchanged. */
  lemma RegenerateSuccessEffect(s: State, promptText: string, mid: int, url: string, now: string)
    requires Trim(promptText) != "" && GetActiveChat(s).Some? && url != ""
    ensures var acts := RegenerateImage(s, promptText, mid, Success(url), now);
      var first := Reduce(s, acts[0]);
      var r := Run(s, acts);
      && |r.chats| == |s.chats| && |first.chats| == |s.chats|
      && (forall i :: 0 <= i < |s.chats| && !IsActive(s, s.chats[i]) ==> r.chats[i] == s.chats[i])
      && (forall i, j :: 0 <= i < |s.chats| && IsActive(s, s.chats[i]) && 0 <= j < |s.chats[i].messages| ==>
            && |first.chats[i].messages| == |s.chats[i].messages|
            && first.chats[i].messages[j].fields.images == s.chats[i].messages[j].fields.images
            && (s.chats[i].messages[j].id == mid ==>
                  first.chats[i].messages[j].fields.isLoading == Some(true)
                  && first.chats[i].messages[j].fields.isError == Some(false))
            && |r.chats[i].messages| == |s.chats[i].messages|
            && r.chats[i].messages[j]
               == if s.chats[i].messages[j].id == mid
                  then Regenerated(s.chats[i].messages[j], promptText, url, now)
                  else s.chats[i].messages[j])
      && !r.isLoading
  {
    RegenerateRun(s, promptText, mid, url, now);
    RegenerateUpdates(s, promptText, mid, url, now);
  }

  /** A successful regeneration is the loading mark, SET_LOADING(true), the
      regenerate patch and SET_LOADING(false). */
  lemma RegenerateRun(s: State, promptText: string, mid: int, url: string, now: string)
    requires Trim(promptText) != "" && GetActiveChat(s).Some?
    ensures var acts := RegenerateImage(s, promptText, mid, Success(url), now);
      var u1 := UpdateImageMessage(mid, MarkLoading(), now);
      var u2 := UpdateImageMessage(mid, RegeneratePatch(url, promptText), now);
      && |acts| == 4 && acts[0] == u1
      && Run(s, acts) == Reduce(Reduce(s, u1).(isLoading := true), u2).(isLoading := false)
  {
    var acts := RegenerateImage(s, promptText, mid, Success(url), now);
    var u1 := UpdateImageMessage(mid, MarkLoading(), now);
    var u2 := UpdateImageMessage(mid, RegeneratePatch(url, promptText), now);
    assert acts == [u1, SetLoading(true)] + [u2, SetLoading(false)];
    RunAppend(s, [u1, SetLoading(true)], [u2, SetLoading(false)]);
    RunTwo(s, u1, SetLoading(true));
    RunTwo(Reduce(s, u1).(isLoading := true), u2, SetLoading(false));
  }

  /** The two updates of a regeneration, chat by chat and message by
      message. */
  lemma RegenerateUpdates(s: State, promptText: string, mid: int, url: string, now: string)
    requires url != ""
    ensures var s1 := Reduce(s, UpdateImageMessage(mid, MarkLoading(), now));
      var s3 := Reduce(s1.(isLoading := true), UpdateImageMessage(mid, RegeneratePatch(url, promptText), now));
      && |s3.chats| == |s.chats| && |s1.chats| == |s.chats|
      && (forall i :: 0 <= i < |s.chats| && !IsActive(s, s.chats[i]) ==> s3.chats[i] == s.chats[i])
      && (forall i, j :: 0 <= i < |s.chats| && IsActive(s, s.chats[i]) && 0 <= j < |s.chats[i].messages| ==>
            && |s1.chats[i].messages| == |s.chats[i].messages|
            && s1.chats[i].messages[j] == UpdateMessage(s.chats[i].messages[j], mid, MarkLoading(), now)
            && |s3.chats[i].messages| == |s.chats[i].messages|
            && s3.chats[i].messages[j]
               == if s.chats[i].messages[j].id == mid
                  then Regenerated(s.chats[i].messages[j], promptText, url, now)
                  else s.chats[i].messages[j])
  {
    var s1 := Reduce(s, UpdateImageMessage(mid, MarkLoading(), now));
    var s3 := Reduce(s1.(isLoading := true), UpdateImageMessage(mid, RegeneratePatch(url, promptText), now));
    forall i, j | 0 <= i < |s.chats| && IsActive(s, s.chats[i]) && 0 <= j < |s.chats[i].messages|
      ensures s3.chats[i].messages[j]
              == if s.chats[i].messages[j].id == mid
                 then Regenerated(s.chats[i].messages[j], promptText, url, now)
                 else s.chats[i].messages[j]
    {
      RegenerateMessage(s.chats[i].messages[j], mid, promptText, url, now);
    }
  }

  /** The rename is dispatched only for a non-blank name, and stores the
      trimmed name on the active chat. */
  lemma SaveEditEffect(s: State, newChatName: string)
    ensures SaveEdit(s, newChatName) != [] <==> GetActiveChat(s).Some? && Trim(newChatName) != ""
    ensures GetActiveChat(s).Some? && Trim(newChatName) != "" ==>
      var r := Run(s, SaveEdit(s, newChatName));
      && |r.chats| == |s.chats|
      && forall i :: 0 <= i < |s.chats| ==>
           r.chats[i] == if IsActive(s, s.chats[i]) then s.chats[i].(name := Trim(newChatName)) else s.chats[i]
  {
    if GetActiveChat(s).Some? && Trim(newChatName) != "" {
      var c := GetActiveChat(s).value;
      RunOne(s, RenameChat(c.id, Trim(newChatName)));
    }
  }

  /** Deleting the current chat needs an active chat and the user's
      confirmation; it removes that chat and only that chat, and activates
      the first chat left. */
  lemma DeleteCurrentChatEffect(s: State, confirmed: bool)
    requires UniqueChatIds(s.chats)
    ensures DeleteCurrentChat(s, confirmed) != [] <==> GetActiveChat(s).Some? && confirmed
    ensures GetActiveChat(s).Some? && confirmed ==>
      var c := GetActiveChat(s).value;
      var r := Run(s, DeleteCurrentChat(s, confirmed));
      && (forall d :: d in r.chats <==> d in s.chats && d != c)
      && |r.chats| == |s.chats| - 1
      && (|r.chats| > 0 ==> r.activeChatId == Some(r.chats[0].id))
      && (|r.chats| == 0 ==> r.activeChatId == None)
  {
    if GetActiveChat(s).Some? && confirmed {
      var c := GetActiveChat(s).value;
      RunOne(s, DeleteChat(c.id));
      var k := FindChat(s.chats, s.activeChatId).value;
      RemoveUniqueChat(s.chats, k);
    }
  }

  // ---------------------------------------------------------------------
  // The update lands in whichever chat is active when the image arrives

  /** A chat A (active, empty) and a chat B whose second message has id 2. */
  const ChatA := Chat(1, "A", [])
  const BImage := Message(2, Placeholder(2, "dog").fields.(isLoading := Some(false), url := Some("blob:dog"),
                                                           images := Some([Image("blob:dog", "t0")])))
  const ChatB := Chat(2, "B", [PromptMessage(1, "dog"), BImage])
  const TwoChats := State([ChatA, ChatB], Some(1), false, None, DefaultSettings)

  /** As written: a prompt sent from chat A whose answer arrives after the
      user has switched to chat B. The resolved object is not a Blob, so the
      handler's `catch` writes the failure patch onto B's message with the
      placeholder's id: B's image is flagged as an error (keeping its
      picture), while A's placeholder and the page stay loading for good. */
  lemma ResultLandsInSwitchedChat(typeError: string, now: string)
    ensures var acts := SendMessage(TwoChats, "cat", OutcomeAsWritten(Resolved("blob:cat"), typeError), "", now);
      && |acts| == 4
      && var r := Run(TwoChats, acts[..3] + [SetActiveChat(Some(2))] + acts[3..]);
      && |r.chats| == 2 && |r.chats[0].messages| == 2 && |r.chats[1].messages| == 2
      && r.chats[0].messages[1].fields.isLoading == Some(true)
      && r.chats[1].messages[1].fields.isError == Some(true)
      && r.chats[1].messages[1].fields.text == Some(FailureText(typeError, ""))
      && r.chats[1].messages[1].fields.images == Some([Image("blob:dog", "t0")])
      && r.isLoading
  {
    SwitchedRunShape(OutcomeAsWritten(Resolved("blob:cat"), typeError), now);
    SwitchedFailureEnd(typeError, now);
  }

  /** Once the resolved object's `imageUrl` is used (the last finding
      corrected), the same switch makes the cat picture land on B's
      message, and A's placeholder still stays loading. */
  lemma ImageLandsInSwitchedChat(now: string)
    ensures var acts := SendMessage(TwoChats, "cat", OutcomeIntended(Resolved("blob:cat")), "", now);
      && |acts| == 5
      && var r := Run(TwoChats, acts[..3] + [SetActiveChat(Some(2))] + acts[3..]);
      && |r.chats| == 2 && |r.chats[0].messages| == 2 && |r.chats[1].messages| == 2
      && r.chats[0].messages[1].fields.isLoading == Some(true)
      && r.chats[1].messages[1].fields.images == Some([Image("blob:dog", "t0"), Image("blob:cat", now)])
  {
    var update := UpdateImageMessage(2, SuccessPatch("blob:cat"), now);
    SwitchedRunShape(Success("blob:cat"), now);
    assert [SetActiveChat(Some(2))] + Settle(2, Success("blob:cat"), "", now)
           == [SetActiveChat(Some(2)), update, SetLoading(false)];
    SwitchedRunEnd(now);
    BImageUpdated(now);
  }

  /** Chat A after the opening actions of the send of "cat", with the
      loading flag raised. */
  const AnnouncedA := ChatA.(messages := [PromptMessage(1, "cat"), Placeholder(2, "cat")])
  const AnnouncedTwoChats := TwoChats.(chats := [AnnouncedA, ChatB], isLoading := true)

  lemma SwitchedRunShape(outcome: Outcome, now: string)
    ensures var acts := SendMessage(TwoChats, "cat", outcome, "", now);
      && acts == Announce(ChatA, "cat") + Settle(2, outcome, "", now)
      && Run(TwoChats, acts[..3] + [SetActiveChat(Some(2))] + acts[3..])
         == Run(AnnouncedTwoChats, [SetActiveChat(Some(2))] + Settle(2, outcome, "", now))
  {
    assert !IsSpace("cat"[0]);
    assert Trim("cat") != "";
    assert FindChat(TwoChats.chats, Some(1)) == Some(0);
    assert GetActiveChat(TwoChats) == Some(ChatA);
    assert MessageIds(ChatA.messages) == [];
    assert PromptId(ChatA) == 1;
    var p := PromptMessage(1, "cat");
    var h := Placeholder(2, "cat");
    var first := Announce(ChatA, "cat");
    assert first == [AddMessage(p), AddMessage(h), SetLoading(true)];
    var rest := Settle(2, outcome, "", now);
    var acts := SendMessage(TwoChats, "cat", outcome, "", now);
    assert acts == first + rest;
    assert acts[..3] == first && acts[3..] == rest;
    assert acts[..3] + [SetActiveChat(Some(2))] + acts[3..] == first + ([SetActiveChat(Some(2))] + rest);
    RunAppend(TwoChats, first, [SetActiveChat(Some(2))] + rest);
    AnnounceEffect(TwoChats, 0, "cat");
    assert ChatA.messages + [p, h] == [p, h];
    assert TwoChats.chats[0 := AnnouncedA] == [AnnouncedA, ChatB];
    assert Run(TwoChats, first) == AnnouncedTwoChats;
  }

  lemma SwitchedFailureEnd(typeError: string, now: string)
    ensures Run(AnnouncedTwoChats, [SetActiveChat(Some(2))] + Settle(2, Failure(typeError), "", now))
            == AnnouncedTwoChats.(chats := [AnnouncedA, ChatB.(messages := [PromptMessage(1, "dog"), UpdateMessage(BImage, 2, FailurePatch(typeError, ""), now)])],
                                  activeChatId := Some(2))
  {
    var update := UpdateImageMessage(2, FailurePatch(typeError, ""), now);
    assert [SetActiveChat(Some(2))] + Settle(2, Failure(typeError), "", now) == [SetActiveChat(Some(2)), update];
    RunTwo(AnnouncedTwoChats, SetActiveChat(Some(2)), update);
    var s4 := AnnouncedTwoChats.(activeChatId := Some(2));
    ReplaceKeepsUnique(TwoChats.chats, 0, AnnouncedA);
    assert TwoChats.chats[0 := AnnouncedA] == AnnouncedTwoChats.chats;
    UpdateActive(s4, 1, 2, FailurePatch(typeError, ""), now);
    assert UpdateMessages(ChatB.messages, 2, FailurePatch(typeError, ""), now)
           == [PromptMessage(1, "dog"), UpdateMessage(BImage, 2, FailurePatch(typeError, ""), now)];
  }

  lemma SwitchedRunEnd(now: string)
    ensures Run(AnnouncedTwoChats, [SetActiveChat(Some(2)), UpdateImageMessage(2, SuccessPatch("blob:cat"), now), SetLoading(false)])
            == AnnouncedTwoChats.(chats := [AnnouncedA, ChatB.(messages := [PromptMessage(1, "dog"), UpdateMessage(BImage, 2, SuccessPatch("blob:cat"), now)])],
                                  activeChatId := Some(2), isLoading := false)
  {
    var update := UpdateImageMessage(2, SuccessPatch("blob:cat"), now);
    RunThree(AnnouncedTwoChats, SetActiveChat(Some(2)), update, SetLoading(false));
    var s4 := AnnouncedTwoChats.(activeChatId := Some(2));
    ReplaceKeepsUnique(TwoChats.chats, 0, AnnouncedA);
    assert TwoChats.chats[0 := AnnouncedA] == AnnouncedTwoChats.chats;
    UpdateActive(s4, 1, 2, SuccessPatch("blob:cat"), now);
    assert UpdateMessages(ChatB.messages, 2, SuccessPatch("blob:cat"), now)
           == [PromptMessage(1, "dog"), UpdateMessage(BImage, 2, SuccessPatch("blob:cat"), now)];
  }

  lemma BImageUpdated(now: string)
    ensures UpdateMessage(BImage, 2, SuccessPatch("blob:cat"), now).fields.images
            == Some([Image("blob:dog", "t0"), Image("blob:cat", now)])
  {
    assert [Image("blob:dog", "t0")] + [Image("blob:cat", now)] == [Image("blob:dog", "t0"), Image("blob:cat", now)];
  }

  /** The update as evidently intended: addressed to the chat the request
      was sent from, whatever chat is active by then. */
  function UpdateImageMessageIn(s: State, chatId: int, mid: int, updates: Fields, now: string): State {
    s.(chats := seq(|s.chats|, i requires 0 <= i < |s.chats| =>
      if s.chats[i].id == chatId
      then s.chats[i].(messages := UpdateMessages(s.chats[i].messages, mid, updates, now))
      else s.chats[i]))
  }

  /** The addressed update ignores the active chat and touches only the
      named chat, so switching chats mid-generation cannot misdirect it. */
  lemma UpdateInIgnoresActiveChat(s: State, other: Option<int>, chatId: int, mid: int, updates: Fields, now: string)
    ensures UpdateImageMessageIn(Reduce(s, SetActiveChat(other)), chatId, mid, updates, now).chats
            == UpdateImageMessageIn(s, chatId, mid, updates, now).chats
    ensures forall i :: 0 <= i < |s.chats| && s.chats[i].id != chatId ==>
              UpdateImageMessageIn(s, chatId, mid, updates, now).chats[i] == s.chats[i]
    ensures forall i :: 0 <= i < |s.chats| && s.chats[i].id == chatId && IsActive(s, s.chats[i]) ==>
              UpdateImageMessageIn(s, chatId, mid, updates, now).chats[i]
              == Reduce(s, UpdateImageMessage(mid, updates, now)).chats[i]
  {
  }

  // ---------------------------------------------------------------------
  // The prompt box never sees the loading flag

  /** As written, the page passes its loading flag as `isDisabled`, a prop
      the prompt box does not read; the box's `isLoading` is undefined. */
  function SubmitFromChatView(s: State, promptText: string): PromptInput.Submitted {
    PromptInput.Submit(promptText, false)
  }

  /** Passing the flag under the name the prompt box reads. */
  function SubmitFromChatViewIntended(s: State, promptText: string): PromptInput.Submitted {
    PromptInput.Submit(promptText, s.isLoading)
  }

  /** While an image is being generated the page still accepts a prompt. */
  lemma SubmitIgnoresLoading(s: State)
    requires s.isLoading
    ensures SubmitFromChatView(s, "cat").sent == Some("cat")
    ensures SubmitFromChatViewIntended(s, "cat").sent == None
  {
    assert !IsSpace("cat"[0]);
  }

  // ---------------------------------------------------------------------
  // The service's answer is not a Blob

  /** What `generateImage` settles to: the object `{imageUrl, imageBlob,
      success}` built around an object URL, or a rejection with a
      message. */
  datatype ServiceAnswer = Resolved(imageUrl: string) | Rejected(message: string)

  /** The outcome as the handlers compute it: they pass the resolved object
      to `URL.createObjectURL`, which accepts only a Blob or MediaSource, so
      the call throws a TypeError (whose message is `typeError`) and the
      handler takes its `catch` branch whatever the service answered. */
  function OutcomeAsWritten(answer: ServiceAnswer, typeError: string): (r: Outcome)
    ensures r.Failure?
    ensures answer.Rejected? ==> r.message == answer.message
    ensures answer.Resolved? ==> r.message == typeError
  {
    match answer
    case Resolved(_) => Failure(typeError)
    case Rejected(m) => Failure(m)
  }

  /** The outcome as evidently intended: the resolved object's `imageUrl`
      is the image to show. */
  function OutcomeIntended(answer: ServiceAnswer): (r: Outcome)
    ensures r.Success? <==> answer.Resolved?
    ensures answer.Resolved? ==> r.url == answer.imageUrl
    ensures answer.Rejected? ==> r == OutcomeAsWritten(answer, "")
  {
    match answer
    case Resolved(u) => Success(u)
    case Rejected(m) => Failure(m)
  }

  /** As written, a send whose image was generated still ends with the
      placeholder flagged as an error, no image, and the loading flag left
      set. */
  lemma SendAsWrittenNeverShowsImage(s: State, k: nat, promptText: string, imageUrl: string, typeError: string,
                                     apiKey: string, now: string)
    requires UniqueChatIds(s.chats) && FindChat(s.chats, s.activeChatId) == Some(k)
    requires Trim(promptText) != ""
    ensures var c := s.chats[k];
      var o := OutcomeAsWritten(Resolved(imageUrl), typeError);
      var r := Run(s, SendMessage(s, promptText, o, apiKey, now));
      && r.isLoading
      && r.chats == s.chats[k := Settled(c, promptText, o, apiKey, now)]
      && Completed(c, promptText, o, apiKey, now).fields.isError == Some(true)
      && Completed(c, promptText, o, apiKey, now).fields.images == Some([])
  {
    var o := OutcomeAsWritten(Resolved(imageUrl), typeError);
    SendEffect(s, k, promptText, o, apiKey, now);
    CompletedShape(s.chats[k], promptText, o, apiKey, now);
  }

  /** With the resolved object's `imageUrl` used, a generated image lands
      in the placeholder, which stops loading, and the loading flag is
      cleared. */
  lemma SendIntendedShowsImage(s: State, k: nat, promptText: string, imageUrl: string, apiKey: string, now: string)
    requires UniqueChatIds(s.chats) && FindChat(s.chats, s.activeChatId) == Some(k)
    requires Trim(promptText) != "" && imageUrl != ""
    ensures var c := s.chats[k];
      var o := OutcomeIntended(Resolved(imageUrl));
      var r := Run(s, SendMessage(s, promptText, o, apiKey, now));
      && !r.isLoading
      && r.chats == s.chats[k := Settled(c, promptText, o, apiKey, now)]
      && Completed(c, promptText, o, apiKey, now).fields.images == Some([Image(imageUrl, now)])
      && Completed(c, promptText, o, apiKey, now).fields.isError.None?
  {
    var o := OutcomeIntended(Resolved(imageUrl));
    SendEffect(s, k, promptText, o, apiKey, now);
    CompletedShape(s.chats[k], promptText, o, apiKey, now);
  }

  /** As written, a regeneration never adds an image: no update it
      dispatches carries a `newImageUrl`, and once it has run the message
      shows the variation error, keeps its images, and the loading flag is
      cleared. */
  lemma RegenerateAsWrittenAddsNoImage(s: State, promptText: string, messageId: int, answer: ServiceAnswer,
                                       typeError: string, now: string)
    ensures var acts := RegenerateImage(s, promptText, messageId, OutcomeAsWritten(answer, typeError), now);
      forall i :: 0 <= i < |acts| && acts[i].UpdateImageMessage? ==> acts[i].updates.newImageUrl.None?
    ensures Trim(promptText) != "" && GetActiveChat(s).Some? ==>
      var r := Run(s, RegenerateImage(s, promptText, messageId, OutcomeAsWritten(answer, typeError), now));
      && |r.chats| == |s.chats|
      && (forall i :: 0 <= i < |s.chats| && !IsActive(s, s.chats[i]) ==> r.chats[i] == s.chats[i])
      && (forall i, j :: 0 <= i < |s.chats| && IsActive(s, s.chats[i]) && 0 <= j < |s.chats[i].messages| ==>
            && |r.chats[i].messages| == |s.chats[i].messages|
            && (s.chats[i].messages[j].id != messageId ==> r.chats[i].messages[j] == s.chats[i].messages[j])
            && (s.chats[i].messages[j].id == messageId ==>
                  && r.chats[i].messages[j].fields.text == Some(VariationError)
                  && r.chats[i].messages[j].fields.isError == Some(true)
                  && r.chats[i].messages[j].fields.isLoading == Some(false)
                  && r.chats[i].messages[j].fields.images == s.chats[i].messages[j].fields.images))
      && !r.isLoading
  {
    if Trim(promptText) != "" && GetActiveChat(s).Some? {
      var o := OutcomeAsWritten(answer, typeError);
      RegenerateFailureRun(s, promptText, messageId, o.message, now);
      RegenerateFailureUpdates(s, messageId, now);
    }
  }

  /** A failed regeneration is the loading mark, SET_LOADING(true), the
      failure patch and SET_LOADING(false). */
  lemma RegenerateFailureRun(s: State, promptText: string, mid: int, message: string, now: string)
    requires Trim(promptText) != "" && GetActiveChat(s).Some?
    ensures var u1 := UpdateImageMessage(mid, MarkLoading(), now);
      var u2 := UpdateImageMessage(mid, VariationFailurePatch(), now);
      Run(s, RegenerateImage(s, promptText, mid, Failure(message), now))
      == Reduce(Reduce(s, u1).(isLoading := true), u2).(isLoading := false)
  {
    var acts := RegenerateImage(s, promptText, mid, Failure(message), now);
    var u1 := UpdateImageMessage(mid, MarkLoading(), now);
    var u2 := UpdateImageMessage(mid, VariationFailurePatch(), now);
    assert acts == [u1, SetLoading(true)] + [u2, SetLoading(false)];
    RunAppend(s, [u1, SetLoading(true)], [u2, SetLoading(false)]);
    RunTwo(s, u1, SetLoading(true));
    RunTwo(Reduce(s, u1).(isLoading := true), u2, SetLoading(false));
  }

  /** The two updates of a failed regeneration, chat by chat and message by
      message. */
  lemma RegenerateFailureUpdates(s: State, mid: int, now: string)
    ensures var s1 := Reduce(s, UpdateImageMessage(mid, MarkLoading(), now));
      var s3 := Reduce(s1.(isLoading := true), UpdateImageMessage(mid, VariationFailurePatch(), now));
      && |s3.chats| == |s.chats|
      && (forall i :: 0 <= i < |s.chats| && !IsActive(s, s.chats[i]) ==> s3.chats[i] == s.chats[i])
      && (forall i, j :: 0 <= i < |s.chats| && IsActive(s, s.chats[i]) && 0 <= j < |s.chats[i].messages| ==>
            && |s3.chats[i].messages| == |s.chats[i].messages|
            && s3.chats[i].messages[j]
               == if s.chats[i].messages[j].id == mid
                  then Message(mid, s.chats[i].messages[j].fields.(text := Some(VariationError), isLoading := Some(false),
                                                                    isError := Some(true)))
                  else s.chats[i].messages[j])
  {
  }
}
