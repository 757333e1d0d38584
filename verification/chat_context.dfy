/** The application state and its reducer (src/context/ChatContext.jsx):
    chats with their messages, the active chat, the global loading flag and
    error, and the generation settings, changed only by the nine actions of
    `chatReducer`. */
module ChatContext {
  import opened JsValues
  import opened JsStrings

  /** One generated variant of an image message: `{ url, timestamp }`. */
  datatype Image = Image(url: string, timestamp: string)

  /** The keys a message object carries in this code base, every one of them
      possibly absent. A patch passed to `updateImageMessage` has the same
      shape, None standing for a key the patch does not name. */
  datatype Fields = Fields(
    kind: Option<string>,        // `type`: 'prompt' or 'image'
    sender: Option<string>,
    text: Option<string>,
    url: Option<string>,
    promptText: Option<string>,
    isLoading: Option<bool>,
    isError: Option<bool>,
    images: Option<seq<Image>>,
    newImageUrl: Option<string>,
    timestamp: Option<string>,
    status: Option<string>)

  /** `{}` */
  const Empty := Fields(None, None, None, None, None, None, None, None, None, None, None)

  datatype Message = Message(id: int, fields: Fields)

  datatype Chat = Chat(id: int, name: string, messages: seq<Message>)

  datatype Settings = Settings(
    model: string,
    width: int,
    height: int,
    steps: int,
    safeMode: bool,
    hideWatermark: bool,
    cfgScale: real,
    stylePreset: string,
    negativePrompt: string)

  /** A partial settings object passed to `updateSettings`. */
  datatype SettingsPatch = SettingsPatch(
    model: Option<string>,
    width: Option<int>,
    height: Option<int>,
    steps: Option<int>,
    safeMode: Option<bool>,
    hideWatermark: Option<bool>,
    cfgScale: Option<real>,
    stylePreset: Option<string>,
    negativePrompt: Option<string>)

  const NoSettings := SettingsPatch(None, None, None, None, None, None, None, None, None)

  datatype State = State(
    chats: seq<Chat>,
    activeChatId: Option<int>,
    isLoading: bool,
    error: Option<string>,
    settings: Settings)

  /** The actions `chatReducer` understands; `Unrecognized` stands for any
      other action type, which leaves the state as it is. */
  datatype Action =
    | SetActiveChat(chatId: Option<int>)
    | AddChat(chat: Chat)
    | DeleteChat(deleteId: int)
    | RenameChat(renameId: int, newName: string)
    | AddMessage(message: Message)
    | SetLoading(loading: bool)
    | SetError(errorText: Option<string>)
    | UpdateImageMessage(messageId: int, updates: Fields, now: string)
    | UpdateSettings(patch: SettingsPatch)
    | Unrecognized

  const DefaultNegativePrompt := "blurry, low quality, bad anatomy, worst quality, deformed, ugly, text, watermark, signature"

  const DefaultSettings := Settings("venice-sd35", 1024, 1024, 30, false, true, 7.0, "Photographic", DefaultNegativePrompt)

  /** `initialState`: no chats, none active, not loading, no error. */
  const InitialState := State([], None, false, None, DefaultSettings)

  // ---------------------------------------------------------------------
  // Shallow merges

  function Pick<T>(patch: Option<T>, current: Option<T>): Option<T> {
    if patch.Some? then patch else current
  }

  /** `{ ...fields, ...patch }` */
  function Spread(fields: Fields, patch: Fields): Fields {
    Fields(
      Pick(patch.kind, fields.kind),
      Pick(patch.sender, fields.sender),
      Pick(patch.text, fields.text),
      Pick(patch.url, fields.url),
      Pick(patch.promptText, fields.promptText),
      Pick(patch.isLoading, fields.isLoading),
      Pick(patch.isError, fields.isError),
      Pick(patch.images, fields.images),
      Pick(patch.newImageUrl, fields.newImageUrl),
      Pick(patch.timestamp, fields.timestamp),
      Pick(patch.status, fields.status))
  }

  function PickValue<T>(patch: Option<T>, current: T): T {
    if patch.Some? then patch.value else current
  }

  /** `{ ...settings, ...patch }` */
  function MergeSettings(settings: Settings, patch: SettingsPatch): Settings {
    Settings(
      PickValue(patch.model, settings.model),
      PickValue(patch.width, settings.width),
      PickValue(patch.height, settings.height),
      PickValue(patch.steps, settings.steps),
      PickValue(patch.safeMode, settings.safeMode),
      PickValue(patch.hideWatermark, settings.hideWatermark),
      PickValue(patch.cfgScale, settings.cfgScale),
      PickValue(patch.stylePreset, settings.stylePreset),
      PickValue(patch.negativePrompt, settings.negativePrompt))
  }

  /** `{ ...first, ...second }` for two patches. */
  function ComposePatches(first: SettingsPatch, second: SettingsPatch): SettingsPatch {
    SettingsPatch(
      Pick(second.model, first.model),
      Pick(second.width, first.width),
      Pick(second.height, first.height),
      Pick(second.steps, first.steps),
      Pick(second.safeMode, first.safeMode),
      Pick(second.hideWatermark, first.hideWatermark),
      Pick(second.cfgScale, first.cfgScale),
      Pick(second.stylePreset, first.stylePreset),
      Pick(second.negativePrompt, first.negativePrompt))
  }

  // ---------------------------------------------------------------------
  // Identifiers

  /** `ids.length > 0 ? Math.max(...ids) + 1 : 1`: larger than every id
      present, and one more than the largest. */
  function NextId(ids: seq<int>): (r: int)
    ensures forall i :: 0 <= i < |ids| ==> ids[i] < r
    ensures |ids| == 0 ==> r == 1
    ensures |ids| > 0 ==> r - 1 in ids
    decreases |ids|
  {
    if |ids| == 0 then 1
    else
      var rest := NextId(ids[1..]);
      if |ids| == 1 || ids[0] + 1 >= rest then ids[0] + 1 else rest
  }

  function ChatIds(chats: seq<Chat>): (r: seq<int>)
    ensures |r| == |chats|
    ensures forall i :: 0 <= i < |chats| ==> r[i] == chats[i].id
  {
    seq(|chats|, i requires 0 <= i < |chats| => chats[i].id)
  }

  function MessageIds(messages: seq<Message>): (r: seq<int>)
    ensures |r| == |messages|
    ensures forall i :: 0 <= i < |messages| ==> r[i] == messages[i].id
  {
    seq(|messages|, i requires 0 <= i < |messages| => messages[i].id)
  }

  predicate UniqueChatIds(chats: seq<Chat>) {
    forall i, j :: 0 <= i < |chats| && 0 <= j < |chats| && i != j ==> chats[i].id != chats[j].id
  }

  // ---------------------------------------------------------------------
  // Lookups

  /** `chats.findIndex(c => c.id === id)`, absent when no chat matches. */
  function FindChat(chats: seq<Chat>, id: Option<int>): (r: Option<nat>)
    ensures r.Some? ==> r.value < |chats| && Some(chats[r.value].id) == id
    ensures r.Some? ==> forall j :: 0 <= j < r.value ==> Some(chats[j].id) != id
    ensures r.None? ==> forall j :: 0 <= j < |chats| ==> Some(chats[j].id) != id
    decreases |chats|
  {
    if |chats| == 0 then None
    else if Some(chats[0].id) == id then Some(0)
    else match FindChat(chats[1..], id)
      case None => None
      case Some(k) => Some(k + 1)
  }

  /** `getActiveChat()`: the first chat whose id is the active id. */
  function GetActiveChat(s: State): (r: Option<Chat>)
    ensures r.Some? <==> exists i :: 0 <= i < |s.chats| && Some(s.chats[i].id) == s.activeChatId
    ensures r.Some? ==> r.value in s.chats && Some(r.value.id) == s.activeChatId
    ensures r.Some? ==>
      exists k :: 0 <= k < |s.chats| && r.value == s.chats[k] && (forall j :: 0 <= j < k ==> Some(s.chats[j].id) != s.activeChatId)
  {
    match FindChat(s.chats, s.activeChatId)
    case None => None
    case Some(k) => Some(s.chats[k])
  }

  predicate IsActive(s: State, c: Chat) {
    s.activeChatId == Some(c.id)
  }

  // ---------------------------------------------------------------------
  // The reducer

  /** `chats.filter(chat => chat.id !== id)` */
  function RemoveChat(chats: seq<Chat>, id: int): (r: seq<Chat>)
    ensures forall c :: c in r <==> c in chats && c.id != id
    ensures |r| <= |chats|
    ensures (forall i :: 0 <= i < |chats| ==> chats[i].id != id) ==> r == chats
    decreases |chats|
  {
    if |chats| == 0 then []
    else if chats[0].id == id then RemoveChat(chats[1..], id)
    else [chats[0]] + RemoveChat(chats[1..], id)
  }

  /** The filter keeps the other chats in their order, each as often as
      before. */
  lemma {:induction false} RemoveChatKeepsOrder(chats: seq<Chat>, id: int)
    ensures IsSubsequence(RemoveChat(chats, id), chats)
    ensures forall c :: multiset(RemoveChat(chats, id))[c] == if c.id != id then multiset(chats)[c] else 0
    decreases |chats|
  {
    if |chats| > 0 {
      RemoveChatKeepsOrder(chats[1..], id);
      var rest := RemoveChat(chats[1..], id);
      assert chats == [chats[0]] + chats[1..];
      if chats[0].id == id {
        assert |rest| > 0 ==> rest[0] in rest;
      } else {
        assert ([chats[0]] + rest)[1..] == rest;
      }
    }
  }

  /** The new value of one message under `UPDATE_IMAGE_MESSAGE`. A truthy
      `newImageUrl` appends one image and becomes the `url`; the key itself
      is dropped from the patch. Any other patch is spread over the message. */
  function UpdateMessage(m: Message, messageId: int, updates: Fields, now: string): Message {
    if m.id != messageId then m
    else if Truthy(updates.newImageUrl) then
      var url := updates.newImageUrl.value;
      var merged := Spread(m.fields, updates.(newImageUrl := None));
      Message(m.id, merged.(images := Some(m.fields.images.GetOr([]) + [Image(url, now)]), url := Some(url)))
    else
      Message(m.id, Spread(m.fields, updates))
  }

  /** The messages after `messages.map(...)`: same length and ids, the
      messages with another id untouched, and the list unchanged when no
      message has the id. */
  function UpdateMessages(messages: seq<Message>, messageId: int, updates: Fields, now: string): (r: seq<Message>)
    ensures |r| == |messages|
    ensures forall i :: 0 <= i < |messages| ==> r[i] == UpdateMessage(messages[i], messageId, updates, now)
    ensures forall i :: 0 <= i < |messages| ==> r[i].id == messages[i].id
    ensures forall i :: 0 <= i < |messages| && messages[i].id != messageId ==> r[i] == messages[i]
    ensures (forall i :: 0 <= i < |messages| ==> messages[i].id != messageId) ==> r == messages
  {
    seq(|messages|, i requires 0 <= i < |messages| => UpdateMessage(messages[i], messageId, updates, now))
  }

  function Reduce(s: State, a: Action): State {
    match a
    case SetActiveChat(id) => s.(activeChatId := id)
    case AddChat(c) => s.(chats := s.chats + [c], activeChatId := Some(c.id))
    case DeleteChat(id) =>
      var remaining := RemoveChat(s.chats, id);
      s.(chats := remaining, activeChatId := if |remaining| > 0 then Some(remaining[0].id) else None)
    case RenameChat(id, name) =>
      s.(chats := seq(|s.chats|, i requires 0 <= i < |s.chats| =>
        if s.chats[i].id == id then s.chats[i].(name := name) else s.chats[i]))
    case AddMessage(m) =>
      s.(chats := seq(|s.chats|, i requires 0 <= i < |s.chats| =>
        if IsActive(s, s.chats[i]) then s.chats[i].(messages := s.chats[i].messages + [m]) else s.chats[i]))
    case SetLoading(b) => s.(isLoading := b)
    case SetError(e) => s.(error := e)
    case UpdateImageMessage(mid, updates, now) =>
      s.(chats := seq(|s.chats|, i requires 0 <= i < |s.chats| =>
        if IsActive(s, s.chats[i])
        then s.chats[i].(messages := UpdateMessages(s.chats[i].messages, mid, updates, now))
        else s.chats[i]))
    case UpdateSettings(p) => s.(settings := MergeSettings(s.settings, p))
    case Unrecognized => s
  }

  /** Dispatches the actions one after the other. */
  function Run(s: State, actions: seq<Action>): State
    decreases |actions|
  {
    if |actions| == 0 then s else Run(Reduce(s, actions[0]), actions[1..])
  }

  lemma {:induction false} RunAppend(s: State, xs: seq<Action>, ys: seq<Action>)
    ensures Run(s, xs + ys) == Run(Run(s, xs), ys)
    decreases |xs|
  {
    if |xs| == 0 {
      assert xs + ys == ys;
    } else {
      assert (xs + ys)[0] == xs[0];
      assert (xs + ys)[1..] == xs[1..] + ys;
      RunAppend(Reduce(s, xs[0]), xs[1..], ys);
    }
  }

  lemma RunOne(s: State, a: Action)
    ensures Run(s, [a]) == Reduce(s, a)
  {
    assert [a][1..] == [];
  }

  lemma RunTwo(s: State, a: Action, b: Action)
    ensures Run(s, [a, b]) == Reduce(Reduce(s, a), b)
  {
    assert [a, b][1..] == [b];
    RunOne(Reduce(s, a), b);
  }

  lemma RunThree(s: State, a: Action, b: Action, c: Action)
    ensures Run(s, [a, b, c]) == Reduce(Reduce(Reduce(s, a), b), c)
  {
    assert [a, b, c][1..] == [b, c];
    RunTwo(Reduce(s, a), b, c);
  }

  /** Ending a run with SET_LOADING (and, when `withError`, SET_ERROR just
      before it) leaves those values. */
  lemma RunThenSet(s: State, xs: seq<Action>, e: Option<string>, b: bool, withError: bool)
    ensures !withError ==> Run(s, xs + [SetLoading(b)]).isLoading == b
    ensures withError ==> Run(s, xs + [SetError(e), SetLoading(b)]).isLoading == b
    ensures withError ==> Run(s, xs + [SetError(e), SetLoading(b)]).error == e
  {
    if withError {
      RunAppend(s, xs, [SetError(e), SetLoading(b)]);
      RunTwo(Run(s, xs), SetError(e), SetLoading(b));
    } else {
      RunAppend(s, xs, [SetLoading(b)]);
      RunOne(Run(s, xs), SetLoading(b));
    }
  }

  // ---------------------------------------------------------------------
  // createNewChat

  datatype Created = Created(newId: int, state: State)

  /** The chat `createNewChat` builds. */
  function NewChat(chats: seq<Chat>, customName: Option<string>): Chat {
    var id := NextId(ChatIds(chats));
    Chat(id, OrElse(customName, "New Chat " + IntToString(id)), [])
  }

  /** `createNewChat(customName)`: dispatches ADD_CHAT with a chat whose id
      is one more than the largest id present (1 for the first chat) and
      returns that id. The new chat comes last, is empty and is active. */
  function CreateNewChat(s: State, customName: Option<string>): (r: Created)
    ensures forall i :: 0 <= i < |s.chats| ==> s.chats[i].id < r.newId
    ensures |s.chats| == 0 ==> r.newId == 1
    ensures |r.state.chats| == |s.chats| + 1 && r.state.chats[..|s.chats|] == s.chats
    ensures r.state.chats[|s.chats|]
            == Chat(r.newId, if Truthy(customName) then customName.value else "New Chat " + IntToString(r.newId), [])
    ensures r.state.activeChatId == Some(r.newId)
    ensures r.state.settings == s.settings && r.state.isLoading == s.isLoading && r.state.error == s.error
  {
    var c := NewChat(s.chats, customName);
    Created(c.id, Reduce(s, AddChat(c)))
  }

  /** Creating a chat keeps chat ids unique, so `getActiveChat` then finds
      exactly the new chat. */
  lemma CreateNewChatKeepsIdsUnique(s: State, customName: Option<string>)
    requires UniqueChatIds(s.chats)
    ensures UniqueChatIds(CreateNewChat(s, customName).state.chats)
    ensures GetActiveChat(CreateNewChat(s, customName).state)
            == Some(Chat(CreateNewChat(s, customName).newId, NewChat(s.chats, customName).name, []))
  {
    var c := NewChat(s.chats, customName);
    AddChatAppends(s, c);
    NewChatIsFresh(s.chats, customName);
    AppendFreshChat(s.chats, c);
  }

  /** The new chat's id is above every id present. */
  lemma NewChatIsFresh(chats: seq<Chat>, customName: Option<string>)
    ensures forall i :: 0 <= i < |chats| ==> chats[i].id < NewChat(chats, customName).id
  {
    var ids := ChatIds(chats);
    forall i | 0 <= i < |chats|
      ensures chats[i].id < NewChat(chats, customName).id
    {
      assert ids[i] == chats[i].id;
    }
  }

  /** A chat whose id is above every id present keeps the ids unique and is
      found, last, by its id. */
  lemma AppendFreshChat(chats: seq<Chat>, c: Chat)
    requires UniqueChatIds(chats)
    requires forall i :: 0 <= i < |chats| ==> chats[i].id < c.id
    ensures UniqueChatIds(chats + [c])
    ensures FindChat(chats + [c], Some(c.id)) == Some(|chats|)
  {
    var all := chats + [c];
    assert forall i :: 0 <= i < |chats| ==> all[i] == chats[i];
    assert all[|chats|].id == c.id;
  }

  // ---------------------------------------------------------------------
  // Properties of the individual actions

  /** ADD_CHAT appends the payload and activates its id; nothing else
      changes. */
  lemma AddChatAppends(s: State, c: Chat)
    ensures Reduce(s, AddChat(c)) == s.(chats := s.chats + [c], activeChatId := Some(c.id))
    ensures |Reduce(s, AddChat(c)).chats| == |s.chats| + 1
    ensures var r := Reduce(s, AddChat(c));
      r.chats[..|s.chats|] == s.chats && r.chats[|s.chats|] == c && IsActive(r, c)
    ensures (forall i :: 0 <= i < |s.chats| ==> s.chats[i].id != c.id) ==> GetActiveChat(Reduce(s, AddChat(c))) == Some(c)
  {
    var r := Reduce(s, AddChat(c));
    assert r.chats[..|s.chats|] == s.chats;
    if forall i :: 0 <= i < |s.chats| ==> s.chats[i].id != c.id {
      assert r.chats[|s.chats|] == c;
      match FindChat(r.chats, r.activeChatId)
      case None =>
      case Some(k) => assert k == |s.chats|;
    }
  }

  /** DELETE_CHAT drops every chat with the id, keeps the others in order,
      and activates the first remaining chat (or none), whether or not the
      deleted chat was the active one, or existed at all. */
  lemma DeleteChatEffect(s: State, id: int)
    ensures var r := Reduce(s, DeleteChat(id));
      && r.chats == RemoveChat(s.chats, id)
      && (forall c :: c in r.chats <==> c in s.chats && c.id != id)
      && (|r.chats| > 0 ==> r.activeChatId == Some(r.chats[0].id))
      && (|r.chats| == 0 ==> r.activeChatId == None)
      && r.settings == s.settings && r.isLoading == s.isLoading && r.error == s.error
  {
  }

  /** Deleting a chat the list does not hold still resets the active chat to
      the first one. */
  lemma DeleteUnknownChatResetsActive(s: State, id: int)
    requires forall i :: 0 <= i < |s.chats| ==> s.chats[i].id != id
    requires |s.chats| > 0
    ensures Reduce(s, DeleteChat(id)).chats == s.chats
    ensures Reduce(s, DeleteChat(id)).activeChatId == Some(s.chats[0].id)
  {
  }

  /** RENAME_CHAT renames the matching chats and nothing else; an unknown id
      leaves the state unchanged. */
  lemma RenameChatEffect(s: State, id: int, name: string)
    ensures var r := Reduce(s, RenameChat(id, name));
      && |r.chats| == |s.chats|
      && (forall i :: 0 <= i < |s.chats| ==>
            r.chats[i] == if s.chats[i].id == id then s.chats[i].(name := name) else s.chats[i])
      && r.activeChatId == s.activeChatId && r.settings == s.settings
    ensures (forall i :: 0 <= i < |s.chats| ==> s.chats[i].id != id) ==> Reduce(s, RenameChat(id, name)) == s
  {
    var r := Reduce(s, RenameChat(id, name));
    if forall i :: 0 <= i < |s.chats| ==> s.chats[i].id != id {
      assert r.chats == s.chats;
    }
  }

  /** SET_ACTIVE_CHAT replaces the active id and nothing else, without
      checking that a chat has that id. */
  lemma SetActiveChatEffect(s: State, id: Option<int>)
    ensures Reduce(s, SetActiveChat(id)) == s.(activeChatId := id)
    ensures Reduce(s, SetActiveChat(id)).chats == s.chats
    ensures Reduce(Reduce(s, SetActiveChat(id)), SetActiveChat(s.activeChatId)) == s
    ensures (forall i :: 0 <= i < |s.chats| ==> Some(s.chats[i].id) != id) ==> GetActiveChat(Reduce(s, SetActiveChat(id))).None?
  {
  }

  /** Selecting a chat of a list with unique ids makes it the active
      chat. */
  lemma SelectChatFindsIt(s: State, k: nat)
    requires UniqueChatIds(s.chats) && k < |s.chats|
    ensures GetActiveChat(Reduce(s, SetActiveChat(Some(s.chats[k].id)))) == Some(s.chats[k])
  {
    var r := Reduce(s, SetActiveChat(Some(s.chats[k].id)));
    match FindChat(r.chats, r.activeChatId)
    case None =>
    case Some(j) => assert j == k;
  }

  /** ADD_MESSAGE appends the message to the chats whose id is the active
      id; without such a chat the chat list is unchanged. */
  lemma AddMessageEffect(s: State, m: Message)
    ensures var r := Reduce(s, AddMessage(m));
      && |r.chats| == |s.chats|
      && (forall i :: 0 <= i < |s.chats| ==>
            r.chats[i] == if IsActive(s, s.chats[i]) then s.chats[i].(messages := s.chats[i].messages + [m]) else s.chats[i])
      && r.activeChatId == s.activeChatId && r.settings == s.settings
    ensures GetActiveChat(s).None? ==> Reduce(s, AddMessage(m)) == s
  {
    var r := Reduce(s, AddMessage(m));
    if GetActiveChat(s).None? {
      assert r.chats == s.chats;
    }
  }

  /** With a truthy `newImageUrl`, the target message gets exactly one more
      image (the old ones, or none, followed by `{url, timestamp}`), the url
      becomes the new url, the other named keys are merged, and
      `newImageUrl` is not stored. */
  lemma UpdateAppendsOneImage(m: Message, updates: Fields, now: string)
    requires Truthy(updates.newImageUrl)
    ensures var r := UpdateMessage(m, m.id, updates, now);
      var prior := m.fields.images.GetOr([]);
      && r.id == m.id
      && r.fields.images.Some?
      && |r.fields.images.value| == |prior| + 1
      && r.fields.images.value[..|prior|] == prior
      && r.fields.images.value[|prior|] == Image(updates.newImageUrl.value, now)
      && r.fields.url == updates.newImageUrl
      && r.fields.newImageUrl == m.fields.newImageUrl
      && r.fields == Spread(m.fields, updates.(newImageUrl := None)).(images := r.fields.images, url := r.fields.url)
  {
  }

  /** Without a truthy `newImageUrl` the update is a plain shallow merge,
      which may overwrite `images` wholesale. */
  lemma UpdateWithoutNewImageMerges(m: Message, updates: Fields, now: string)
    requires !Truthy(updates.newImageUrl)
    ensures UpdateMessage(m, m.id, updates, now) == Message(m.id, Spread(m.fields, updates))
    ensures updates.images.Some? ==> UpdateMessage(m, m.id, updates, now).fields.images == updates.images
    ensures var r := UpdateMessage(m, m.id, updates, now);
      && r.id == m.id
      && (updates.text.Some? ==> r.fields.text == updates.text)
      && (updates.text.None? ==> r.fields.text == m.fields.text)
      && (updates.images.None? ==> r.fields.images == m.fields.images)
      && UpdateMessage(r, m.id, updates, now) == r
    ensures updates == Empty ==> UpdateMessage(m, m.id, updates, now) == m
  {
  }

  /** UPDATE_IMAGE_MESSAGE touches only messages with the given id inside
      the chats whose id is the active id; when no such message exists the
      state is unchanged. */
  lemma UpdateImageMessageFrame(s: State, mid: int, updates: Fields, now: string)
    ensures var r := Reduce(s, UpdateImageMessage(mid, updates, now));
      && |r.chats| == |s.chats|
      && (forall i :: 0 <= i < |s.chats| && !IsActive(s, s.chats[i]) ==> r.chats[i] == s.chats[i])
      && (forall i :: 0 <= i < |s.chats| ==>
            r.chats[i].id == s.chats[i].id && r.chats[i].name == s.chats[i].name
            && |r.chats[i].messages| == |s.chats[i].messages|)
      && (forall i, j :: 0 <= i < |s.chats| && 0 <= j < |s.chats[i].messages| && s.chats[i].messages[j].id != mid ==>
            r.chats[i].messages[j] == s.chats[i].messages[j])
      && r.activeChatId == s.activeChatId && r.settings == s.settings
      && r.isLoading == s.isLoading && r.error == s.error
    ensures (forall i, j :: 0 <= i < |s.chats| && 0 <= j < |s.chats[i].messages| && IsActive(s, s.chats[i])
               ==> s.chats[i].messages[j].id != mid)
            ==> Reduce(s, UpdateImageMessage(mid, updates, now)) == s
  {
    var r := Reduce(s, UpdateImageMessage(mid, updates, now));
    if forall i, j :: 0 <= i < |s.chats| && 0 <= j < |s.chats[i].messages| && IsActive(s, s.chats[i])
         ==> s.chats[i].messages[j].id != mid {
      forall i | 0 <= i < |s.chats|
        ensures r.chats[i] == s.chats[i]
      {
        if IsActive(s, s.chats[i]) {
          assert r.chats[i].messages == s.chats[i].messages;
        }
      }
      assert r.chats == s.chats;
    }
  }

  /** The images of a message never shrink under an update that either
      appends through `newImageUrl` or does not name `images`: the old list
      is a prefix of the new one. */
  lemma UpdateKeepsImagesPrefix(s: State, mid: int, updates: Fields, now: string, i: int, j: int)
    requires Truthy(updates.newImageUrl) || updates.images.None?
    requires 0 <= i < |s.chats| && 0 <= j < |s.chats[i].messages|
    ensures var r := Reduce(s, UpdateImageMessage(mid, updates, now));
      var before := s.chats[i].messages[j].fields.images.GetOr([]);
      var after := r.chats[i].messages[j].fields.images.GetOr([]);
      before <= after && |after| <= |before| + 1
  {
  }

  /** The patch names only values the settings already hold. */
  predicate Agrees(p: SettingsPatch, st: Settings) {
    && (p.model.Some? ==> p.model.value == st.model)
    && (p.width.Some? ==> p.width.value == st.width)
    && (p.height.Some? ==> p.height.value == st.height)
    && (p.steps.Some? ==> p.steps.value == st.steps)
    && (p.safeMode.Some? ==> p.safeMode.value == st.safeMode)
    && (p.hideWatermark.Some? ==> p.hideWatermark.value == st.hideWatermark)
    && (p.cfgScale.Some? ==> p.cfgScale.value == st.cfgScale)
    && (p.stylePreset.Some? ==> p.stylePreset.value == st.stylePreset)
    && (p.negativePrompt.Some? ==> p.negativePrompt.value == st.negativePrompt)
  }

  /** UPDATE_SETTINGS changes only the settings; afterwards every named
      field holds the patch's value, and the settings are unchanged exactly
      when the patch agrees with them already. */
  lemma UpdateSettingsEffect(s: State, p: SettingsPatch)
    ensures Reduce(s, UpdateSettings(p)) == s.(settings := Reduce(s, UpdateSettings(p)).settings)
    ensures Agrees(p, Reduce(s, UpdateSettings(p)).settings)
    ensures Reduce(s, UpdateSettings(p)) == s <==> Agrees(p, s.settings)
  {
  }

  /** Applying the same settings patch twice equals applying it once, and
      two patches in a row equal their composition. */
  lemma UpdateSettingsIdempotent(s: State, p: SettingsPatch, q: SettingsPatch)
    ensures Reduce(Reduce(s, UpdateSettings(p)), UpdateSettings(p)) == Reduce(s, UpdateSettings(p))
    ensures Reduce(Reduce(s, UpdateSettings(p)), UpdateSettings(q)) == Reduce(s, UpdateSettings(ComposePatches(p, q)))
  {
    MergeIdempotent(s.settings, p, q);
  }

  /** Merging a patch twice is merging it once; merging two patches one
      after the other is merging their composition. */
  lemma MergeIdempotent(st: Settings, p: SettingsPatch, q: SettingsPatch)
    ensures MergeSettings(MergeSettings(st, p), p) == MergeSettings(st, p)
    ensures MergeSettings(MergeSettings(st, p), q) == MergeSettings(st, ComposePatches(p, q))
  {
  }

  /** Shallow message merges are idempotent and compose. */
  lemma SpreadIdempotent(f: Fields, p: Fields, q: Fields)
    ensures Spread(Spread(f, p), p) == Spread(f, p)
    ensures Spread(Spread(f, p), q) == Spread(f, Spread(p, q))
    ensures Spread(f, Empty) == f
  {
  }

  // ---------------------------------------------------------------------
  // State invariants

  /** Every action except an ADD_CHAT whose id is already taken keeps chat
      ids unique. */
  lemma ReduceKeepsIdsUnique(s: State, a: Action)
    requires UniqueChatIds(s.chats)
    requires a.AddChat? ==> forall i :: 0 <= i < |s.chats| ==> s.chats[i].id != a.chat.id
    ensures UniqueChatIds(Reduce(s, a).chats)
  {
    match a
    case DeleteChat(id) => RemoveChatKeepsIdsUnique(s.chats, id);
    case _ =>
  }

  lemma {:induction false} RemoveChatKeepsIdsUnique(chats: seq<Chat>, id: int)
    requires UniqueChatIds(chats)
    ensures UniqueChatIds(RemoveChat(chats, id))
    decreases |chats|
  {
    if |chats| > 0 {
      RemoveChatKeepsIdsUnique(chats[1..], id);
      var rest := RemoveChat(chats[1..], id);
      forall c | c in rest
        ensures c.id != chats[0].id
      {
        assert c in chats[1..];
      }
    }
  }

  /** With unique ids, removing the id of the chat at `k` removes exactly
      that chat. */
  lemma {:induction false} RemoveUniqueChat(chats: seq<Chat>, k: nat)
    requires UniqueChatIds(chats) && k < |chats|
    ensures |RemoveChat(chats, chats[k].id)| == |chats| - 1
    ensures forall d :: d in RemoveChat(chats, chats[k].id) <==> d in chats && d != chats[k]
    decreases |chats|
  {
    var id := chats[k].id;
    if k == 0 {
      assert forall i :: 0 <= i < |chats[1..]| ==> chats[1..][i].id != id by {
        forall i | 0 <= i < |chats[1..]| ensures chats[1..][i].id != id {
          assert chats[1..][i] == chats[i + 1];
        }
      }
    } else {
      assert chats[0].id != id;
      assert UniqueChatIds(chats[1..]) by {
        forall i, j | 0 <= i < |chats[1..]| && 0 <= j < |chats[1..]| && i != j
          ensures chats[1..][i].id != chats[1..][j].id
        {
          assert chats[1..][i] == chats[i + 1] && chats[1..][j] == chats[j + 1];
        }
      }
      assert chats[1..][k - 1] == chats[k];
      RemoveUniqueChat(chats[1..], k - 1);
    }
  }

  /** The active id names an existing chat, or there is no chat and no
      active id. */
  predicate ActiveValid(s: State) {
    if |s.chats| == 0 then s.activeChatId == None
    else exists i :: 0 <= i < |s.chats| && s.activeChatId == Some(s.chats[i].id)
  }

  /** ADD_CHAT and DELETE_CHAT restore a valid active chat; the message and
      settings actions keep it. */
  lemma ReduceKeepsActiveValid(s: State, a: Action)
    requires ActiveValid(s) || a.AddChat? || a.DeleteChat?
    requires !a.SetActiveChat?
    ensures ActiveValid(Reduce(s, a))
  {
    var r := Reduce(s, a);
    if a.AddChat? {
      assert r.chats[|s.chats|] == a.chat;
    } else if !a.DeleteChat? {
      assert |r.chats| == |s.chats|;
      if |s.chats| > 0 {
        var i :| 0 <= i < |s.chats| && s.activeChatId == Some(s.chats[i].id);
        assert r.chats[i].id == s.chats[i].id;
      }
    }
  }

  /** SET_ACTIVE_CHAT does not check existence: activating an unknown id
      leaves no active chat although chats exist. */
  lemma SetActiveChatCanInvalidate(s: State, id: int)
    requires |s.chats| > 0
    requires forall i :: 0 <= i < |s.chats| ==> s.chats[i].id != id
    ensures !ActiveValid(Reduce(s, SetActiveChat(Some(id))))
    ensures GetActiveChat(Reduce(s, SetActiveChat(Some(id)))).None?
  {
  }
}
