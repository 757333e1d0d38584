/** The chat list's multi-select state (src/components/ChatSelector.jsx):
    toggling chats in and out of the selection, entering and leaving the
    selection mode, deleting the selected chats, and the preview line under
    each chat's name. */
module ChatSelector {
  import opened JsValues
  import opened JsStrings
  import opened ChatContext
  import ImageUtils

  /** `selectedChats` and `multiSelectMode`. */
  datatype Selection = Selection(selected: seq<int>, multiSelect: bool)

  const Initial := Selection([], false)

  predicate NoDup(ids: seq<int>) {
    forall i, j :: 0 <= i < j < |ids| ==> ids[i] != ids[j]
  }

  /** `ids.filter(id => id !== x)` */
  function Without(ids: seq<int>, x: int): (r: seq<int>)
    ensures forall y :: y in r <==> y in ids && y != x
    ensures NoDup(ids) ==> NoDup(r)
    ensures x !in ids ==> r == ids
    decreases |ids|
  {
    if |ids| == 0 then []
    else
      var rest := Without(ids[1..], x);
      if ids[0] == x then rest
      else
        assert NoDup(ids) ==> ids[0] !in ids[1..];
        [ids[0]] + rest
  }

  /** `toggleChatSelection(chatId)`: a selected id is taken out, and taking
      out the only selected id leaves the selection mode; any other id is
      appended. */
  function Toggle(sel: Selection, chatId: int): Selection {
    if chatId in sel.selected then
      Selection(Without(sel.selected, chatId), if |sel.selected| == 1 then false else sel.multiSelect)
    else
      Selection(sel.selected + [chatId], sel.multiSelect)
  }

  /** `toggleMultiSelectMode`: flips the mode; the selection is emptied
      whichever way it goes. */
  function ToggleMode(sel: Selection): Selection {
    Selection([], !sel.multiSelect)
  }

  /** Whether the "delete selected" button shows. */
  predicate ShowsDeleteSelected(sel: Selection) {
    sel.multiSelect && |sel.selected| > 0
  }

  /** `deleteSelectedChats`: one DELETE_CHAT per selected id, in order. */
  function DeleteActions(ids: seq<int>): (r: seq<Action>)
    decreases |ids|
  {
    if |ids| == 0 then [] else [DeleteChat(ids[0])] + DeleteActions(ids[1..])
  }

  /** The selection after `deleteSelectedChats`. */
  const AfterDelete := Initial

  /** The preview line: the first message's text shortened to 30 UTF-16
      code units, or "Empty chat". */
  function Preview(c: Chat): (r: string)
    ensures Length(r) <= 30
    ensures |c.messages| > 0 && Length(c.messages[0].fields.text.GetOr("")) <= 30 ==>
      r == c.messages[0].fields.text.GetOr("")
    ensures |c.messages| == 0 ==> r == "Empty chat"
    ensures |c.messages| > 0 ==> r == ImageUtils.ShortenPrompt(c.messages[0].fields.text, 30)
  {
    if |c.messages| > 0 then
      PreviewOfText(c.messages[0].fields.text);
      ImageUtils.ShortenPrompt(c.messages[0].fields.text, 30)
    else
      EmptyChatFits();
      "Empty chat"
  }

  lemma PreviewOfText(text: Option<string>)
    ensures Length(ImageUtils.ShortenPrompt(text, 30)) <= 30
    ensures Length(text.GetOr("")) <= 30 ==> ImageUtils.ShortenPrompt(text, 30) == text.GetOr("")
  {
    ImageUtils.ShortenPromptFitsAndIsStable(text, 30);
  }

  lemma EmptyChatFits()
    ensures Length("Empty chat") <= 30
  {
    assert InBmp("Empty chat");
  }

  // ---------------------------------------------------------------------
  // Properties

  /** A toggle flips the membership of the toggled id and of no other, and
      keeps the selection free of duplicates. */
  lemma ToggleFlips(sel: Selection, x: int)
    ensures var r := Toggle(sel, x);
      && (x in r.selected <==> x !in sel.selected)
      && (forall y :: y != x ==> (y in r.selected <==> y in sel.selected))
      && (NoDup(sel.selected) ==> NoDup(r.selected))
      && (x !in sel.selected ==> r.selected == sel.selected + [x] && r.multiSelect == sel.multiSelect)
  {
    var r := Toggle(sel, x);
    if x !in sel.selected && NoDup(sel.selected) {
      var t := sel.selected + [x];
      forall i, j | 0 <= i < j < |t| ensures t[i] != t[j] {
        if j == |t| - 1 {
          assert t[i] == sel.selected[i];
        }
      }
    }
  }

  /** Taking out the only selected id leaves the selection mode with an
      empty selection. */
  lemma RemovingLastExits(sel: Selection, x: int)
    requires sel.selected == [x]
    ensures Toggle(sel, x) == Selection([], false)
  {
    assert x in sel.selected;
  }

  /** While other ids stay selected, taking one out keeps the mode. */
  lemma RemovingOneOfSeveralKeepsMode(sel: Selection, x: int)
    requires x in sel.selected && |sel.selected| > 1
    ensures Toggle(sel, x).multiSelect == sel.multiSelect
  {
  }

  /** Toggling an unselected id twice gives back the selection; the mode
      comes back too, unless the id was the only one selected, in which
      case the mode is left. */
  lemma ToggleTwice(sel: Selection, x: int)
    requires x !in sel.selected
    ensures Toggle(Toggle(sel, x), x).selected == sel.selected
    ensures Toggle(Toggle(sel, x), x).multiSelect == (sel.multiSelect && sel.selected != [])
  {
    var t := sel.selected + [x];
    assert x in t;
    WithoutLast(sel.selected, x);
    if sel.selected != [] {
      assert |t| > 1;
    }
  }

  lemma {:induction false} WithoutLast(ids: seq<int>, x: int)
    requires x !in ids
    ensures Without(ids + [x], x) == ids
    decreases |ids|
  {
    if |ids| == 0 {
      assert Without([x][1..], x) == [];
    } else {
      assert (ids + [x])[0] == ids[0];
      assert (ids + [x])[1..] == ids[1..] + [x];
      WithoutLast(ids[1..], x);
    }
  }

  /** Switching the mode twice comes back to the first mode, with nothing
      selected either way. */
  lemma ToggleModeTwice(sel: Selection)
    ensures ToggleMode(ToggleMode(sel)) == sel.(selected := [])
    ensures ToggleMode(sel).multiSelect != sel.multiSelect && ToggleMode(sel).selected == []
  {
  }

  /** What the user can do to the selection. */
  datatype Event = ToggleChat(chatId: int) | SwitchMode | DeleteSelected

  function Step(sel: Selection, e: Event): Selection {
    match e
    case ToggleChat(id) => Toggle(sel, id)
    case SwitchMode => ToggleMode(sel)
    case DeleteSelected => AfterDelete
  }

  function Steps(sel: Selection, es: seq<Event>): Selection
    decreases |es|
  {
    if |es| == 0 then sel else Steps(Step(sel, es[0]), es[1..])
  }

  /** Whatever the user does from the start, the selection never holds an
      id twice. */
  lemma {:induction false} StepsKeepNoDup(sel: Selection, es: seq<Event>)
    requires NoDup(sel.selected)
    ensures NoDup(Steps(sel, es).selected)
    decreases |es|
  {
    if |es| > 0 {
      if es[0].ToggleChat? {
        ToggleFlips(sel, es[0].chatId);
      }
      StepsKeepNoDup(Step(sel, es[0]), es[1..]);
    }
  }

  lemma ReachableNoDup(es: seq<Event>)
    ensures NoDup(Steps(Initial, es).selected)
  {
    StepsKeepNoDup(Initial, es);
  }

  /** The chats left after deleting the ids one after the other: those
      whose id is none of them, in their order. */
  function Keep(chats: seq<Chat>, ids: seq<int>): (r: seq<Chat>)
    decreases |chats|
  {
    if |chats| == 0 then []
    else if chats[0].id in ids then Keep(chats[1..], ids)
    else [chats[0]] + Keep(chats[1..], ids)
  }

  lemma {:induction false} KeepMembers(chats: seq<Chat>, ids: seq<int>)
    ensures forall c :: c in Keep(chats, ids) <==> c in chats && c.id !in ids
    decreases |chats|
  {
    if |chats| > 0 {
      KeepMembers(chats[1..], ids);
      assert forall c :: c in chats <==> c == chats[0] || c in chats[1..];
    }
  }

  /** Removing one id and then keeping the chats outside the others is
      keeping the chats outside all of them. */
  lemma {:induction false} KeepAfterRemove(chats: seq<Chat>, x: int, rest: seq<int>)
    ensures Keep(RemoveChat(chats, x), rest) == Keep(chats, [x] + rest)
    decreases |chats|
  {
    if |chats| > 0 {
      KeepAfterRemove(chats[1..], x, rest);
      var t := RemoveChat(chats[1..], x);
      if chats[0].id != x {
        assert ([chats[0]] + t)[0] == chats[0];
        assert ([chats[0]] + t)[1..] == t;
      }
    }
  }

  /** Deleting the selected chats leaves exactly the chats whose id was not
      selected, in their order, activates the first of them (or none), and
      touches nothing else; with nothing selected nothing changes. */
  lemma {:induction false} DeleteSelectedEffect(s: State, ids: seq<int>)
    ensures var r := Run(s, DeleteActions(ids));
      && r.chats == Keep(s.chats, ids)
      && r.settings == s.settings && r.isLoading == s.isLoading && r.error == s.error
      && (|ids| > 0 && |r.chats| > 0 ==> r.activeChatId == Some(r.chats[0].id))
      && (|ids| > 0 && |r.chats| == 0 ==> r.activeChatId == None)
      && (|ids| == 0 ==> r == s)
    decreases |ids|
  {
    if |ids| == 0 {
      KeepNone(s.chats, ids);
    } else {
      var acts := DeleteActions(ids);
      assert acts[0] == DeleteChat(ids[0]);
      assert acts[1..] == DeleteActions(ids[1..]);
      var s1 := Reduce(s, DeleteChat(ids[0]));
      DeleteSelectedEffect(s1, ids[1..]);
      KeepAfterRemove(s.chats, ids[0], ids[1..]);
      assert [ids[0]] + ids[1..] == ids;
      if |ids| == 1 {
        KeepNone(s1.chats, ids[1..]);
      }
    }
  }

  lemma {:induction false} KeepNone(chats: seq<Chat>, ids: seq<int>)
    requires |ids| == 0
    ensures Keep(chats, ids) == chats
    decreases |chats|
  {
    if |chats| > 0 {
      KeepNone(chats[1..], ids);
    }
  }

  /** The chats that survive a multi-delete are exactly the unselected
      ones. */
  lemma DeleteSelectedKeepsUnselected(s: State, sel: Selection)
    ensures forall c :: c in Run(s, DeleteActions(sel.selected)).chats <==> c in s.chats && c.id !in sel.selected
  {
    DeleteSelectedEffect(s, sel.selected);
    KeepMembers(s.chats, sel.selected);
  }
}
