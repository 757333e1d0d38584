/** One card of the gallery (src/components/ImageCard.jsx): the download
    name of its image and the regenerate button. The image service's answer
    to a regeneration is a parameter; the clock is given both as
    `Date.now()` and as `new Date().toISOString()`. */
module ImageCard {
  import opened JsValues
  import opened JsStrings
  import opened ChatContext
  import ImageGallery

  // ---------------------------------------------------------------------
  // handleDownload

  /** `[a-zA-Z0-9_]` */
  predicate IsWordChar(c: char) {
    ('a' <= c <= 'z') || ('A' <= c <= 'Z') || ('0' <= c <= '9') || c == '_'
  }

  predicate AllWordChars(s: string) {
    forall i :: 0 <= i < |s| ==> IsWordChar(s[i])
  }

  const DefaultPrefix := "venice_image"

  /** `prompt?.split(' ').slice(0, 3).join('_').replace(/[^a-zA-Z0-9_]/g, '')
      || 'venice_image'` */
  function FilenamePrefix(prompt: Option<string>): (r: string)
    ensures |r| > 0 && AllWordChars(r)
    ensures prompt.None? ==> r == DefaultPrefix
  {
    assert AllWordChars(DefaultPrefix) by {
      assert forall i :: 0 <= i < |DefaultPrefix| ==> IsWordChar(DefaultPrefix[i]);
    }
    if prompt.None? then DefaultPrefix
    else
      var w := Filter(Join(Take(Split(prompt.value, ' '), 3), '_'), IsWordChar);
      if w == "" then DefaultPrefix else w
  }

  /** `-`, `:` and `.`, which the time stamp drops. */
  predicate KeptInStamp(c: char) {
    c != '-' && c != ':' && c != '.'
  }

  /** `iso.replace(/[-:.]/g, '').substring(0, length)`. An ISO time is
      ASCII, so its code units are its characters and the cut is a slice. */
  function Stamp(iso: string, length: nat): (r: string)
    ensures |r| <= length
  {
    Take(Filter(iso, KeptInStamp), length)
  }

  /** What `handleDownload` saves: nothing without an image url, otherwise
      the url under `<prefix>_<stamp>.png`. */
  datatype Saved = NothingSaved | SaveAs(url: string, filename: string)

  /** `handleDownload` as written: a 14-character stamp. */
  function Download(image: Option<ImageGallery.CardImage>, prompt: Option<string>, iso: string): (r: Saved)
    ensures r.NothingSaved? <==> image.None? || image.value.url == ""
    ensures r.SaveAs? ==> r.url == image.value.url
    ensures r.SaveAs? ==> r.filename == FilenamePrefix(prompt) + "_" + Stamp(iso, 14) + ".png"
  {
    if image.None? || image.value.url == "" then NothingSaved
    else SaveAs(image.value.url, FilenamePrefix(prompt) + "_" + Stamp(iso, 14) + ".png")
  }

  /** `handleDownload` with the stamp that keeps the whole time of day to
      the second. */
  function DownloadIntended(image: Option<ImageGallery.CardImage>, prompt: Option<string>, iso: string): (r: Saved)
    ensures r.NothingSaved? <==> image.None? || image.value.url == ""
    ensures r.SaveAs? ==> r.url == image.value.url
    ensures r.SaveAs? ==> r.filename == FilenamePrefix(prompt) + "_" + Stamp(iso, 15) + ".png"
  {
    if image.None? || image.value.url == "" then NothingSaved
    else SaveAs(image.value.url, FilenamePrefix(prompt) + "_" + Stamp(iso, 15) + ".png")
  }

  // ---------------------------------------------------------------------
  // handleRegenerate

  /** The message `handleRegenerate` builds for a new image. */
  function NewImageFields(prompt: string, imageUrl: string, iso: string): Fields {
    Empty.(kind := Some("image"), sender := Some("user"), text := Some(prompt), timestamp := Some(iso),
           images := Some([Image(imageUrl, iso)]), status := Some("complete"))
  }

  /** What a press of the regenerate button did: whether the image service
      was asked, the actions dispatched, and the `isRegenerating` flag
      afterwards. */
  datatype Regenerated = Regenerated(asked: bool, actions: seq<Action>, isRegenerating: bool)

  /** `handleRegenerate` as written: with a prompt and no regeneration
      running, it asks for an image and, given one (`imageUrl`), updates the
      message whose id is `Date.now()`; the flag ends false either way. */
  function Regenerate(prompt: Option<string>, isRegenerating: bool, imageUrl: Option<string>, nowMillis: int, iso: string): Regenerated {
    if !Truthy(prompt) || isRegenerating then Regenerated(false, [], isRegenerating)
    else if Truthy(imageUrl) then
      Regenerated(true, [UpdateImageMessage(nowMillis, NewImageFields(prompt.value, imageUrl.value, iso), iso)], false)
    else Regenerated(true, [], false)
  }

  /** `handleRegenerate` as its comments describe it: the new image is
      added as a new message. */
  function RegenerateIntended(prompt: Option<string>, isRegenerating: bool, imageUrl: Option<string>, nowMillis: int, iso: string): Regenerated {
    if !Truthy(prompt) || isRegenerating then Regenerated(false, [], isRegenerating)
    else if Truthy(imageUrl) then
      Regenerated(true, [AddMessage(Message(nowMillis, NewImageFields(prompt.value, imageUrl.value, iso)))], false)
    else Regenerated(true, [], false)
  }

  // ---------------------------------------------------------------------
  // Properties

  /** The prefix of an absent or wordless prompt is `venice_image`; the
      prefix is never empty and only holds `[a-zA-Z0-9_]`. */
  lemma PrefixFallsBack(prompt: Option<string>)
    ensures prompt.None? || Filter(Join(Take(Split(prompt.value, ' '), 3), '_'), IsWordChar) == "" ==>
      FilenamePrefix(prompt) == DefaultPrefix
    ensures prompt == Some("") ==> FilenamePrefix(prompt) == DefaultPrefix
  {
    if prompt == Some("") {
      assert Split("", ' ') == [""];
    }
  }

  /** Making a prefix out of a prefix changes nothing. */
  lemma PrefixIdempotent(prompt: Option<string>)
    ensures FilenamePrefix(Some(FilenamePrefix(prompt))) == FilenamePrefix(prompt)
  {
    PrefixOfWord(FilenamePrefix(prompt));
  }

  /** A non-empty run of word characters is its own prefix. */
  lemma PrefixOfWord(r: string)
    requires |r| > 0 && AllWordChars(r)
    ensures FilenamePrefix(Some(r)) == r
  {
    assert forall i :: 0 <= i < |r| ==> r[i] != ' ';
    assert ' ' !in r;
    SplitWithoutSep(r, ' ');
    assert Take([r], 3) == [r];
    assert Join([r], '_') == r;
    FilterKeepsAll(r, IsWordChar);
  }

  /** Only the first three words of the prompt reach the prefix. */
  lemma PrefixIgnoresLaterWords(promptText: string, more: string)
    requires |Split(promptText, ' ')| >= 3
    ensures FilenamePrefix(Some(promptText + " " + more)) == FilenamePrefix(Some(promptText))
  {
    SplitAppend(promptText, more, ' ');
    assert promptText + " " + more == promptText + [' '] + more;
    var ws := Split(promptText, ' ');
    assert Take(ws + Split(more, ' '), 3) == Take(ws, 3);
  }

  predicate DigitsIn(s: string, a: nat, b: nat)
    requires a <= b <= |s|
  {
    forall i :: a <= i < b ==> IsDigit(s[i])
  }

  /** `new Date().toISOString()`: `YYYY-MM-DDTHH:mm:ss.sssZ`. */
  predicate IsIso(s: string) {
    && |s| == 24
    && DigitsIn(s, 0, 4) && s[4] == '-' && DigitsIn(s, 5, 7) && s[7] == '-' && DigitsIn(s, 8, 10)
    && s[10] == 'T' && DigitsIn(s, 11, 13) && s[13] == ':' && DigitsIn(s, 14, 16) && s[16] == ':'
    && DigitsIn(s, 17, 19) && s[19] == '.' && DigitsIn(s, 20, 23) && s[23] == 'Z'
  }

  lemma FilterSkip(s: string, a: nat, k: nat, b: nat)
    requires a <= k < b <= |s| && !KeptInStamp(s[k])
    ensures Filter(s[a..b], KeptInStamp) == Filter(s[a..k], KeptInStamp) + Filter(s[k + 1..b], KeptInStamp)
  {
    assert s[a..b] == s[a..k] + ([s[k]] + s[k + 1..b]);
    FilterAppend(s[a..k], [s[k]] + s[k + 1..b], KeptInStamp);
    FilterAppend([s[k]], s[k + 1..b], KeptInStamp);
    assert Filter([s[k]], KeptInStamp) == "";
  }

  lemma FilterKeeps(s: string, a: nat, b: nat)
    requires a <= b <= |s| && forall i :: a <= i < b ==> KeptInStamp(s[i])
    ensures Filter(s[a..b], KeptInStamp) == s[a..b]
  {
    FilterKeepsAll(s[a..b], KeptInStamp);
  }

  /** A run of kept characters from `a`, then one dropped one at `k`. */
  lemma FilterRun(s: string, a: nat, k: nat, b: nat)
    requires a <= k < b <= |s| && !KeptInStamp(s[k])
    requires forall i :: a <= i < k ==> KeptInStamp(s[i])
    ensures Filter(s[a..b], KeptInStamp) == s[a..k] + Filter(s[k + 1..b], KeptInStamp)
  {
    FilterSkip(s, a, k, b);
    FilterKeeps(s, a, k);
  }

  lemma IsoTime(s: string)
    requires IsIso(s)
    ensures Filter(s[14..24], KeptInStamp) == s[14..16] + s[17..19] + s[20..]
  {
    FilterRun(s, 14, 16, 24);
    FilterRun(s, 17, 19, 24);
    FilterKeeps(s, 20, 24);
    assert s[20..24] == s[20..];
  }

  lemma IsoDate(s: string)
    requires IsIso(s)
    ensures Filter(s, KeptInStamp) == s[..4] + s[5..7] + s[8..13] + Filter(s[14..24], KeptInStamp)
  {
    assert s[0..24] == s;
    FilterRun(s, 0, 4, 24);
    FilterRun(s, 5, 7, 24);
    FilterRun(s, 8, 13, 24);
  }

  /** Dropping the separators from an ISO time leaves the date, the `T`,
      the time to the millisecond and the `Z`. */
  lemma IsoWithoutSeparators(s: string)
    requires IsIso(s)
    ensures Filter(s, KeptInStamp) == s[..4] + s[5..7] + s[8..13] + s[14..16] + s[17..19] + s[20..]
  {
    IsoDate(s);
    IsoTime(s);
  }

  /** The intended stamp is `YYYYMMDDTHHmmss`: the whole date and the time
      to the second. */
  lemma StampIntended(s: string)
    requires IsIso(s)
    ensures Stamp(s, 15) == s[..4] + s[5..7] + s[8..10] + "T" + s[11..13] + s[14..16] + s[17..19]
  {
    IsoWithoutSeparators(s);
    var f := s[..4] + s[5..7] + s[8..13] + s[14..16] + s[17..19] + s[20..];
    assert f[..15] == s[..4] + s[5..7] + s[8..13] + s[14..16] + s[17..19];
    assert s[8..13] == s[8..10] + "T" + s[11..13];
  }

  /** The stamp as written stops one character early: the last digit of
      the seconds is cut off. */
  lemma StampAsWrittenDropsSecond(s: string)
    requires IsIso(s)
    ensures Stamp(s, 14) + [s[18]] == Stamp(s, 15)
    ensures Stamp(s, 14) == s[..4] + s[5..7] + s[8..10] + "T" + s[11..13] + s[14..16] + s[17..18]
  {
    StampIntended(s);
    IsoWithoutSeparators(s);
    var g := s[..4] + s[5..7] + s[8..10] + "T" + s[11..13] + s[14..16];
    assert s[17..19] == s[17..18] + [s[18]];
    assert Stamp(s, 15) == g + s[17..18] + [s[18]];
    assert Stamp(s, 15)[..14] == g + s[17..18];
    assert Stamp(s, 14) == Stamp(s, 15)[..14];
  }

  lemma IsoExampleIsIso(s: string)
    requires s == "2024-01-15" + "T10:30:45.123Z"
    ensures IsIso(s)
  {
    assert DigitsIn(s, 0, 4) && DigitsIn(s, 5, 7) && DigitsIn(s, 8, 10) && DigitsIn(s, 11, 13);
    assert DigitsIn(s, 14, 16) && DigitsIn(s, 17, 19) && DigitsIn(s, 20, 23);
  }

  lemma IsoExamplePieces(s: string)
    requires s == "2024-01-15" + "T10:30:45.123Z"
    ensures s[..4] == "2024" && s[5..7] == "01" && s[8..10] == "15"
    ensures s[11..13] == "10" && s[14..16] == "30" && s[17..18] == "4" && s[17..19] == "45"
  {
    var d := "2024-01-15";
    var t := "T10:30:45.123Z";
    assert s[..4] == d[..4] == "2024";
    assert s[5..7] == d[5..7] == "01";
    assert s[8..10] == d[8..10] == "15";
    assert s[11..13] == t[1..3] == "10";
    assert s[14..16] == t[4..6] == "30";
    assert s[17..18] == t[7..8] == "4";
    assert s[17..19] == t[7..9] == "45";
  }

  /** At 10:30:45 the name says `10304`. */
  lemma StampExample(s: string)
    requires s == "2024-01-15T10:30:45.123Z"
    ensures Stamp(s, 14) == "20240115T10304"
  {
    ExampleLiterals();
    IsoExampleIsIso(s);
    StampAsWrittenDropsSecond(s);
    IsoExamplePieces(s);
  }

  /** At 10:30:45 the intended name says `103045`. */
  lemma StampExampleIntended(s: string)
    requires s == "2024-01-15T10:30:45.123Z"
    ensures Stamp(s, 15) == "20240115T103045"
  {
    ExampleLiterals();
    IsoExampleIsIso(s);
    StampIntended(s);
    IsoExamplePieces(s);
  }

  /** The example timestamp in two halves, and the two stamps built from its
      pieces. */
  lemma ExampleLiterals()
    ensures "2024-01-15T10:30:45.123Z" == "2024-01-15" + "T10:30:45.123Z"
    ensures "2024" + "01" + "15" + "T" + "10" + "30" + "4" == "20240115T10304"
    ensures "2024" + "01" + "15" + "T" + "10" + "30" + "45" == "20240115T103045"
  {
  }

  /** The download name as written is `<prefix>_YYYYMMDDTHHmms.png`: the
      stamp keeps only the tens digit of the seconds. */
  lemma DownloadAsWrittenName(url: string, timestamp: Option<string>, prompt: Option<string>, iso: string)
    requires url != "" && IsIso(iso)
    ensures var stamp := iso[..4] + iso[5..7] + iso[8..10] + "T" + iso[11..13] + iso[14..16] + iso[17..18];
      Download(Some(ImageGallery.CardImage(url, timestamp)), prompt, iso) ==
        SaveAs(url, FilenamePrefix(prompt) + "_" + stamp + ".png")
  {
    StampAsWrittenDropsSecond(iso);
  }

  /** The intended download name is `<prefix>_YYYYMMDDTHHmmss.png`. */
  lemma DownloadIntendedName(url: string, timestamp: Option<string>, prompt: Option<string>, iso: string)
    requires url != "" && IsIso(iso)
    ensures var stamp := iso[..4] + iso[5..7] + iso[8..10] + "T" + iso[11..13] + iso[14..16] + iso[17..19];
      DownloadIntended(Some(ImageGallery.CardImage(url, timestamp)), prompt, iso) ==
        SaveAs(url, FilenamePrefix(prompt) + "_" + stamp + ".png")
  {
    StampIntended(iso);
  }

  /** Regeneration is refused without a prompt or while one is running:
      nothing is asked and nothing dispatched. Otherwise the flag ends
      false whatever the answer. */
  lemma RegenerateGuard(prompt: Option<string>, isRegenerating: bool, imageUrl: Option<string>, nowMillis: int, iso: string)
    ensures Regenerate(prompt, isRegenerating, imageUrl, nowMillis, iso).asked <==> Truthy(prompt) && !isRegenerating
    ensures !Regenerate(prompt, isRegenerating, imageUrl, nowMillis, iso).asked ==>
      Regenerate(prompt, isRegenerating, imageUrl, nowMillis, iso) == Regenerated(false, [], isRegenerating)
    ensures Regenerate(prompt, isRegenerating, imageUrl, nowMillis, iso).asked ==>
      !Regenerate(prompt, isRegenerating, imageUrl, nowMillis, iso).isRegenerating
    ensures |Regenerate(prompt, isRegenerating, imageUrl, nowMillis, iso).actions| == 1 <==>
      Truthy(prompt) && !isRegenerating && Truthy(imageUrl)
  {
  }

  /** As written, a regeneration updates the message whose id is the
      current time. When the active chat has no such message (its ids are
      small counters), the state does not change at all: the new image is
      lost. */
  lemma RegenerateIsLost(s: State, prompt: Option<string>, imageUrl: Option<string>, nowMillis: int, iso: string)
    requires forall i, j :: 0 <= i < |s.chats| && 0 <= j < |s.chats[i].messages| && IsActive(s, s.chats[i])
               ==> s.chats[i].messages[j].id != nowMillis
    ensures Run(s, Regenerate(prompt, false, imageUrl, nowMillis, iso).actions) == s
  {
    var acts := Regenerate(prompt, false, imageUrl, nowMillis, iso).actions;
    if |acts| > 0 {
      var a := UpdateImageMessage(nowMillis, NewImageFields(prompt.value, imageUrl.value, iso), iso);
      assert acts == [a];
      RunOne(s, a);
      UpdateImageMessageFrame(s, nowMillis, NewImageFields(prompt.value, imageUrl.value, iso), iso);
    }
  }

  /** The gallery filter keeps a new last message that is an image
      message, after the ones it kept before. */
  lemma {:induction false} GalleryMessagesSnoc(messages: seq<Message>, m: Message)
    requires ImageGallery.IsGalleryMessage(m)
    ensures ImageGallery.GalleryMessages(messages + [m]) == ImageGallery.GalleryMessages(messages) + [m]
    decreases |messages|
  {
    if |messages| == 0 {
      assert messages + [m] == [m];
      assert [m][1..] == [];
    } else {
      assert (messages + [m])[0] == messages[0];
      assert (messages + [m])[1..] == messages[1..] + [m];
      GalleryMessagesSnoc(messages[1..], m);
    }
  }

  /** As intended, a regeneration adds one image message to the active
      chat, and the gallery shows exactly one more card, last, with the
      new image and the prompt. */
  lemma RegenerateIntendedAddsCard(s: State, prompt: string, imageUrl: string, nowMillis: int, iso: string)
    requires prompt != "" && imageUrl != ""
    requires UniqueChatIds(s.chats) && GetActiveChat(s).Some?
    ensures var r := Run(s, RegenerateIntended(Some(prompt), false, Some(imageUrl), nowMillis, iso).actions);
      var before := GetActiveChat(s).value.messages;
      && GetActiveChat(r).Some?
      && ImageGallery.Flatten(ImageGallery.GalleryMessages(GetActiveChat(r).value.messages)) ==
         ImageGallery.Flatten(ImageGallery.GalleryMessages(before)) +
         [ImageGallery.ImageCardOf(ImageGallery.ImageKey(nowMillis, 0), ImageGallery.CardImage(imageUrl, Some(iso)),
                                   Some(prompt), nowMillis, Some("complete"))]
  {
    var m := Message(nowMillis, NewImageFields(prompt, imageUrl, iso));
    var c := GetActiveChat(s).value;
    assert RegenerateIntended(Some(prompt), false, Some(imageUrl), nowMillis, iso).actions == [AddMessage(m)];
    RunOne(s, AddMessage(m));
    AddMessageToActive(s, m);
    AppendedImageCard(c.messages, prompt, imageUrl, nowMillis, iso);
  }

  /** A new image message at the end of a chat adds its one card last. */
  lemma AppendedImageCard(before: seq<Message>, prompt: string, imageUrl: string, nowMillis: int, iso: string)
    requires prompt != "" && imageUrl != ""
    ensures ImageGallery.Flatten(ImageGallery.GalleryMessages(before + [Message(nowMillis, NewImageFields(prompt, imageUrl, iso))])) ==
         ImageGallery.Flatten(ImageGallery.GalleryMessages(before)) +
         [ImageGallery.ImageCardOf(ImageGallery.ImageKey(nowMillis, 0), ImageGallery.CardImage(imageUrl, Some(iso)),
                                   Some(prompt), nowMillis, Some("complete"))]
  {
    var m := Message(nowMillis, NewImageFields(prompt, imageUrl, iso));
    GalleryMessagesSnoc(before, m);
    ImageGallery.FlattenAppend(ImageGallery.GalleryMessages(before), [m]);
    assert ImageGallery.Flatten([m]) == ImageGallery.MessageCards(m) + ImageGallery.Flatten([]);
  }

  /** Adding a message to the active chat appends it to that chat, which
      stays the active one. */
  lemma AddMessageToActive(s: State, m: Message)
    requires UniqueChatIds(s.chats) && GetActiveChat(s).Some?
    ensures var c := GetActiveChat(s).value;
      GetActiveChat(Reduce(s, AddMessage(m))) == Some(c.(messages := c.messages + [m]))
  {
    var c := GetActiveChat(s).value;
    var k := FindChat(s.chats, s.activeChatId).value;
    AddMessageEffect(s, m);
    var r := Reduce(s, AddMessage(m));
    assert r.chats[k] == c.(messages := c.messages + [m]);
    forall j | 0 <= j < |r.chats| ensures r.chats[j].id == s.chats[j].id {
    }
    FindChatSameIds(s.chats, r.chats, s.activeChatId);
  }

  /** Chat lists with the same ids, position by position, give the same
      lookups. */
  lemma {:induction false} FindChatSameIds(a: seq<Chat>, b: seq<Chat>, id: Option<int>)
    requires |a| == |b| && forall j :: 0 <= j < |a| ==> a[j].id == b[j].id
    ensures FindChat(a, id) == FindChat(b, id)
    decreases |a|
  {
    if |a| > 0 {
      FindChatSameIds(a[1..], b[1..], id);
    }
  }
}
