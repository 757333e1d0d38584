/** The gallery page (src/components/ImageGallery.jsx): the active chat's
    image messages flattened into a list of image cards, plus a loading
    card while a generation runs. */
module ImageGallery {
  import opened JsValues
  import opened JsStrings
  import opened ChatContext

  /** The image a card shows; a card built from the old single-url format
      carries the message's timestamp, which may be absent. */
  datatype CardImage = CardImage(url: string, timestamp: Option<string>)

  /** One rendered `ImageCard`: its React key and props, or the loading
      placeholder. */
  datatype Card =
    | ImageCardOf(key: string, image: CardImage, prompt: Option<string>, messageId: int, status: Option<string>)
    | LoadingCard

  /** `msg.type === 'image' || msg.images?.length > 0` */
  predicate IsGalleryMessage(m: Message) {
    m.fields.kind == Some("image") || (m.fields.images.Some? && |m.fields.images.value| > 0)
  }

  /** The `imageMessages` filter: the gallery messages, in chat order,
      each as often as in the chat. */
  function GalleryMessages(messages: seq<Message>): (r: seq<Message>)
    ensures |r| <= |messages|
    ensures forall m :: m in r <==> m in messages && IsGalleryMessage(m)
    ensures IsSubsequence(r, messages)
    ensures forall m :: multiset(r)[m] == if IsGalleryMessage(m) then multiset(messages)[m] else 0
    decreases |messages|
  {
    if |messages| == 0 then []
    else
      var rest := GalleryMessages(messages[1..]);
      assert messages == [messages[0]] + messages[1..];
      if IsGalleryMessage(messages[0]) then
        assert ([messages[0]] + rest)[1..] == rest;
        [messages[0]] + rest
      else
        assert |rest| > 0 ==> rest[0] in rest;
        rest
  }

  /** The key `${message.id}-${index}` of the card for one image. */
  function ImageKey(id: int, index: nat): string {
    IntToString(id) + "-" + IntToString(index)
  }

  /** The cards of the images `images[from..]` of message `m`. */
  function ImageCards(m: Message, images: seq<Image>, from: nat): (r: seq<Card>)
    requires from <= |images|
    ensures |r| == |images| - from
    ensures forall i :: 0 <= i < |r| ==>
      r[i] == ImageCardOf(ImageKey(m.id, from + i), CardImage(images[from + i].url, Some(images[from + i].timestamp)),
                          m.fields.text, m.id, m.fields.status)
    decreases |images| - from
  {
    if from == |images| then []
    else
      var first := ImageCardOf(ImageKey(m.id, from), CardImage(images[from].url, Some(images[from].timestamp)),
                               m.fields.text, m.id, m.fields.status);
      [first] + ImageCards(m, images, from + 1)
  }

  /** The cards of one gallery message: one per image when it has images;
      otherwise one for its `url` when that is truthy; otherwise none. */
  function MessageCards(m: Message): seq<Card> {
    if m.fields.images.Some? && |m.fields.images.value| > 0 then
      ImageCards(m, m.fields.images.value, 0)
    else if Truthy(m.fields.url) then
      [ImageCardOf(IntToString(m.id), CardImage(m.fields.url.value, m.fields.timestamp), m.fields.text, m.id, m.fields.status)]
    else []
  }

  /** `imageMessages.map(...).flat()` */
  function Flatten(messages: seq<Message>): seq<Card>
    decreases |messages|
  {
    if |messages| == 0 then [] else MessageCards(messages[0]) + Flatten(messages[1..])
  }

  /** The cards on the page: none without an active chat; otherwise the
      image cards, then the loading card while `isLoading`. */
  function Gallery(s: State): seq<Card> {
    match GetActiveChat(s)
    case None => []
    case Some(c) => Flatten(GalleryMessages(c.messages)) + (if s.isLoading then [LoadingCard] else [])
  }

  /** How many cards a message gives. */
  function CardCount(m: Message): nat {
    if m.fields.images.Some? && |m.fields.images.value| > 0 then |m.fields.images.value|
    else if Truthy(m.fields.url) then 1
    else 0
  }

  // ---------------------------------------------------------------------
  // Properties

  /** Without an active chat there are no cards, not even the loading one;
      with one, the loading card is there exactly while `isLoading`, and
      it is the last card. */
  lemma GalleryShape(s: State)
    ensures GetActiveChat(s).None? ==> Gallery(s) == []
    ensures GetActiveChat(s).Some? ==>
      && (LoadingCard in Gallery(s) <==> s.isLoading)
      && (s.isLoading ==> Gallery(s)[|Gallery(s)| - 1] == LoadingCard)
  {
    if GetActiveChat(s).Some? {
      var c := GetActiveChat(s).value;
      NoLoadingCardInFlatten(GalleryMessages(c.messages));
    }
  }

  lemma {:induction false} NoLoadingCardInFlatten(messages: seq<Message>)
    ensures LoadingCard !in Flatten(messages)
    decreases |messages|
  {
    if |messages| > 0 {
      NoLoadingCardInFlatten(messages[1..]);
    }
  }

  /** A message gives one card per image, in order, when it has images;
      otherwise one card for a truthy url; otherwise none. */
  lemma MessageCardsCount(m: Message)
    ensures |MessageCards(m)| == CardCount(m)
    ensures m.fields.images.Some? && |m.fields.images.value| > 0 ==>
      forall i :: 0 <= i < |m.fields.images.value| ==>
        MessageCards(m)[i].key == ImageKey(m.id, i) && MessageCards(m)[i].image.url == m.fields.images.value[i].url
  {
  }

  /** Flattening concatenates: the cards of two runs of messages are the
      cards of the first followed by those of the second. */
  lemma {:induction false} FlattenAppend(a: seq<Message>, b: seq<Message>)
    ensures Flatten(a + b) == Flatten(a) + Flatten(b)
    decreases |a|
  {
    if |a| == 0 {
      assert a + b == b;
    } else {
      assert (a + b)[0] == a[0];
      assert (a + b)[1..] == a[1..] + b;
      FlattenAppend(a[1..], b);
      var x := MessageCards(a[0]);
      assert x + (Flatten(a[1..]) + Flatten(b)) == (x + Flatten(a[1..])) + Flatten(b);
    }
  }

  /** The key of an image card reads back as its message's id. */
  lemma ImageKeyReadsBack(id: int, index: nat)
    ensures ParseInt(ImageKey(id, index)) == Some(id)
  {
    var tail := "-" + IntToString(index);
    assert ImageKey(id, index) == IntToString(id) + tail;
    assert tail[0] == '-';
    ParseIntOfIntToString(id, tail);
  }

  /** Every card of one message is an image card naming that message,
      and its key reads back as the message's id. */
  lemma OwnCardsName(m: Message)
    ensures forall c :: c in MessageCards(m) ==>
      c.ImageCardOf? && c.messageId == m.id && ParseInt(c.key) == Some(m.id)
  {
    var own := MessageCards(m);
    forall c | c in own ensures c.ImageCardOf? && c.messageId == m.id && ParseInt(c.key) == Some(m.id) {
      var k :| 0 <= k < |own| && own[k] == c;
      if m.fields.images.Some? && |m.fields.images.value| > 0 {
        assert c.key == ImageKey(m.id, k);
        ImageKeyReadsBack(m.id, k);
      } else {
        ParseIntRoundTrip(m.id);
      }
    }
  }

  lemma MessageIdsCons(messages: seq<Message>)
    requires |messages| > 0
    ensures MessageIds(messages) == [messages[0].id] + MessageIds(messages[1..])
  {
    var a := MessageIds(messages);
    var b := [messages[0].id] + MessageIds(messages[1..]);
    assert |a| == |b|;
    forall i | 0 <= i < |a| ensures a[i] == b[i] {
      if i > 0 {
        assert b[i] == MessageIds(messages[1..])[i - 1];
      }
    }
  }

  /** Every card of a run of messages is an image card naming a message of
      the run, and its key reads back as that message's id. */
  lemma {:induction false} CardsComeFromMessages(messages: seq<Message>)
    ensures forall c :: c in Flatten(messages) ==>
      c.ImageCardOf? && c.messageId in MessageIds(messages) && ParseInt(c.key) == Some(c.messageId)
    decreases |messages|
  {
    if |messages| > 0 {
      var m := messages[0];
      CardsComeFromMessages(messages[1..]);
      OwnCardsName(m);
      MessageIdsCons(messages);
      assert Flatten(messages) == MessageCards(m) + Flatten(messages[1..]);
    }
  }

  /** The card keys of one message are pairwise different. */
  lemma ImageKeysDistinct(id: int, i: nat, j: nat)
    requires i != j
    ensures ImageKey(id, i) != ImageKey(id, j)
  {
    var p := IntToString(id) + "-";
    assert ImageKey(id, i) == p + IntToString(i);
    assert ImageKey(id, j) == p + IntToString(j);
    if ImageKey(id, i) == ImageKey(id, j) {
      assert IntToString(i) == (p + IntToString(i))[|p|..];
      assert IntToString(j) == (p + IntToString(j))[|p|..];
      ParseIntRoundTrip(i);
      ParseIntRoundTrip(j);
    }
  }

  predicate UniqueMessageIds(messages: seq<Message>) {
    forall i, j :: 0 <= i < j < |messages| ==> messages[i].id != messages[j].id
  }

  /** Filtering keeps message ids unique. */
  lemma {:induction false} GalleryMessagesUnique(messages: seq<Message>)
    requires UniqueMessageIds(messages)
    ensures UniqueMessageIds(GalleryMessages(messages))
    decreases |messages|
  {
    if |messages| > 0 {
      var tail := messages[1..];
      assert UniqueMessageIds(tail) by {
        forall i, j | 0 <= i < j < |tail| ensures tail[i].id != tail[j].id {
          assert tail[i] == messages[i + 1] && tail[j] == messages[j + 1];
        }
      }
      GalleryMessagesUnique(tail);
      var rest := GalleryMessages(tail);
      if IsGalleryMessage(messages[0]) {
        var r := [messages[0]] + rest;
        HeadIdNotLater(messages);
        forall i, j | 0 <= i < j < |r| ensures r[i].id != r[j].id {
          assert r[j] == rest[j - 1];
          if i > 0 {
            assert r[i] == rest[i - 1];
          }
        }
      }
    }
  }

  /** No later gallery message shares the first message's id. */
  lemma HeadIdNotLater(messages: seq<Message>)
    requires |messages| > 0 && UniqueMessageIds(messages)
    ensures forall m :: m in GalleryMessages(messages[1..]) ==> m.id != messages[0].id
  {
    var tail := messages[1..];
    forall m | m in GalleryMessages(tail) ensures m.id != messages[0].id {
      var k :| 0 <= k < |tail| && tail[k] == m;
      assert tail[k] == messages[k + 1];
    }
  }

  /** A card's React key; the loading card has none. */
  function Key(c: Card): string {
    if c.ImageCardOf? then c.key else ""
  }

  /** The keys of one message's cards differ from each other. */
  lemma OwnKeysUnique(m: Message)
    ensures forall p, q :: 0 <= p < q < |MessageCards(m)| ==> Key(MessageCards(m)[p]) != Key(MessageCards(m)[q])
  {
    forall p, q | 0 <= p < q < |MessageCards(m)| ensures Key(MessageCards(m)[p]) != Key(MessageCards(m)[q]) {
      ImageKeysDistinct(m.id, p, q);
    }
  }

  /** The keys of the first message's cards differ from those of every
      later message's cards. */
  lemma HeadKeysAvoidTail(messages: seq<Message>)
    requires |messages| > 0 && UniqueMessageIds(messages)
    ensures forall p, q :: 0 <= p < |MessageCards(messages[0])| && 0 <= q < |Flatten(messages[1..])| ==>
      Key(MessageCards(messages[0])[p]) != Key(Flatten(messages[1..])[q])
  {
    var m := messages[0];
    var tail := messages[1..];
    OwnCardsName(m);
    CardsComeFromMessages(tail);
    var own := MessageCards(m);
    var rest := Flatten(tail);
    forall p, q | 0 <= p < |own| && 0 <= q < |rest| ensures Key(own[p]) != Key(rest[q]) {
      assert own[p] in own && rest[q] in rest;
      var id := rest[q].messageId;
      var k :| 0 <= k < |tail| && MessageIds(tail)[k] == id;
      assert tail[k] == messages[k + 1];
    }
  }

  /** When a chat's message ids are unique, no two of its cards share a
      React key. */
  lemma {:induction false} FlattenKeysUnique(messages: seq<Message>)
    requires UniqueMessageIds(messages)
    ensures forall p, q :: 0 <= p < q < |Flatten(messages)| ==> Key(Flatten(messages)[p]) != Key(Flatten(messages)[q])
    decreases |messages|
  {
    if |messages| > 0 {
      var tail := messages[1..];
      assert UniqueMessageIds(tail) by {
        forall i, j | 0 <= i < j < |tail| ensures tail[i].id != tail[j].id {
          assert tail[i] == messages[i + 1] && tail[j] == messages[j + 1];
        }
      }
      FlattenKeysUnique(tail);
      OwnKeysUnique(messages[0]);
      HeadKeysAvoidTail(messages);
      var own := MessageCards(messages[0]);
      var rest := Flatten(tail);
      var all := Flatten(messages);
      assert all == own + rest;
      forall p, q | 0 <= p < q < |all| ensures Key(all[p]) != Key(all[q]) {
        if q < |own| {
          assert all[p] == own[p] && all[q] == own[q];
        } else if p < |own| {
          assert all[p] == own[p] && all[q] == rest[q - |own|];
        } else {
          assert all[p] == rest[p - |own|] && all[q] == rest[q - |own|];
        }
      }
    }
  }

  /** The cards of the active chat never share a key. */
  lemma GalleryKeysUnique(s: State)
    requires GetActiveChat(s).Some? && UniqueMessageIds(GetActiveChat(s).value.messages)
    ensures var cards := Flatten(GalleryMessages(GetActiveChat(s).value.messages));
      forall p, q :: 0 <= p < q < |cards| ==> Key(cards[p]) != Key(cards[q])
  {
    GalleryMessagesUnique(GetActiveChat(s).value.messages);
    FlattenKeysUnique(GalleryMessages(GetActiveChat(s).value.messages));
  }

  /** A successful image update of a gallery message that already has
      images gives it exactly one more card, showing the new image, and
      keeps the cards it had. */
  lemma UpdateAddsOneCard(m: Message, updates: Fields, now: string)
    requires Truthy(updates.newImageUrl)
    requires m.fields.images.Some? && |m.fields.images.value| > 0
    requires updates.text.None? && updates.status.None?
    ensures var m2 := UpdateMessage(m, m.id, updates, now);
      && MessageCards(m2) == MessageCards(m) + [ImageCardOf(ImageKey(m.id, |m.fields.images.value|),
           CardImage(updates.newImageUrl.value, Some(now)), m.fields.text, m.id, m.fields.status)]
  {
    var m2 := UpdateMessage(m, m.id, updates, now);
    var prev := m.fields.images.value;
    assert m2.fields.images == Some(prev + [Image(updates.newImageUrl.value, now)]);
    var a := MessageCards(m2);
    var b := MessageCards(m) + [ImageCardOf(ImageKey(m.id, |prev|),
           CardImage(updates.newImageUrl.value, Some(now)), m.fields.text, m.id, m.fields.status)];
    assert |a| == |b|;
    forall i | 0 <= i < |a| ensures a[i] == b[i] {
      if i < |prev| {
        assert (prev + [Image(updates.newImageUrl.value, now)])[i] == prev[i];
      }
    }
  }

  /** The placeholder a send adds (type 'image', empty url, no images) is a
      gallery message that shows no card yet. */
  lemma PlaceholderShowsNoCard(id: int, promptText: string)
    ensures var m := Message(id, Empty.(kind := Some("image"), url := Some(""), promptText := Some(promptText),
                                         isLoading := Some(true), images := Some([])));
      IsGalleryMessage(m) && MessageCards(m) == []
  {
  }
}
