/** The pure parts of the image service client (src/api/veniceApi.js): the
    request payload and its defaults, the API-key check, the choice of error
    message when the request fails, and the formatting of the model and
    style lists with their fallbacks. The transport itself is not modelled;
    its result enters as a parameter. */
module VeniceApi {
  import opened JsValues
  import opened JsStrings
  import opened ChatContext

  // ---------------------------------------------------------------------
  // Payload

  /** `ensureNumber(value, defaultValue)`: the default for `undefined` and
      `null`, otherwise `parseInt(String(value), 10)`, falling back to the
      default when that is NaN. */
  function EnsureNumber(value: JsValue, default: int): (r: int)
    ensures value.Undefined? || value.Null? || value.Bool? ==> r == default
    ensures value.Num? ==> r == value.n
    ensures value.Str? && ParseInt(value.s).Some? ==> r == ParseInt(value.s).value
    ensures value.Str? && ParseInt(value.s).None? ==> r == default
  {
    match value
    case Undefined => default
    case Null => default
    case Bool(_) => default
    case Num(n) =>
      ParseIntRoundTrip(n);
      ParseInt(IntToString(n)).GetOr(default)
    case Str(s) => ParseInt(s).GetOr(default)
  }

  /** A text option that the user typed as a number is read back as that
      number; text with no digits at all falls back to the default. */
  lemma EnsureNumberOfText(n: int, default: int, junk: string)
    requires forall i :: 0 <= i < |junk| ==> !IsDigit(junk[i])
    ensures EnsureNumber(Str(IntToString(n)), default) == n
    ensures EnsureNumber(Str(junk), default) == default
  {
    ParseIntRoundTrip(n);
    ParseIntWithoutDigits(junk);
  }

  /** The options `generateImage` reads. `cfgScale` is not part of this
      model. */
  datatype GenerationOptions = GenerationOptions(
    model: Option<string>,
    width: JsValue,
    height: JsValue,
    steps: JsValue,
    stylePreset: Option<string>,
    negativePrompt: Option<string>,
    seed: JsValue)

  /** The JSON body sent to the service; `seed` is absent unless given. */
  datatype Payload = Payload(
    model: string,
    prompt: string,
    width: int,
    height: int,
    steps: int,
    safeMode: bool,
    hideWatermark: bool,
    stylePreset: string,
    negativePrompt: string,
    returnBinary: bool,
    seed: Option<int>)

  /** The payload for `prompt` and `options`; `randomSeed` stands for
      `Math.floor(Math.random() * 1000000)`. */
  function BuildPayload(prompt: string, options: GenerationOptions, randomSeed: int): (r: Payload)
    ensures r.prompt == prompt
    ensures r.safeMode && r.hideWatermark && r.returnBinary
    ensures r.model == (if Truthy(options.model) then options.model.value else "venice-sd35")
    ensures r.stylePreset == (if Truthy(options.stylePreset) then options.stylePreset.value else "Photographic")
    ensures r.negativePrompt == (if Truthy(options.negativePrompt) then options.negativePrompt.value else DefaultNegativePrompt)
    ensures r.width == EnsureNumber(options.width, 1024)
    ensures r.height == EnsureNumber(options.height, 1024)
    ensures r.steps == EnsureNumber(options.steps, 30)
    ensures r.seed.Some? <==> IsTruthy(options.seed)
    ensures r.seed.Some? ==> r.seed.value == EnsureNumber(options.seed, randomSeed)
  {
    Payload(
      OrElse(options.model, "venice-sd35"),
      prompt,
      EnsureNumber(options.width, 1024),
      EnsureNumber(options.height, 1024),
      EnsureNumber(options.steps, 30),
      true,
      true,
      OrElse(options.stylePreset, "Photographic"),
      OrElse(options.negativePrompt, DefaultNegativePrompt),
      true,
      if IsTruthy(options.seed) then Some(EnsureNumber(options.seed, randomSeed)) else None)
  }

  /** The settings object the chat page passes as options: it carries no
      seed. */
  function OptionsFromSettings(st: Settings): GenerationOptions {
    GenerationOptions(Some(st.model), Num(st.width), Num(st.height), Num(st.steps),
                      Some(st.stylePreset), Some(st.negativePrompt), Undefined)
  }

  /** The payload built from the settings carries their dimensions and step
      count, never a seed, and always asks for safe mode and no watermark,
      whatever the settings say. */
  lemma PayloadFromSettings(prompt: string, st: Settings, randomSeed: int)
    ensures var p := BuildPayload(prompt, OptionsFromSettings(st), randomSeed);
      && p.width == st.width && p.height == st.height && p.steps == st.steps
      && p.seed.None?
      && p.safeMode && p.hideWatermark
      && p.model == (if st.model != "" then st.model else "venice-sd35")
      && p.stylePreset == (if st.stylePreset != "" then st.stylePreset else "Photographic")
      && p.negativePrompt == (if st.negativePrompt != "" then st.negativePrompt else DefaultNegativePrompt)
  {
  }

  /** The default settings reach the service unchanged, apart from safe
      mode, which the client forces on. */
  lemma DefaultSettingsPayload(prompt: string, randomSeed: int)
    ensures BuildPayload(prompt, OptionsFromSettings(DefaultSettings), randomSeed)
            == Payload("venice-sd35", prompt, 1024, 1024, 30, true, true, "Photographic", DefaultNegativePrompt, true, None)
    ensures !DefaultSettings.safeMode
  {
  }

  // ---------------------------------------------------------------------
  // Key check and failure classification

  const KeyError := "Invalid or missing API key. Check your .env file."
  const TimeoutError := "Request timed out. The server took too long to respond."

  /** The API-key check: missing or shorter than ten UTF-16 code units fails. */
  function CheckApiKey(apiKey: string): (r: Option<string>)
    ensures r.Some? <==> Length(apiKey) < 10
    ensures r.Some? ==> r.value == KeyError
  {
    if apiKey == "" || Length(apiKey) < 10 then Some(KeyError) else None
  }

  /** How the request came back: aborted by the thirty-second timer,
      rejected by `fetch` with a message, or answered with a status code and
      body text. */
  datatype FetchResult = Aborted | Rejected(message: string) | Responded(status: int, body: string)

  /** `response.ok` */
  predicate Ok(status: int) {
    200 <= status <= 299
  }

  /** The message of the error the request block throws for a non-OK
      status, before the surrounding handler rewraps it. */
  function HttpErrorText(status: int, body: string): string {
    "Venice API error: " + IntToString(status) + " - " + (if body != "" then body else "Unknown error")
  }

  /** The two ways the request block can fail: the timeout, or any other
      error rewrapped as a network error around its own message. */
  datatype RequestError = TimedOut | NetworkError(detail: string) {
    function Message(): string {
      match this
      case TimedOut => TimeoutError
      case NetworkError(d) => "Network error: " + d
    }
  }

  /** The error the request block ends with, if any. The HTTP error is
      thrown inside the block whose handler rewraps every error but an
      abort, so an error status surfaces as a network error. */
  function ClassifyFetch(f: FetchResult): (r: Option<RequestError>)
    ensures r.None? <==> f.Responded? && Ok(f.status)
    ensures r == Some(TimedOut) <==> f.Aborted?
    ensures f.Rejected? ==> r == Some(NetworkError(f.message))
    ensures f.Responded? && !Ok(f.status) ==> r == Some(NetworkError(HttpErrorText(f.status, f.body)))
  {
    match f
    case Aborted => Some(TimedOut)
    case Rejected(msg) => Some(NetworkError(msg))
    case Responded(status, body) =>
      if Ok(status) then None else Some(NetworkError(HttpErrorText(status, body)))
  }

  /** Where `generateImage` gets to: the key check failed before anything
      was sent, the request failed with a message, or a response is in hand
      (the image handling that follows is not modelled). */
  datatype Attempt = KeyRejected(message: string) | RequestFailed(message: string) | Answered(payload: Payload)

  /** `generateImage(prompt, options)` up to the response, with `f` the
      transport's result should a request be made. */
  function GenerateImage(prompt: string, options: GenerationOptions, apiKey: string, randomSeed: int, f: FetchResult): (r: Attempt)
    ensures r.KeyRejected? <==> Length(apiKey) < 10
    ensures r.KeyRejected? ==> r.message == KeyError
    ensures r.RequestFailed? <==> Length(apiKey) >= 10 && ClassifyFetch(f).Some?
    ensures r.RequestFailed? ==> r.message == ClassifyFetch(f).value.Message()
    ensures r.Answered? ==> r.payload == BuildPayload(prompt, options, randomSeed) && f.Responded? && Ok(f.status)
  {
    var payload := BuildPayload(prompt, options, randomSeed);
    match CheckApiKey(apiKey)
    case Some(e) => KeyRejected(e)
    case None =>
      match ClassifyFetch(f)
      case Some(e) => RequestFailed(e.Message())
      case None => Answered(payload)
  }

  /** A short key is rejected the same way whatever the transport would
      have done: no request is made. */
  lemma ShortKeyNeverSends(prompt: string, options: GenerationOptions, apiKey: string, randomSeed: int, f: FetchResult, g: FetchResult)
    requires Length(apiKey) < 10
    ensures GenerateImage(prompt, options, apiKey, randomSeed, f) == GenerateImage(prompt, options, apiKey, randomSeed, g)
  {
  }

  /** With a valid key, an aborted request fails with the timeout message
      and an error status with a network error naming the status. */
  lemma FailureMessages(prompt: string, options: GenerationOptions, apiKey: string, randomSeed: int, status: int, body: string)
    requires Length(apiKey) >= 10 && !Ok(status)
    ensures GenerateImage(prompt, options, apiKey, randomSeed, Aborted) == RequestFailed(TimeoutError)
    ensures GenerateImage(prompt, options, apiKey, randomSeed, Responded(status, body))
            == RequestFailed("Network error: Venice API error: " + IntToString(status) + " - "
                             + (if body != "" then body else "Unknown error"))
  {
    HttpErrorMessage(status, body);
  }

  /** The rewrapped HTTP error names the service, then the status, which
      parses back from the text, then the body (or `Unknown error`) as its
      tail; it is one line whenever the body is. */
  lemma HttpErrorMessage(status: int, body: string)
    ensures var m := NetworkError(HttpErrorText(status, body)).Message();
      && m == "Network error: Venice API error: " + IntToString(status) + " - " + (if body != "" then body else "Unknown error")
      && |m| > 33 && m[..33] == "Network error: Venice API error: "
      && ParseInt(m[33..]) == Some(status)
      && (body != "" ==> m[|m| - |body|..] == body)
      && ('\n' !in body ==> '\n' !in m)
  {
    HttpErrorShape(status, body);
    HttpErrorReadsBack(status, if body != "" then body else "Unknown error");
    if '\n' !in body {
      HttpErrorOneLine(status, body);
    }
  }

  lemma HttpErrorShape(status: int, body: string)
    ensures NetworkError(HttpErrorText(status, body)).Message()
            == "Network error: Venice API error: " + IntToString(status) + " - " + (if body != "" then body else "Unknown error")
  {
    var t := IntToString(status);
    var b := if body != "" then body else "Unknown error";
    assert "Network error: " + ("Venice API error: " + t + " - " + b)
           == "Network error: Venice API error: " + t + " - " + b;
  }

  lemma HttpErrorOneLine(status: int, body: string)
    requires '\n' !in body
    ensures '\n' !in "Network error: Venice API error: " + IntToString(status) + " - " + (if body != "" then body else "Unknown error")
  {
    IntTextOneLine(status);
    assert '\n' !in "Unknown error";
    OneLineJoin("Network error: Venice API error: ", IntToString(status), " - ", if body != "" then body else "Unknown error");
  }

  lemma HttpErrorReadsBack(status: int, b: string)
    ensures var m := "Network error: Venice API error: " + IntToString(status) + " - " + b;
      && |m| > 33 && m[..33] == "Network error: Venice API error: "
      && ParseInt(m[33..]) == Some(status)
      && m[|m| - |b|..] == b
  {
    var t := IntToString(status);
    var m := "Network error: Venice API error: " + t + " - " + b;
    assert m[33..] == t + (" - " + b);
    ParseIntOfIntToString(status, " - " + b);
  }

  /** A number's text has no line break. */
  lemma IntTextOneLine(n: int)
    ensures '\n' !in IntToString(n)
  {
    var t := IntToString(n);
    if n >= 0 {
      assert AllDigits(t);
    } else {
      assert t == [t[0]] + t[1..];
    }
  }

  lemma OneLineJoin(a: string, b: string, c: string, d: string)
    requires '\n' !in a && '\n' !in b && '\n' !in c && '\n' !in d
    ensures '\n' !in a + b + c + d
  {
  }

  // ---------------------------------------------------------------------
  // Model labels

  /** `word.charAt(0).toUpperCase() + word.slice(1)` */
  function Capitalize(word: string): (r: string)
    ensures |r| == |word|
    ensures |word| > 0 ==> r[0] == ToUpperChar(word[0]) && r[1..] == word[1..]
  {
    if word == "" then "" else [ToUpperChar(word[0])] + word[1..]
  }

  function CapitalizeAll(words: seq<string>): (r: seq<string>)
    ensures |r| == |words|
    ensures forall i :: 0 <= i < |words| ==> r[i] == Capitalize(words[i])
  {
    seq(|words|, i requires 0 <= i < |words| => Capitalize(words[i]))
  }

  function DashToSpace(c: char): char {
    if c == '-' then ' ' else c
  }

  /** The label formula: hyphens become spaces, and the first character of
      every space-separated word is upper-cased. */
  function FormatLabel(s: string): string {
    Join(CapitalizeAll(Split(MapChars(s, DashToSpace), ' ')), ' ')
  }

  /** A character-by-character reading of the label formula: `start` says
      whether the next character begins a word. */
  function CapitalizeFrom(t: string, start: bool): (r: string)
    ensures |r| == |t|
    decreases |t|
  {
    if t == "" then ""
    else if t[0] == ' ' then " " + CapitalizeFrom(t[1..], true)
    else [if start then ToUpperChar(t[0]) else t[0]] + CapitalizeFrom(t[1..], false)
  }

  /** Splitting, capitalising and joining is the character-by-character
      reading: from a word start, and, with the first word left as it is,
      from inside a word. */
  lemma {:induction false} FormatMatchesCapitalizeFrom(t: string)
    ensures Join(CapitalizeAll(Split(t, ' ')), ' ') == CapitalizeFrom(t, true)
    ensures var ws := Split(t, ' ');
      Join([ws[0]] + CapitalizeAll(ws[1..]), ' ') == CapitalizeFrom(t, false)
    decreases |t|
  {
    if t != "" {
      var c, u := t[0], t[1..];
      FormatMatchesCapitalizeFrom(u);
      assert t == [c] + u;
      if c == ' ' {
        SpaceStepCapitalized(u);
        SpaceStepKept(u);
      } else {
        WordStepCapitalized(c, u);
        WordStepKept(c, u);
      }
    }
  }

  lemma CapitalizeCons(c: char, w: string)
    ensures Capitalize([c] + w) == [ToUpperChar(c)] + w
  {
    assert ([c] + w)[1..] == w;
  }

  lemma CapitalizeAllCons(w: string, ws: seq<string>)
    ensures CapitalizeAll([w] + ws) == [Capitalize(w)] + CapitalizeAll(ws)
  {
    var l := CapitalizeAll([w] + ws);
    var r := [Capitalize(w)] + CapitalizeAll(ws);
    forall i | 0 <= i < |l|
      ensures l[i] == r[i]
    {
      if i > 0 {
        assert ([w] + ws)[i] == ws[i - 1];
      }
    }
    assert l == r;
  }

  /** Joining an empty first piece puts a separator in front. */
  lemma JoinEmptyFirst(parts: seq<string>)
    requires |parts| > 0
    ensures Join([""] + parts, ' ') == " " + Join(parts, ' ')
  {
    assert ([""] + parts)[1..] == parts;
  }

  lemma SpaceStepCapitalized(u: string)
    requires Join(CapitalizeAll(Split(u, ' ')), ' ') == CapitalizeFrom(u, true)
    ensures Join(CapitalizeAll(Split([' '] + u, ' ')), ' ') == CapitalizeFrom([' '] + u, true)
  {
    var ws := Split(u, ' ');
    SplitCons(' ', u, ' ');
    assert CapitalizeAll([""] + ws) == [""] + CapitalizeAll(ws);
    JoinEmptyFirst(CapitalizeAll(ws));
    assert ([' '] + u)[1..] == u;
  }

  lemma SpaceStepKept(u: string)
    requires Join(CapitalizeAll(Split(u, ' ')), ' ') == CapitalizeFrom(u, true)
    ensures var ws := Split([' '] + u, ' ');
      Join([ws[0]] + CapitalizeAll(ws[1..]), ' ') == CapitalizeFrom([' '] + u, false)
  {
    var ws := Split(u, ' ');
    SplitCons(' ', u, ' ');
    assert ([""] + ws)[0] == "" && ([""] + ws)[1..] == ws;
    JoinEmptyFirst(CapitalizeAll(ws));
    assert ([' '] + u)[1..] == u;
  }

  lemma WordStepCapitalized(c: char, u: string)
    requires c != ' '
    requires var ws := Split(u, ' ');
      Join([ws[0]] + CapitalizeAll(ws[1..]), ' ') == CapitalizeFrom(u, false)
    ensures Join(CapitalizeAll(Split([c] + u, ' ')), ' ') == CapitalizeFrom([c] + u, true)
  {
    var ws := Split(u, ' ');
    var tail := CapitalizeAll(ws[1..]);
    SplitCons(c, u, ' ');
    CapitalizeAllCons([c] + ws[0], ws[1..]);
    CapitalizeCons(c, ws[0]);
    JoinConsChar(ToUpperChar(c), [ws[0]] + tail, ' ');
    assert ([ws[0]] + tail)[1..] == tail;
    assert ([c] + u)[1..] == u;
  }

  lemma WordStepKept(c: char, u: string)
    requires c != ' '
    requires var ws := Split(u, ' ');
      Join([ws[0]] + CapitalizeAll(ws[1..]), ' ') == CapitalizeFrom(u, false)
    ensures var ws := Split([c] + u, ' ');
      Join([ws[0]] + CapitalizeAll(ws[1..]), ' ') == CapitalizeFrom([c] + u, false)
  {
    var ws := Split(u, ' ');
    var tail := CapitalizeAll(ws[1..]);
    SplitCons(c, u, ' ');
    assert ([[c] + ws[0]] + ws[1..])[0] == [c] + ws[0];
    assert ([[c] + ws[0]] + ws[1..])[1..] == ws[1..];
    JoinConsChar(c, [ws[0]] + tail, ' ');
    assert ([ws[0]] + tail)[1..] == tail;
    assert ([c] + u)[1..] == u;
  }

  /** Each character of `CapitalizeFrom` on its own: spaces stay, a
      character after a space (or at a word start) is upper-cased, the rest
      stay. */
  lemma {:induction false} CapitalizeFromAt(t: string, start: bool)
    ensures |t| > 0 ==>
      CapitalizeFrom(t, start)[0] == if t[0] == ' ' then ' ' else if start then ToUpperChar(t[0]) else t[0]
    ensures forall i :: 1 <= i < |t| ==>
      CapitalizeFrom(t, start)[i]
      == if t[i] == ' ' then ' ' else if t[i - 1] == ' ' then ToUpperChar(t[i]) else t[i]
    decreases |t|
  {
    if t != "" {
      CapitalizeFromAt(t[1..], t[0] == ' ');
      var r := CapitalizeFrom(t, start);
      var rest := CapitalizeFrom(t[1..], t[0] == ' ');
      assert r[1..] == rest;
      forall i | 1 <= i < |t|
        ensures r[i] == if t[i] == ' ' then ' ' else if t[i - 1] == ' ' then ToUpperChar(t[i]) else t[i]
      {
        assert r[i] == rest[i - 1];
        assert t[1..][i - 1] == t[i];
        if i > 1 {
          assert t[1..][i - 2] == t[i - 1];
        }
      }
    }
  }

  /** The label, character by character: as long as the name; a hyphen or
      space becomes a space; a character at the start or after a hyphen or
      space is upper-cased; every other character is kept. */
  lemma FormatLabelAt(s: string)
    ensures |FormatLabel(s)| == |s|
    ensures forall i :: 0 <= i < |s| ==>
      FormatLabel(s)[i]
      == if s[i] == '-' || s[i] == ' ' then ' '
         else if i == 0 || s[i - 1] == '-' || s[i - 1] == ' ' then ToUpperChar(s[i])
         else s[i]
  {
    var t := MapChars(s, DashToSpace);
    FormatMatchesCapitalizeFrom(t);
    CapitalizeFromAt(t, true);
    forall i | 0 <= i < |s|
      ensures FormatLabel(s)[i]
              == if s[i] == '-' || s[i] == ' ' then ' '
                 else if i == 0 || s[i - 1] == '-' || s[i - 1] == ' ' then ToUpperChar(s[i])
                 else s[i]
    {
      assert t[i] == DashToSpace(s[i]);
      if i > 0 {
        assert t[i - 1] == DashToSpace(s[i - 1]);
      }
    }
  }

  /** A model list entry: a bare name, an object with optional keys, or
      null/undefined. */
  datatype ModelEntry = ModelName(name: string)
                      | ModelObject(id: Option<string>, modelId: Option<string>, objName: Option<string>, displayName: Option<string>)
                      | NoModel

  /** An option of the model selector; `value` is undefined when no key is
      present. */
  datatype ModelOption = ModelOption(value: Option<string>, caption: string)

  /** `id || model_id || name` */
  function FirstOf3(a: Option<string>, b: Option<string>, c: Option<string>): Option<string> {
    if Truthy(a) then a else if Truthy(b) then b else c
  }

  /** An entry read as an object. A bare name has none of the keys, so it
      gives an undefined value and an empty label; reading a key of null
      throws, which is `None` here. */
  function ObjectOption(e: ModelEntry): (r: Option<ModelOption>)
    ensures r.None? <==> e.NoModel?
    ensures e.ModelName? ==> r == Some(ModelOption(None, ""))
    ensures e.ModelObject? && Truthy(e.id) ==> r.value.value == e.id
  {
    match e
    case ModelName(_) =>
      assert Split("", ' ') == [""];
      Some(ModelOption(None, FormatLabel("")))
    case ModelObject(id, modelId, name, displayName) =>
      Some(ModelOption(FirstOf3(id, modelId, name),
                       FormatLabel(OrElse(displayName, OrElse(name, OrElse(id, ""))))))
    case NoModel => None
  }

  /** An entry of a bare array: a name is its own value and its label is
      the formatted name, so the value reads back from the option; an
      object is read as above, and null throws. */
  function BareOption(e: ModelEntry): (r: Option<ModelOption>)
    ensures r.None? <==> e.NoModel?
    ensures e.ModelName? ==> r.value.value == Some(e.name) && |r.value.caption| == |e.name|
    ensures e.ModelObject? ==> r == ObjectOption(e)
  {
    match e
    case ModelName(n) =>
      FormatLabelAt(n);
      Some(ModelOption(Some(n), FormatLabel(n)))
    case ModelObject(_, _, _, _) => ObjectOption(e)
    case NoModel => None
  }

  /** The response body's shapes the client recognises: `{data: [...]}`,
      `{models: [...]}`, a bare array, or anything else. */
  datatype ModelsBody = ModelsInData(entries: seq<ModelEntry>) | ModelsInModels(entries: seq<ModelEntry>)
                      | ModelsBare(entries: seq<ModelEntry>) | ModelsUnknown

  /** The models request: failed (any error, including an error status), or
      answered with a body. */
  datatype ModelsResponse = ModelsFailed | ModelsAnswered(body: ModelsBody)

  const FallbackModels := [ModelOption(Some("venice-sd35"), "Venice SD 3.5"), ModelOption(Some("lustify-sdxl"), "Lustify SDXL")]

  /** One entry read by `map`: as a bare-array entry or as an object. */
  function ReadEntry(e: ModelEntry, bare: bool): Option<ModelOption> {
    if bare then BareOption(e) else ObjectOption(e)
  }

  /** `entries.map(...)`: one option per entry, in order, or a throw
      (`None`) as soon as an entry is null. */
  function MapEntries(es: seq<ModelEntry>, bare: bool): (r: Option<seq<ModelOption>>)
    ensures r.None? <==> NoModel in es
    ensures r.Some? ==> |r.value| == |es| && forall i :: 0 <= i < |es| ==> ReadEntry(es[i], bare) == Some(r.value[i])
    decreases |es|
  {
    if |es| == 0 then Some([])
    else
      var head := ReadEntry(es[0], bare);
      var rest := MapEntries(es[1..], bare);
      assert es == [es[0]] + es[1..];
      if head.None? || rest.None? then None else Some([head.value] + rest.value)
  }

  /** The options read from a body: as many as the recognised array has
      entries, each read from the entry at the same place; a null entry
      throws (`None`), and an unknown body gives none. */
  function FormatModels(body: ModelsBody): (r: Option<seq<ModelOption>>)
    ensures body.ModelsUnknown? ==> r == Some([])
    ensures !body.ModelsUnknown? ==> (r.None? <==> NoModel in body.entries)
    ensures !body.ModelsUnknown? && r.Some? ==> |r.value| == |body.entries|
    ensures (body.ModelsInData? || body.ModelsInModels?) && r.Some? ==>
      forall i :: 0 <= i < |r.value| ==> ObjectOption(body.entries[i]) == Some(r.value[i])
    ensures body.ModelsBare? && r.Some? ==> forall i :: 0 <= i < |r.value| ==> BareOption(body.entries[i]) == Some(r.value[i])
  {
    match body
    case ModelsInData(es) => MapEntries(es, false)
    case ModelsInModels(es) => MapEntries(es, false)
    case ModelsBare(es) => MapEntries(es, true)
    case ModelsUnknown => Some([])
  }

  /** A bare array of names offers exactly those names, in order. */
  lemma BareNamesReadBack(names: seq<string>)
    ensures var r := FormatModels(ModelsBare(seq(|names|, i requires 0 <= i < |names| => ModelName(names[i]))));
      r.Some? && |r.value| == |names| && forall i :: 0 <= i < |names| ==> r.value[i].value == Some(names[i])
  {
    var es := seq(|names|, i requires 0 <= i < |names| => ModelName(names[i]));
    assert forall i :: 0 <= i < |es| ==> es[i].ModelName?;
    assert NoModel !in es;
    var r := FormatModels(ModelsBare(es));
    forall i | 0 <= i < |names|
      ensures r.value[i].value == Some(names[i])
    {
      assert BareOption(es[i]) == Some(r.value[i]);
    }
  }

  /** `fetchImageModels()`: the formatted list, or the two fallback models
      when the list is empty, reading it threw or the request failed. */
  function FetchImageModels(response: ModelsResponse): (r: seq<ModelOption>)
    ensures |r| > 0
    ensures response.ModelsFailed? ==> r == FallbackModels
    ensures response.ModelsAnswered? && FormatModels(response.body) in {None, Some([])} ==> r == FallbackModels
    ensures response.ModelsAnswered? && !response.body.ModelsUnknown? && NoModel in response.body.entries ==> r == FallbackModels
    ensures response.ModelsAnswered? && FormatModels(response.body).Some? && FormatModels(response.body) != Some([]) ==>
      r == FormatModels(response.body).value
  {
    match response
    case ModelsFailed => FallbackModels
    case ModelsAnswered(body) =>
      match FormatModels(body)
      case None => FallbackModels
      case Some(formatted) => if |formatted| == 0 then FallbackModels else formatted
  }

  /** The default model is always offered when the list falls back. */
  lemma FallbackOffersDefaultModel(response: ModelsResponse)
    requires response.ModelsFailed? || FormatModels(response.body) in {None, Some([])}
    ensures exists i :: 0 <= i < |FetchImageModels(response)| && FetchImageModels(response)[i].value == Some(DefaultSettings.model)
  {
    assert FetchImageModels(response)[0].value == Some(DefaultSettings.model);
  }

  // ---------------------------------------------------------------------
  // Styles

  /** A style list entry as received, or as passed on: a name, an object
      with optional `name` and `id`, or null/undefined. */
  datatype StyleValue = StyleName(name: string) | StyleObject(objName: Option<string>, id: Option<string>) | NoStyle

  datatype StylesBody = StylesInData(entries: seq<StyleValue>) | StylesInStyles(entries: seq<StyleValue>)
                      | StylesBare(entries: seq<StyleValue>) | StylesUnknown

  datatype StylesResponse = StylesFailed | StylesAnswered(body: StylesBody)

  const FallbackStyles := [StyleName("Photographic"), StyleName("Digital Art"), StyleName("Cinematic"), StyleName("Anime"),
                           StyleName("Fantasy Art"), StyleName("Neon Punk"), StyleName("Retro"), StyleName("Abstract"), StyleName("Realistic")]

  /** An entry of a bare array: a name stays, an object becomes its truthy
      `name`, else its `id` (undefined when it has none), and a null entry
      throws (`None`). No object is passed on. */
  function BareStyle(e: StyleValue): (r: Option<StyleValue>)
    ensures r.None? <==> e.NoStyle?
    ensures r.Some? ==> !r.value.StyleObject?
    ensures e.StyleName? ==> r == Some(e)
    ensures e.StyleObject? && Truthy(e.objName) ==> r == Some(StyleName(e.objName.value))
    ensures e.StyleObject? && !Truthy(e.objName) && e.id.Some? ==> r == Some(StyleName(e.id.value))
    ensures e.StyleObject? && !Truthy(e.objName) && e.id.None? ==> r == Some(NoStyle)
  {
    match e
    case StyleName(_) => Some(e)
    case StyleObject(name, id) =>
      if Truthy(name) then Some(StyleName(name.value)) else if id.Some? then Some(StyleName(id.value)) else Some(NoStyle)
    case NoStyle => None
  }

  /** `entries.map(...)` over a bare array: one value per entry, in order,
      or a throw (`None`) as soon as an entry is null. */
  function MapStyles(es: seq<StyleValue>): (r: Option<seq<StyleValue>>)
    ensures r.None? <==> NoStyle in es
    ensures r.Some? ==> |r.value| == |es| && forall i :: 0 <= i < |es| ==> BareStyle(es[i]) == Some(r.value[i])
    decreases |es|
  {
    if |es| == 0 then Some([])
    else
      var head := BareStyle(es[0]);
      var rest := MapStyles(es[1..]);
      assert es == [es[0]] + es[1..];
      if head.None? || rest.None? then None else Some([head.value] + rest.value)
  }

  /** The styles as passed on: the `data` or `styles` arrays untouched, a
      bare array read entry by entry (throwing on a null entry), and none
      for any other body. */
  function FormatStyles(body: StylesBody): (r: Option<seq<StyleValue>>)
    ensures body.StylesUnknown? ==> r == Some([])
    ensures body.StylesInData? || body.StylesInStyles? ==> r == Some(body.entries)
    ensures body.StylesBare? ==> (r.None? <==> NoStyle in body.entries)
    ensures body.StylesBare? && r.Some? ==>
      |r.value| == |body.entries| && forall i :: 0 <= i < |r.value| ==> BareStyle(body.entries[i]) == Some(r.value[i])
  {
    match body
    case StylesInData(es) => Some(es)
    case StylesInStyles(es) => Some(es)
    case StylesBare(es) => MapStyles(es)
    case StylesUnknown => Some([])
  }

  /** `fetchImageStyles()`: the list, or the nine fallback styles when it is
      empty, reading a bare array threw on a null entry, or the request
      failed. */
  function FetchImageStyles(response: StylesResponse): (r: seq<StyleValue>)
    ensures |r| > 0
    ensures response.StylesFailed? ==> r == FallbackStyles
    ensures response.StylesAnswered? && response.body.StylesBare? && NoStyle in response.body.entries ==> r == FallbackStyles
    ensures response.StylesAnswered? && FormatStyles(response.body) in {None, Some([])} ==> r == FallbackStyles
    ensures response.StylesAnswered? && FormatStyles(response.body).Some? && FormatStyles(response.body) != Some([]) ==>
      r == FormatStyles(response.body).value
  {
    match response
    case StylesFailed => FallbackStyles
    case StylesAnswered(body) =>
      match FormatStyles(body)
      case None => FallbackStyles
      case Some(formatted) => if |formatted| == 0 then FallbackStyles else formatted
  }

  /** The fallback styles are nine distinct names, the default preset among
      them. */
  lemma FallbackStylesWellFormed()
    ensures |FallbackStyles| == 9
    ensures forall i, j :: 0 <= i < j < |FallbackStyles| ==> FallbackStyles[i] != FallbackStyles[j]
    ensures FallbackStyles[0] == StyleName(DefaultSettings.stylePreset)
  {
  }
}
