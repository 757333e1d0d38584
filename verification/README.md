# Maitey chat state, in Dafny

Maitey is a browser app for text-to-image generation. The user types a prompt in a chat. The app sends it to the Venice image service and shows the answer as an image card. This project models the app's state core and the logic of its components as pure Dafny functions, and proves properties about them.

The core is the chat reducer of `src/context/ChatContext.jsx`. It is modelled as `ChatContext.Reduce(State, Action)`, with `ChatContext.Run` folding it over a sequence of actions. An event handler of a component is modelled as the sequence of actions it dispatches. Running that sequence through the reducer gives the state the user sees afterwards.

There is one module per source file:

| module | file | what it holds |
|---|---|---|
| `JsValues` | (shared) | absent values, JavaScript truthiness, `\|\|` on optional strings |
| `JsStrings` | (shared) | `trim`, `split(' ')`/`join`, `parseInt(_, 10)`, `String(n)`, character filters, `substring(0, n)` |
| `ChatContext` | `src/context/ChatContext.jsx` | the state, the nine actions, `chatReducer`, `createNewChat`, `getActiveChat`, `initialState` |
| `ChatView` | `src/components/ChatView.jsx` | send, regenerate, rename and delete handlers as action sequences |
| `ImageUtils` | `src/utils/imageUtils.js` | `downloadImage` dispatch, `shortenPrompt`, `generateFilenameFromPrompt` |
| `VeniceApi` | `src/api/veniceApi.js` | `ensureNumber`, the request payload, the key check, failure messages, model labels, fallback lists |
| `ImageCarousel` | `src/components/ImageCarousel.jsx` | previous/next index, download name |
| `ChatSelector` | `src/components/ChatSelector.jsx` | multi-select toggling, multi-delete, the preview line |
| `ImageSizeControl` | `src/components/ImageSizeControl.jsx` | size presets, the initial preset, preset and custom-size handlers |
| `PromptInput` | `src/components/PromptInput.jsx` | the submit guard, the disabled button, the counter |
| `PersistentPromptInput` | `src/components/PersistentPromptInput.jsx` | the gallery page's submit and its error path |
| `ImageGallery` | `src/components/ImageGallery.jsx` | the image-message filter and the flattening into cards |
| `ImageCard` | `src/components/ImageCard.jsx` | the download name and the regenerate button |

Parameters stand in for things outside the code:

- The clock is a parameter: `new Date().toISOString()` is `now`/`iso`, and `Date.now()` is `nowMillis`.
- The image service's answer is `ChatView.ServiceAnswer`: the resolved object's `imageUrl`, or a rejection message. What the handlers make of it is `ChatView.Outcome`: `Success(url)` or `Failure(message)`.
- The transport's result is `VeniceApi.FetchResult`: aborted, rejected, or a status and body.
- The API key is a string parameter.
- The message of a thrown error is a parameter.

Where the code's comments and names promise more than the code does, the model follows the code:

- A message carries the `isLoading`/`isError` flags the code writes, not a status field with a pending, complete and error state machine.
- An image update goes to the message with that id in whichever chat is active when it is dispatched. It does not go to the chat the request came from (see Findings).
- The context keeps no set of running generations. `activeGenerations` and `addNewImage` are read by components, but `src/context/ChatContext.jsx:226-238` provides neither.
- A failure is classified as a timeout or as a "Network error" wrapping the message. An HTTP error status becomes a network error too. There is no separate authentication class apart from the key-length check.
- An update without `newImageUrl` is a plain shallow merge. A patch that names `images` replaces the list, so the list is not append-only in general.

## Model

| member | source | states |
|---|---|---|
| ChatContext.NextId | src/context/ChatContext.jsx:175 | the next id is above every id present, is 1 for an empty list, and is one more than an id present |
| ChatContext.FindChat | src/context/ChatContext.jsx:171 | the index found holds the id and no earlier chat does; none found means no chat has the id |
| ChatContext.GetActiveChat | src/context/ChatContext.jsx:171 | a chat is returned exactly when some chat has the active id; it is the first chat in list order with that id |
| ChatContext.RemoveChat | src/context/ChatContext.jsx:62 | the filter keeps exactly the chats with another id, never grows, and is the identity when no chat has the id |
| ChatContext.RemoveChatKeepsOrder | src/context/ChatContext.jsx:62 | the filter keeps the other chats in their order (a subsequence), each as often as before, and drops every chat with the id |
| ChatContext.UpdateMessages | src/context/ChatContext.jsx:101-135 | the message map keeps the length and every id, leaves the messages with another id untouched, applies the per-message update at the matching positions, and is the identity when no message has the id |
| ChatContext.CreateNewChat | src/context/ChatContext.jsx:174-184 | the new id is above every chat id (1 without chats); the new chat comes last, empty, named by the custom name or `New Chat <id>`, and is active; settings, loading and error are kept |
| ChatContext.CreateNewChatKeepsIdsUnique | src/context/ChatContext.jsx:174-184 | creating a chat keeps chat ids unique, and `getActiveChat` then returns the new chat |
| ChatContext.NewChatIsFresh | src/context/ChatContext.jsx:175 | the allocated id is above the id of every existing chat |
| ChatContext.AppendFreshChat | src/context/ChatContext.jsx:54-59 | appending a chat whose id is above all others keeps ids unique, and the lookup by its id finds it last |
| ChatContext.AddChatAppends | src/context/ChatContext.jsx:54-59 | ADD_CHAT keeps the old chats as a prefix, puts the payload last and makes it active; when its id is fresh, `getActiveChat` then returns it; nothing else changes |
| ChatContext.DeleteChatEffect | src/context/ChatContext.jsx:61-67 | DELETE_CHAT keeps exactly the chats with another id, activates the first survivor or none, and keeps settings, loading and error |
| ChatContext.DeleteUnknownChatResetsActive | src/context/ChatContext.jsx:61-67 | deleting an id no chat has keeps the chats but still moves the active id to the first chat |
| ChatContext.RenameChatEffect | src/context/ChatContext.jsx:69-77 | RENAME_CHAT renames exactly the chats with the id and nothing else; an unknown id changes nothing |
| ChatContext.SetActiveChatEffect | src/context/ChatContext.jsx:51-52 | SET_ACTIVE_CHAT changes only the active id; selecting the old id again restores the state exactly; an id no chat has leaves no active chat |
| ChatContext.SelectChatFindsIt | src/context/ChatContext.jsx:51-52 | with unique chat ids, selecting a chat of the list makes `getActiveChat` return it |
| ChatContext.SetActiveChatCanInvalidate | src/context/ChatContext.jsx:51-52 | activating an id no chat has leaves chats but no valid active chat |
| ChatContext.AddMessageEffect | src/context/ChatContext.jsx:79-87 | ADD_MESSAGE appends the message to the chats with the active id only; without an active chat the state is unchanged |
| ChatContext.UpdateAppendsOneImage | src/context/ChatContext.jsx:106-127 | with a truthy `newImageUrl` the images grow by exactly one `{url, now}` after the old ones (or after none); `url` becomes the new url; the other keys are merged; `newImageUrl` is not stored |
| ChatContext.UpdateWithoutNewImageMerges | src/context/ChatContext.jsx:128-131 | without a truthy `newImageUrl` the named keys take the patch's values and the others keep theirs (a patch naming `images` replaces them), the id is kept, the same update again changes nothing, and an empty patch is the identity |
| ChatContext.UpdateImageMessageFrame | src/context/ChatContext.jsx:95-138 | UPDATE_IMAGE_MESSAGE touches only messages with the id in the active chat; other chats, other messages, the active id, settings, loading and error are unchanged; an unmatched id changes nothing |
| ChatContext.UpdateKeepsImagesPrefix | src/context/ChatContext.jsx:106-131 | an update that appends an image, or does not name `images`, keeps the old images as a prefix of the new ones |
| ChatContext.UpdateSettingsEffect | src/context/ChatContext.jsx:140-144 | UPDATE_SETTINGS changes only the settings; every named field takes the patch's value; the state is unchanged exactly when the settings already agree with the patch |
| ChatContext.UpdateSettingsIdempotent | src/context/ChatContext.jsx:140-144 | the same settings patch twice equals once; two patches equal their composition |
| ChatContext.MergeIdempotent | src/context/ChatContext.jsx:142 | the settings spread is idempotent and composes |
| ChatContext.SpreadIdempotent | src/context/ChatContext.jsx:128-131 | the message spread is idempotent and composes, and the empty patch is neutral |
| ChatContext.ReduceKeepsIdsUnique | src/context/ChatContext.jsx:49-150 | every action keeps chat ids unique, except an ADD_CHAT whose id is taken |
| ChatContext.RemoveChatKeepsIdsUnique | src/context/ChatContext.jsx:62 | filtering keeps chat ids unique |
| ChatContext.RemoveUniqueChat | src/context/ChatContext.jsx:61-67 | with unique ids, deleting the id of one chat removes exactly that chat |
| ChatContext.ReduceKeepsActiveValid | src/context/ChatContext.jsx:54-67 | ADD_CHAT and DELETE_CHAT restore a valid active chat, and every other action except SET_ACTIVE_CHAT keeps it |
| ChatContext.RunAppend | src/context/ChatContext.jsx:158-159 | dispatching two action sequences one after the other is dispatching their concatenation |
| ChatView.SendGuard | src/components/ChatView.jsx:39 | a send dispatches nothing exactly when the prompt trims to empty or no chat is active |
| ChatView.SendAllocatesFreshIds | src/components/ChatView.jsx:42-71 | the prompt message comes first, then the placeholder; their ids are consecutive and above every id in the chat (1 in an empty chat); the placeholder is a loading image with empty images and the prompt; loading is raised; the update then targets the placeholder |
| ChatView.PromptIdIsFresh | src/components/ChatView.jsx:42 | the prompt id is above every message id of the chat, and 1 in an empty chat |
| ChatView.UpdatePlaceholderOnly | src/components/ChatView.jsx:47-71 | the outcome's update reaches the placeholder and no older message |
| ChatView.AnnounceEffect | src/components/ChatView.jsx:44-58 | the opening actions append the prompt and the placeholder to the active chat, raise loading and change nothing else |
| ChatView.SettleEffect | src/components/ChatView.jsx:59-89 | the closing actions complete the placeholder; loading is cleared after a success and stays set after a failure |
| ChatView.CompletedShape | src/components/ChatView.jsx:68-86 | the completed placeholder keeps its id and is no longer loading; a success appends the image; a failure sets `isError` and a text starting with `Error: ` |
| ChatView.SendEffect | src/components/ChatView.jsx:38-90 | a whole send adds the prompt and the completed placeholder to the active chat and changes nothing else; loading ends set exactly after a failure |
| ChatView.SendIntendedClearsLoading | src/components/ChatView.jsx:72-89 | with the failure path completed as intended, loading ends cleared and a failure raises `Error generating image: <message>` |
| ChatView.RegenerateSuccessEffect | src/components/ChatView.jsx:92-120 | regeneration first marks the message loading and not in error without touching its images; success then appends one image, stores the prompt and clears loading; other messages and chats are unchanged |
| ChatView.RegenerateMessage | src/components/ChatView.jsx:96-110 | on one message, the two updates of a regeneration give the marked message and then the regenerated one |
| ChatView.SaveEditEffect | src/components/ChatView.jsx:126-131 | a rename is dispatched exactly for an active chat and a non-blank name, and stores the trimmed name on the active chat only |
| ChatView.DeleteCurrentChatEffect | src/components/ChatView.jsx:133-137 | deletion needs an active chat and confirmation; it removes that chat only and activates the first chat left |
| ChatView.ResultLandsInSwitchedChat | src/components/ChatView.jsx:64-87 | as written: after a switch to another chat mid-generation, the thrown TypeError's failure patch lands on the other chat's message with the placeholder's id (flagged as an error, its picture kept), while the original placeholder and the page stay loading |
| ChatView.ImageLandsInSwitchedChat | src/components/ChatView.jsx:64-71 | with the resolved object's `imageUrl` used, the same switch makes the new picture land on the other chat's message, and the original placeholder stays loading |
| ChatView.UpdateInIgnoresActiveChat | src/components/ChatView.jsx:68-71 | an update addressed to its chat ignores chat switches, touches only that chat, and agrees with the reducer's update while that chat is active |
| ChatView.SubmitIgnoresLoading | src/components/ChatView.jsx:214 | as written, the prompt box accepts a prompt while loading; with the flag passed under the prop name the box reads, it refuses it |
| ChatView.OutcomeAsWritten | src/components/ChatView.jsx:64-65 | as written every answer ends in the failure branch: a rejection with its message, a resolved object with the TypeError of `URL.createObjectURL` |
| ChatView.OutcomeIntended | src/components/ChatView.jsx:64-71 | a resolved answer is a success with its `imageUrl`; a rejection is the same failure as written |
| ChatView.SendAsWrittenNeverShowsImage | src/components/ChatView.jsx:64-89 | as written, a send whose image was generated leaves the placeholder flagged as an error with no image, and loading still set |
| ChatView.SendIntendedShowsImage | src/components/ChatView.jsx:64-71 | with the resolved object's `imageUrl`, the image lands in the placeholder and loading is cleared |
| ChatView.RegenerateAsWrittenAddsNoImage | src/components/ChatView.jsx:92-120 | as written, no update a regeneration dispatches carries a new image url; the regenerated message ends flagged as an error with the variation error text, not loading, its images unchanged, and the loading flag is cleared |
| ImageUtils.DownloadImage | src/utils/imageUtils.js:8-25 | a URL is fetched and saved, a Blob is saved directly, and anything else throws `Invalid image source`; the name defaults to `maitey-image.png` |
| ImageUtils.ShortenPrompt | src/utils/imageUtils.js:53-58 | an absent or empty prompt gives ''; a prompt of at most `maxLength` UTF-16 code units is kept; a longer one becomes a prefix of it followed by `...`, at most `maxLength` units long and, for a limit of at least 3, at least `maxLength - 1` (a surrogate pair is never split) |
| ImageUtils.ShortenPromptFitsAndIsStable | src/utils/imageUtils.js:53-58 | for a limit of at least 3 the result fits in `maxLength` UTF-16 code units, and shortening it again changes nothing |
| ImageUtils.SlugIsSlug | src/utils/imageUtils.js:36-42 | the sanitised middle holds only `[a-z0-9-]`, no doubled hyphen and no hyphen at either end |
| ImageUtils.SlugIdempotent | src/utils/imageUtils.js:36-42 | sanitising a sanitised name changes nothing |
| ImageUtils.SlugOfSlug | src/utils/imageUtils.js:36-42 | a single-word name in the slug alphabet is its own slug |
| ImageUtils.SlugIgnoresLaterWords | src/utils/imageUtils.js:36 | words after the third do not reach the name |
| ImageUtils.CollapseNoDoubleDash | src/utils/imageUtils.js:41 | collapsing hyphen runs leaves no doubled hyphen |
| ImageUtils.CollapseKeepsSlugChars | src/utils/imageUtils.js:40-41 | collapsing keeps a string within the slug alphabet |
| ImageUtils.CollapseKeepsSingleDashes | src/utils/imageUtils.js:41 | a string without a doubled hyphen is unchanged by the collapse |
| ImageUtils.FilenameLayout | src/utils/imageUtils.js:32-45 | the name is `maitey-<slug>-<time>.png`, or `maitey-image-<time>.png` without a prompt, and the time reads back |
| VeniceApi.EnsureNumber | src/api/veniceApi.js:26-30 | an absent value or one that does not parse gives the default; otherwise the value is `parseInt`'s result |
| VeniceApi.EnsureNumberOfText | src/api/veniceApi.js:26-30 | the decimal rendering of an integer, with any non-digit text after it, gives the integer back |
| VeniceApi.BuildPayload | src/api/veniceApi.js:39-52 | width, height and steps default to 1024, 1024 and 30; model, style and negative prompt fall back when falsy; safe mode, watermark hiding and binary return are always on; a seed is present exactly for a truthy seed option |
| VeniceApi.PayloadFromSettings | src/api/veniceApi.js:39-52 | the payload built from the settings carries their size and steps, their model, style preset and negative prompt when non-empty and the defaults otherwise, never a seed, and always forces safe mode and no watermark |
| VeniceApi.DefaultSettingsPayload | src/api/veniceApi.js:39-52 | the default settings give the default payload, with safe mode on although the settings have it off |
| VeniceApi.CheckApiKey | src/api/veniceApi.js:63-66 | the key is refused exactly when it is shorter than ten UTF-16 code units, with the key error |
| VeniceApi.ClassifyFetch | src/api/veniceApi.js:72-105 | no error exactly for an OK status; the timeout message exactly for an abort; any other failure, an error status included, is a network error around its message |
| VeniceApi.GenerateImage | src/api/veniceApi.js:21-105 | a short key fails before any request; otherwise a failed request fails with the classified message; otherwise the built payload was sent and answered OK |
| VeniceApi.ShortKeyNeverSends | src/api/veniceApi.js:63-66 | with a short key the transport's result makes no difference |
| VeniceApi.FailureMessages | src/api/veniceApi.js:92-105 | an abort reads `Request timed out…`; an error status reads `Network error: Venice API error: <status> - <body or Unknown error>` |
| VeniceApi.HttpErrorMessage | src/api/veniceApi.js:95-104 | the rewrapped HTTP error starts `Network error: Venice API error: `, the status parses back from the text after it, the body (or `Unknown error`) is its tail, and it holds no line break when the body holds none |
| VeniceApi.Capitalize | src/api/veniceApi.js:202 | the word keeps its length; its first character is upper-cased and the rest kept |
| VeniceApi.FormatMatchesCapitalizeFrom | src/api/veniceApi.js:200-203 | splitting at spaces, capitalising and joining equals one pass that upper-cases each word's first character |
| VeniceApi.CapitalizeFromAt | src/api/veniceApi.js:200-203 | in that pass, a character is upper-cased exactly when it begins a word, and every other character is kept |
| VeniceApi.FormatLabelAt | src/api/veniceApi.js:200-203 | a label has the name's length; hyphens and spaces become spaces; the first character and every character after a hyphen or space are upper-cased; the rest are kept |
| VeniceApi.ObjectOption | src/api/veniceApi.js:198-204 | reading an entry as an object throws exactly for a null entry; a bare name gives an undefined value and an empty label; a truthy `id` is the value |
| VeniceApi.BareOption | src/api/veniceApi.js:216-234 | a bare-array entry throws exactly when null; a name is its own value, with a label as long as the name; an object is read as in the other shapes |
| VeniceApi.FormatModels | src/api/veniceApi.js:196-236 | an unknown body gives no models; otherwise reading throws exactly when an entry is null, and else there is one option per entry, in order, each read from the entry at the same place |
| VeniceApi.MapEntries | src/api/veniceApi.js:198-235 | `map` over the entries throws exactly when one is null; otherwise one option per entry, in order |
| VeniceApi.BareNamesReadBack | src/api/veniceApi.js:216-226 | a bare array of names offers exactly those names as values, in order |
| VeniceApi.FetchImageModels | src/api/veniceApi.js:244-262 | the list is never empty: the two fallback models after a failed request, a throw while reading (a null entry) or an empty result, the formatted list otherwise |
| VeniceApi.FallbackOffersDefaultModel | src/api/veniceApi.js:244-262 | the fallback list offers the default model of the settings |
| VeniceApi.BareStyle | src/api/veniceApi.js:302-304 | a bare-array entry throws exactly when null; a name is kept; an object becomes its truthy `name`, else its `id`, else undefined; no object is passed on |
| VeniceApi.MapStyles | src/api/veniceApi.js:302-304 | `map` over a bare styles array throws exactly when an entry is null; otherwise one value per entry, in order |
| VeniceApi.FormatStyles | src/api/veniceApi.js:294-305 | the `data` and `styles` arrays are passed on untouched; a bare array throws exactly when it holds a null entry and is otherwise read entry by entry, in order; any other body gives none |
| VeniceApi.FetchImageStyles | src/api/veniceApi.js:310-328 | the list is never empty: the nine fallback styles after a failed request, a bare array holding a null entry or an empty result, the styles as passed on otherwise |
| VeniceApi.FallbackStylesWellFormed | src/api/veniceApi.js:311-314 | the fallback styles are nine distinct names starting with the default preset |
| ImageCarousel.Previous | src/components/ImageCarousel.jsx:17 | previous stays within `[0, n)` and moves back one, from the first image to the last |
| ImageCarousel.Next | src/components/ImageCarousel.jsx:21 | next stays within `[0, n)` and moves on one, from the last image to the first |
| ImageCarousel.NextPreviousInverse | src/components/ImageCarousel.jsx:17-21 | next undoes previous, and previous undoes next |
| ImageCarousel.StepsAreRotations | src/components/ImageCarousel.jsx:17-21 | next and previous are rotations by one modulo the number of images |
| ImageCarousel.NextTimesRotates | src/components/ImageCarousel.jsx:21 | `k` presses of next move `k` places round, so `n` presses return to the same image |
| ImageCarousel.SingleImageHasNowhereToGo | src/components/ImageCarousel.jsx:55 | with one image, next from the image or after it and previous from the image or before it both land on it |
| ImageCarousel.Download | src/components/ImageCarousel.jsx:25-41 | nothing without a url; otherwise the url is downloaded under the prompt's generated name, or `maitey-image.png` without a prompt |
| ChatSelector.Without | src/components/ChatSelector.jsx:16 | the filter keeps exactly the other ids, keeps them distinct, and is the identity when the id is absent |
| ChatSelector.ToggleFlips | src/components/ChatSelector.jsx:15-23 | a toggle flips the membership of the toggled id and of no other, keeps ids distinct, and appends an unselected id |
| ChatSelector.RemovingLastExits | src/components/ChatSelector.jsx:18-20 | taking out the only selected id leaves an empty selection and leaves selection mode |
| ChatSelector.RemovingOneOfSeveralKeepsMode | src/components/ChatSelector.jsx:15-20 | taking out one of several ids keeps the mode |
| ChatSelector.ToggleTwice | src/components/ChatSelector.jsx:15-23 | toggling an unselected id twice restores the selection; the mode comes back unless that id was the only one |
| ChatSelector.ToggleModeTwice | src/components/ChatSelector.jsx:27-35 | the mode toggle flips the mode and empties the selection both ways |
| ChatSelector.ReachableNoDup | src/components/ChatSelector.jsx:12-51 | from the initial state, no sequence of user events puts an id in the selection twice |
| ChatSelector.DeleteSelectedEffect | src/components/ChatSelector.jsx:45-51 | one DELETE_CHAT per selected id, in order, leaves exactly the unselected chats in order, activates the first of them or none, and changes nothing else; with nothing selected the state is unchanged |
| ChatSelector.DeleteSelectedKeepsUnselected | src/components/ChatSelector.jsx:45-51 | the chats that survive a multi-delete are exactly the unselected ones |
| ChatSelector.Preview | src/components/ChatSelector.jsx:127-129 | the preview is at most 30 UTF-16 code units, shows a first message that fits unchanged, and is `Empty chat` for a chat without messages |
| ImageSizeControl.FindBySize | src/components/ImageSizeControl.jsx:23-25 | the first preset of that width and height, or none when no preset has both |
| ImageSizeControl.FindByName | src/components/ImageSizeControl.jsx:39 | the first preset of that name, or none when no preset has it |
| ImageSizeControl.PresetsWellFormed | src/components/ImageSizeControl.jsx:5-13 | six sized presets with positive dimensions, then `Custom` without; names are distinct and so are the sizes |
| ImageSizeControl.InitialPresetMatches | src/components/ImageSizeControl.jsx:17-28 | the first preset shown is `Custom` exactly when no preset has the settings' size, and otherwise a sized preset of that size |
| ImageSizeControl.SelectPresetEffect | src/components/ImageSizeControl.jsx:34-48 | the select box always shows the chosen name; a patch is written exactly for a sized preset and holds only its width and height |
| ImageSizeControl.SelectThenInitial | src/components/ImageSizeControl.jsx:17-48 | after a sized preset is chosen, reopening the picker shows that preset |
| ImageSizeControl.ApplyPatch | src/components/ImageSizeControl.jsx:43-64 | a handler's patch changes only the settings, merged with the patch; applying it twice is applying it once; a patch that agrees with the settings changes nothing |
| ImageSizeControl.CustomWidthEffect | src/components/ImageSizeControl.jsx:51-57 | the field keeps the parsed width; a patch is written exactly for a positive parse, and only the width changes |
| ImageSizeControl.CustomHeightEffect | src/components/ImageSizeControl.jsx:60-66 | the field keeps the parsed height; a patch is written exactly for a positive parse, and only the height changes |
| ImageSizeControl.CustomSizeRoundTrip | src/components/ImageSizeControl.jsx:51-66 | typing a positive number writes exactly that number, and zero or a negative number writes nothing |
| PromptInput.InitialText | src/components/PromptInput.jsx:5 | the box starts empty exactly when no usable value is given, and a non-empty start reads back as the value given |
| PromptInput.InitialBox | src/components/PromptInput.jsx:5-76 | a box started from `value` shows the hint exactly when no value is given, and a first submit sends that value or nothing |
| PromptInput.Submit | src/components/PromptInput.jsx:27-33 | a prompt is sent, as typed, exactly when it is not blank, nothing is loading and it is at most 1500 UTF-16 code units; a sent prompt clears the box, a refused one keeps it |
| PromptInput.DisabledIffNotSent | src/components/PromptInput.jsx:29-55 | the button is disabled exactly when a submit would send nothing |
| PromptInput.CounterColour | src/components/PromptInput.jsx:68-71 | red above 1500, amber above 1350 up to 1500, grey otherwise |
| PromptInput.CounterTextReadsBack | src/components/PromptInput.jsx:74-76 | the counter's number is the prompt's length in UTF-16 code units |
| PromptInput.RedIffTooLong | src/components/PromptInput.jsx:29-71 | a red counter means the prompt is refused, and a sent prompt never shows red |
| PersistentPromptInput.UnexpectedErrorText | src/components/PersistentPromptInput.jsx:65 | the error reads `Unexpected error: ` followed by the thrown message, or by `Unknown error` when it is missing or empty |
| PersistentPromptInput.RefusedDoesNothing | src/components/PersistentPromptInput.jsx:33 | a prompt is refused exactly when it is blank or longer than 1500 UTF-16 code units, and a refused prompt changes nothing and dispatches nothing |
| PersistentPromptInput.AcceptedCapturesThenClears | src/components/PersistentPromptInput.jsx:38-67 | an accepted prompt is handed over as typed, the box ends empty and enabled, and the only action is the error report |
| PersistentPromptInput.AcceptedReportsError | src/components/PersistentPromptInput.jsx:50-67 | after an accepted submit only the context's error changes, to the unexpected-error text |
| PersistentPromptInput.DisabledIffRefused | src/components/PersistentPromptInput.jsx:33-108 | while not submitting, the button is disabled exactly when a submit is refused; the guard is the chat box's guard without loading |
| PersistentPromptInput.CounterText | src/components/PersistentPromptInput.jsx:100 | no counter for an empty box; otherwise it ends in `/1500` |
| PersistentPromptInput.CounterReadsBack | src/components/PersistentPromptInput.jsx:96-131 | the counter's number is the prompt's length in UTF-16 code units, and the warning shows exactly when the counter is red |
| ImageGallery.GalleryMessages | src/components/ImageGallery.jsx:13-15 | the filter keeps exactly the gallery messages, in chat order (a subsequence) and each as often as in the chat |
| ImageGallery.ImageCards | src/components/ImageGallery.jsx:36-47 | one card per image, in order, keyed `<id>-<index>`, with the message's text, id and status |
| ImageGallery.GalleryShape | src/components/ImageGallery.jsx:21-76 | no cards without an active chat; otherwise the loading card is there exactly while loading, and it is last |
| ImageGallery.MessageCardsCount | src/components/ImageGallery.jsx:33-63 | a message gives one card per image, else one for a truthy url, else none |
| ImageGallery.FlattenAppend | src/components/ImageGallery.jsx:64 | the cards of two runs of messages are the first run's cards followed by the second's |
| ImageGallery.CardsComeFromMessages | src/components/ImageGallery.jsx:30-64 | every card names a message of the run, and its key reads back as that message's id |
| ImageGallery.GalleryKeysUnique | src/components/ImageGallery.jsx:40-54 | with unique message ids, no two cards of the page share a React key |
| ImageGallery.UpdateAddsOneCard | src/components/ImageGallery.jsx:33-47 | a successful image update of a message with images adds exactly one card, last, showing the new image, and keeps the others |
| ImageGallery.PlaceholderShowsNoCard | src/components/ImageGallery.jsx:13-63 | the send's placeholder is a gallery message that shows no card yet |
| ImageCard.FilenamePrefix | src/components/ImageCard.jsx:18 | the prefix is non-empty, only holds `[a-zA-Z0-9_]`, and is `venice_image` without a prompt |
| ImageCard.PrefixFallsBack | src/components/ImageCard.jsx:18 | an absent, empty or wordless prompt gives `venice_image` |
| ImageCard.PrefixIdempotent | src/components/ImageCard.jsx:18 | the prefix of a prefix is itself |
| ImageCard.PrefixIgnoresLaterWords | src/components/ImageCard.jsx:18 | words after the third do not reach the prefix |
| ImageCard.Download | src/components/ImageCard.jsx:14-23 | nothing is saved exactly when there is no image url; otherwise the url is saved as `<prefix>_<stamp>.png` with a 14-character stamp |
| ImageCard.IsoWithoutSeparators | src/components/ImageCard.jsx:19 | dropping `-`, `:` and `.` from an ISO time leaves the date, `T`, the time to the millisecond and `Z` |
| ImageCard.StampAsWrittenDropsSecond | src/components/ImageCard.jsx:19 | the 14-character stamp is the intended one without the last seconds digit |
| ImageCard.StampExample | src/components/ImageCard.jsx:19 | at `2024-01-15T10:30:45.123Z` the stamp as written is `20240115T10304` |
| ImageCard.StampIntended | src/components/ImageCard.jsx:19 | a 15-character stamp is `YYYYMMDDTHHmmss` |
| ImageCard.StampExampleIntended | src/components/ImageCard.jsx:19 | at `2024-01-15T10:30:45.123Z` the 15-character stamp is `20240115T103045` |
| ImageCard.DownloadIntended | src/components/ImageCard.jsx:14-23 | nothing is saved exactly when there is no image url; otherwise the url is saved as `<prefix>_<stamp>.png` with a 15-character stamp |
| ImageCard.DownloadIntendedName | src/components/ImageCard.jsx:18-22 | with the 15-character stamp the name is `<prefix>_YYYYMMDDTHHmmss.png` |
| ImageCard.DownloadAsWrittenName | src/components/ImageCard.jsx:18-22 | on an ISO time the name as written is `<prefix>_YYYYMMDDTHHmms.png`, with only the tens digit of the seconds |
| ImageCard.RegenerateGuard | src/components/ImageCard.jsx:41-67 | the service is asked exactly with a prompt and no regeneration running; otherwise nothing changes; the flag ends false; one action exactly when an image url comes back |
| ImageCard.RegenerateIsLost | src/components/ImageCard.jsx:50-61 | as written, the update targets the id `Date.now()`, and when the active chat has no such message the state does not change |
| ImageCard.RegenerateIntendedAddsCard | src/components/ImageCard.jsx:49-61 | adding the new image as a message gives the gallery exactly one more card, last, with the new image and the prompt |
| JsStrings.Trim | src/components/ChatView.jsx:39 | the result is empty exactly for an all-white-space string; otherwise it starts and ends with a non-space, and it is a middle piece of the input with only white space cut off either side |
| JsStrings.TrimBothEnds | src/components/ChatView.jsx:128 | trimming cuts white space from both ends and nothing else: the result is a middle piece of the input with white space either side |
| JsStrings.Split | src/utils/imageUtils.js:36 | `split` gives one more piece than the separator occurs, and no piece holds the separator |
| JsStrings.JoinSplit | src/utils/imageUtils.js:36 | joining the pieces of a split with the same separator gives the text back |
| JsStrings.SplitJoin | src/utils/imageUtils.js:36 | splitting a join of separator-free pieces gives the pieces back |
| JsStrings.SplitAppend | src/components/ImageCard.jsx:18 | splitting two texts joined by the separator splits each side on its own |
| JsStrings.Prefix | src/utils/imageUtils.js:57 | the prefix is the longest whole-character prefix of at most `n` UTF-16 code units: the next character would not fit, a string that fits is kept whole, and on text without surrogate pairs it has exactly `n` characters |
| JsStrings.Length | src/components/PromptInput.jsx:29 | `.length` counts UTF-16 code units: between the number of characters and twice it, and equal to it on text without surrogate pairs |
| JsStrings.PrefixShortByAtMostOne | src/utils/imageUtils.js:57 | a cut prefix of a longer string is `n` or `n - 1` code units long |
| JsStrings.IntToString | src/components/PromptInput.jsx:75 | the decimal rendering has a leading minus exactly for negatives, followed by digits |
| JsStrings.ParseIntRoundTrip | src/components/ImageSizeControl.jsx:52 | `parseInt` reads back the decimal rendering of any integer |
| JsStrings.ParseIntOfIntToString | src/api/veniceApi.js:28 | `parseInt` reads back the rendering of an integer followed by text that does not start with a digit |
| JsStrings.ParseIntWithoutDigits | src/components/ImageSizeControl.jsx:52-54 | text with no decimal digit parses to NaN |

## Left out

- Network I/O: `fetch`, the abort timer, headers, and reading the response body, content type and blob are not modelled (`src/api/veniceApi.js:57-158`). Only their outcome enters, as `VeniceApi.FetchResult` and `ChatView.Outcome`. The object `{imageUrl, imageBlob, success}` that `generateImage` resolves to enters as `ChatView.ServiceAnswer`; what the handlers make of it is in Findings.
- The `return_binary: false` JSON branch (`src/api/veniceApi.js:146-158`) is not modelled: the payload always sets the flag, so the branch cannot run.
- `localStorage` load and save (`src/context/ChatContext.jsx:23-33,162-168`): the model starts from `InitialState` or from any given state.
- `ensureFloat` and `cfgScale`: the settings store `cfgScale` as a `real` that is only copied, and the payload leaves it out.
- The random default of the seed (`Math.random()`) is a parameter.
- Timers are not modelled: the 300 ms re-enable in `PersistentPromptInput.jsx` is never reached, because the call before it throws. The 2-second copied flag of `ImageCard.jsx` is not modelled either.
- Clipboard, the full-size view and `file-saver` are not modelled. A save is the `SaveAs`/`DownloadAs` request value; `downloadImage`'s fetch is the `FetchAndSave` plan.
- `toast` messages after a carousel download, and the `alert` of the enhance button, are not modelled.
- Rendering is not modelled beyond what a handler or a card list needs: JSX, classes, scrolling, the textarea height, and the `value` prop re-sync of `PromptInput.jsx:9-13`.
- `activeGenerations` and `addNewImage` are not provided by the context. The gallery page therefore ignores the first, and `PersistentPromptInput` models the call to the second as throwing.
- JsStrings.IntToString: `String(n)` is modelled for integers only. Exponent notation for magnitudes of 10^21 and above, fractions, NaN and Infinity are not modelled.
- JsStrings.ToUpperChar: case mapping covers ASCII letters only.
- JsStrings.ToLowerChar: case mapping covers ASCII letters only. JavaScript's `toLowerCase` also maps other letters, for example U+212A KELVIN SIGN to `k` and U+0130 to two characters, which the model leaves unchanged.
- JsStrings.Prefix: strings are sequences of Unicode scalar values, so a lone surrogate cannot be represented. When the cut falls inside a surrogate pair, the model drops the whole character where `substring` keeps the lone high surrogate.
- ImageUtils.ShortenPrompt: inherits the surrogate-pair gap of `JsStrings.Prefix`: a cut inside a pair gives one code unit less than `substring` does.
- ChatSelector.Preview: inherits the surrogate-pair gap of `JsStrings.Prefix` through `shortenPrompt`.
- JsStrings.ParseInt: numbers are unbounded integers. JavaScript numbers are doubles and are exact only up to 2^53, so above that the parsed value, `VeniceApi.EnsureNumber` and `ChatContext.NextId` can differ from what the app computes.
- JsStrings.ParseInt: the `0x` prefix is not modelled, because `parseInt(_, 10)` does not read it.
- ImageCarousel.Download: requires the current index to be within the image list. An out-of-range index can arise: message bubbles are keyed by message id, which restarts in every chat, so after a chat switch a carousel may keep its index while receiving a shorter list. But rendering then throws at `currentImage.url` (src/components/ImageCarousel.jsx:14,48), so the download button, and with it the download handler, never exists with such an index.
- ChatView.SendEffect: requires unique chat ids and a non-empty url on success. Unique ids are the invariant `ChatContext.ReduceKeepsIdsUnique` and `ChatContext.CreateNewChatKeepsIdsUnique` maintain. An object URL is never empty.
- ChatView.SubmitIgnoresLoading: is stated on the prompt `cat` rather than on all prompts. `PromptInput.Submit` states the general guard.
- VeniceApi.GenerateImage: stops at an OK response. The image checks after it (content type, empty blob) are not modelled.

## Findings

The application mounts only the layout (src/App.jsx:10-15), and the layout mounts the gallery and the persistent prompt box but never the chat page (src/components/Layout.jsx:104-107). So the first, second, fifth and sixth rows below are latent: their inputs describe what the chat page does once it is mounted, not what a user of this version of the app can trigger.

| source | as written | input that shows it | evidently intended | confidence | as-written member | corrected member |
|---|---|---|---|---|---|---|
| src/components/ChatView.jsx:11-20,87-89 | `setError` is called in the failure branch but is not taken from the context, so it throws before `setLoading(false)` | a send whose generation fails: afterwards `isLoading` is still true, so the gallery's loading card stays on | raise the error and clear the loading flag | high, not executed | ChatView.SendEffect | ChatView.SendIntendedClearsLoading |
| src/components/ChatView.jsx:68-71; src/context/ChatContext.jsx:95-101 | the result updates the message with the placeholder's id in whichever chat is active when it arrives | send `cat` from chat A, switch to chat B (whose message 2 is an image) before the answer: B's image 2 receives the error text and is flagged as an error (as written every answer takes the failure path, see the last row; once that is corrected it gains the cat picture instead), and A's placeholder stays loading | update the chat the request was sent from | high, not executed | ChatView.ResultLandsInSwitchedChat | ChatView.UpdateInIgnoresActiveChat |
| src/components/ImageCard.jsx:50-61 | the regenerated image is sent as an update of the message whose id is `Date.now()`, which no message has | regenerate in a chat loaded from `localStorage` whose message ids are small counters: the state does not change and the image is lost (as written a send never produces an image card, see the last row, so only stored chats reach this) | add the image as a new message, as the comment says | high, not executed | ImageCard.RegenerateIsLost | ImageCard.RegenerateIntendedAddsCard |
| src/components/ImageCard.jsx:19 | `substring(0, 14)` of the ISO time without separators keeps `YYYYMMDDTHHmm` and one seconds digit | at `2024-01-15T10:30:45.123Z` the name ends `_20240115T10304.png` | keep the whole time to the second (15 characters) | medium, not executed | ImageCard.StampAsWrittenDropsSecond | ImageCard.StampIntended |
| src/components/ChatView.jsx:214; src/components/PromptInput.jsx:4,29 | the page passes its loading flag as `isDisabled`, but the box reads `isLoading`, which is undefined | while an image is generating, submitting `cat` still sends it | pass the flag as `isLoading`, so the box refuses while loading | high, not executed | ChatView.SubmitIgnoresLoading | ChatView.SubmitFromChatViewIntended |
| src/components/ChatView.jsx:64-65,100-101; src/api/veniceApi.js:137-141 | `generateImage` resolves to the object `{imageUrl, imageBlob, success}`, and both handlers pass that object to `URL.createObjectURL`, which throws a TypeError for anything but a Blob | send `cat` with a working service: the image is generated, but the placeholder shows an error and no image, and loading stays set; a regeneration likewise only shows its error text | use the object's `imageUrl` (or its `imageBlob`) | high, not executed | ChatView.SendAsWrittenNeverShowsImage | ChatView.SendIntendedShowsImage |
