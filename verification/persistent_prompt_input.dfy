/** The gallery page's prompt box (src/components/PersistentPromptInput.jsx).
    Its submit hands the prompt to `addNewImage`, which the chat context
    does not provide (src/context/ChatContext.jsx:226-238): the call throws
    at once, so every accepted submit ends in the `catch` branch, which
    reports the error and re-enables the box. The thrown error's `message`
    is a parameter. */
module PersistentPromptInput {
  import opened JsValues
  import opened JsStrings
  import opened ChatContext
  import PromptInput

  const MaxPromptLength: nat := 1500

  /** `promptText` and `isSubmitting`. */
  datatype Input = Input(promptText: string, isSubmitting: bool)

  const Initial := Input("", false)

  /** What a submit did: the box afterwards, the prompt handed to
      `addNewImage` if it was called, and the actions dispatched to the
      chat context. */
  datatype Generated = Generated(input: Input, attempted: Option<string>, actions: seq<Action>)

  /** The guard at the top of `generateNewImage`. */
  predicate Accepts(promptText: string) {
    Trim(promptText) != "" && Length(promptText) <= MaxPromptLength
  }

  /** The text `setError` receives in the `catch` branch. */
  function UnexpectedError(message: Option<string>): string {
    "Unexpected error: " + OrElse(message, "Unknown error")
  }

  /** The reported text is `Unexpected error: ` followed by the thrown
      message, or by `Unknown error` when the message is missing or
      empty. */
  lemma UnexpectedErrorText(message: Option<string>)
    ensures var r := UnexpectedError(message);
      && |r| >= 18 && r[..18] == "Unexpected error: "
      && (Truthy(message) ==> r[18..] == message.value)
      && (!Truthy(message) ==> r[18..] == "Unknown error")
  {
  }

  /** `generateNewImage` on the box `input`, where calling `addNewImage`
      throws an error whose message is `thrown`: a refused prompt changes
      nothing; an accepted one is captured, the box is cleared, the call
      throws, the error is reported and submitting ends again. */
  function GenerateNewImage(input: Input, thrown: Option<string>): Generated {
    if !Accepts(input.promptText) then Generated(input, None, [])
    else
      var currentPrompt := input.promptText;
      var cleared := Input("", true);
      Generated(cleared.(isSubmitting := false), Some(currentPrompt), [SetError(Some(UnexpectedError(thrown)))])
  }

  /** The send button's `disabled` expression. */
  predicate Disabled(input: Input) {
    input.isSubmitting || Trim(input.promptText) == "" || Length(input.promptText) > MaxPromptLength
  }

  /** The counter: `<length>/1500`, or nothing for an empty box. */
  function CounterText(promptText: string): (r: string)
    ensures promptText == "" <==> r == ""
    ensures promptText != "" ==> |r| > 5 && r[|r| - 5..] == "/1500"
  {
    if Length(promptText) > 0 then IntToString(Length(promptText)) + "/1500" else ""
  }

  /** The warning line under the box shows exactly for an over-long
      prompt. */
  predicate ShowsTooLong(promptText: string) {
    Length(promptText) > MaxPromptLength
  }

  // ---------------------------------------------------------------------
  // Properties

  /** A prompt is refused exactly when it is blank or longer than 1500
      UTF-16 code units; a refused prompt changes nothing and dispatches
      nothing. */
  lemma RefusedDoesNothing(input: Input, thrown: Option<string>)
    ensures GenerateNewImage(input, thrown).attempted.None? <==>
      AllSpace(input.promptText) || Length(input.promptText) > MaxPromptLength
    ensures GenerateNewImage(input, thrown).attempted.None? ==>
      GenerateNewImage(input, thrown) == Generated(input, None, [])
  {
  }

  /** An accepted prompt is handed over as typed, before the box is
      cleared; afterwards the box is empty and enabled again, and the only
      action is the error report. */
  lemma AcceptedCapturesThenClears(input: Input, thrown: Option<string>)
    requires Accepts(input.promptText)
    ensures var g := GenerateNewImage(input, thrown);
      && g.attempted == Some(input.promptText)
      && g.input == Initial
      && g.actions == [SetError(Some(UnexpectedError(thrown)))]
  {
  }

  /** After an accepted submit the context's error reads
      `Unexpected error: <message>` (or `Unknown error` without a message)
      and nothing else in the context changes. */
  lemma AcceptedReportsError(s: State, input: Input, thrown: Option<string>)
    requires Accepts(input.promptText)
    ensures Run(s, GenerateNewImage(input, thrown).actions) == s.(error := Some(UnexpectedError(thrown)))
  {
    AcceptedCapturesThenClears(input, thrown);
    RunSetError(s, Some(UnexpectedError(thrown)));
  }

  lemma RunSetError(s: State, e: Option<string>)
    ensures Run(s, [SetError(e)]) == s.(error := e)
  {
    RunOne(s, SetError(e));
  }

  /** While not submitting, the button is disabled exactly when the submit
      would be refused; the guard is the chat page's prompt guard without
      the loading flag. */
  lemma DisabledIffRefused(input: Input)
    ensures !input.isSubmitting ==> (Disabled(input) <==> !Accepts(input.promptText))
    ensures input.isSubmitting ==> Disabled(input)
    ensures Accepts(input.promptText) <==> PromptInput.Sendable(input.promptText, false)
  {
  }

  /** The counter reads back as the prompt's length, and the warning shows
      exactly when the chat page's counter would be red. */
  lemma CounterReadsBack(promptText: string)
    requires promptText != ""
    ensures ParseInt(CounterText(promptText)) == Some(Length(promptText))
    ensures ShowsTooLong(promptText) <==> PromptInput.CounterColour(Length(promptText)) == PromptInput.Red
  {
    ParseIntOfIntToString(Length(promptText), "/1500");
  }
}
