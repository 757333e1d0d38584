/** The chat page's prompt box (src/components/PromptInput.jsx): when a
    prompt may be sent, and the character counter under the box. */
module PromptInput {
  import opened JsValues
  import opened JsStrings

  /** The longest prompt the image service accepts. */
  const MaxPromptLength: nat := 1500

  /** The text handed to `onSendMessage`, if any, and the box's text after
      the submit. */
  datatype Submitted = Submitted(sent: Option<string>, box: string)

  /** The box's first text: the `value` prop, or empty. The box starts
      empty exactly when no usable value is given, and a non-empty start
      reads back as the value given. */
  function InitialText(value: Option<string>): (r: string)
    ensures r == "" <==> !Truthy(value)
    ensures r != "" ==> value == Some(r)
  {
    OrElse(value, "")
  }

  /** A box started from `value` shows the hint exactly when no value is
      given, and a first submit sends the value itself or nothing. */
  lemma InitialBox(value: Option<string>, isLoading: bool)
    ensures CounterText(InitialText(value)) == "Try to be specific with details (max 1500 characters)" <==> !Truthy(value)
    ensures var sent := Submit(InitialText(value), isLoading).sent;
      sent.Some? ==> Truthy(value) && sent == value
  {
    var r := InitialText(value);
    if r != "" {
      var t := CounterText(r);
      assert t[|t| - 16..] == "/1500 characters";
      assert "Try to be specific with details (max 1500 characters)"[54 - 16..] != "/1500 characters";
    }
  }

  /** A prompt may be sent when it is not blank, nothing is loading and it
      fits the limit. */
  predicate Sendable(promptText: string, isLoading: bool) {
    Trim(promptText) != "" && !isLoading && Length(promptText) <= MaxPromptLength
  }

  /** `handleSubmit`: sends the text as typed (untrimmed) and clears the
      box, or leaves everything as it is. */
  function Submit(promptText: string, isLoading: bool): (r: Submitted)
    ensures r.sent.Some? ==> r.sent.value == promptText && r.box == "" && Length(r.sent.value) <= MaxPromptLength
    ensures r.sent.None? ==> r.box == promptText
    ensures r.sent.Some? <==> !AllSpace(promptText) && !isLoading && Length(promptText) <= MaxPromptLength
  {
    if Sendable(promptText, isLoading) then Submitted(Some(promptText), "") else Submitted(None, promptText)
  }

  /** The send button's `disabled` expression. */
  predicate Disabled(promptText: string, isLoading: bool) {
    isLoading || Trim(promptText) == "" || Length(promptText) > MaxPromptLength
  }

  /** The button is disabled exactly when a submit would send nothing. */
  lemma DisabledIffNotSent(promptText: string, isLoading: bool)
    ensures Disabled(promptText, isLoading) <==> Submit(promptText, isLoading).sent.None?
    ensures Disabled(promptText, isLoading) <==> isLoading || AllSpace(promptText) || Length(promptText) > MaxPromptLength
  {
  }

  datatype Colour = Red | Amber | Grey

  /** The counter's colour: red over the limit, amber above nine tenths of
      it, grey otherwise. */
  function CounterColour(length: nat): (r: Colour)
    ensures r == Red <==> length > 1500
    ensures r == Amber <==> 1350 < length <= 1500
    ensures r == Grey <==> length <= 1350
  {
    if length > MaxPromptLength then Red
    else if length * 10 > MaxPromptLength * 9 then Amber
    else Grey
  }

  /** The counter's text: `<length>/1500 characters`, or the hint when the
      box is empty. */
  function CounterText(promptText: string): (r: string)
    ensures promptText == "" ==> r == "Try to be specific with details (max 1500 characters)"
    ensures promptText != "" ==> |r| > 16 && r[|r| - 16..] == "/1500 characters"
  {
    if Length(promptText) > 0 then IntToString(Length(promptText)) + "/1500 characters"
    else "Try to be specific with details (max 1500 characters)"
  }

  /** The number the counter shows is the prompt's length. */
  lemma CounterTextReadsBack(promptText: string)
    requires promptText != ""
    ensures ParseInt(CounterText(promptText)) == Some(Length(promptText))
  {
    ParseIntOfIntToString(Length(promptText), "/1500 characters");
  }

  /** A prompt that is sent never shows a red counter, and every prompt that
      shows one is refused. */
  lemma RedIffTooLong(promptText: string, isLoading: bool)
    ensures CounterColour(Length(promptText)) == Red ==> Submit(promptText, isLoading).sent.None?
    ensures Submit(promptText, isLoading).sent.Some? ==> CounterColour(Length(promptText)) != Red
  {
  }
}
