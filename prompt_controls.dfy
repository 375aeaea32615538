/**
 * The prompt panel: the textarea, the optional voice button and the submit
 * button, with what enables each and the labels they carry.
 */
module PromptControls {
  import opened Wrappers

  datatype Props = Props(
    prompt: string,
    isLoading: bool,
    disabled: bool,
    isListening: bool,
    voiceTypingSupported: bool)

  datatype VoiceButton = VoiceButton(disabled: bool, ariaLabel: string, pulsing: bool)

  datatype View = View(
    textareaDisabled: bool,
    voiceButton: Option<VoiceButton>,
    submitDisabled: bool,
    submitLabel: string)

  const StopLabel := "Stop listening"
  const StartLabel := "Start voice typing"
  const GeneratingLabel := "Generating..."
  const GenerateLabel := "Generate"

  /**
   * The panel: the textarea locked while loading, the voice button exactly
   * when voice typing is supported, labelled for the mode it switches to,
   * and the submit button enabled exactly when neither the parent nor a
   * request in flight disables it.
   */
  function Render(p: Props): (v: View)
    ensures v.textareaDisabled <==> p.isLoading
    ensures v.voiceButton.Some? <==> p.voiceTypingSupported
    ensures v.voiceButton.Some? ==>
      && (v.voiceButton.value.ariaLabel == StopLabel <==> p.isListening)
      && (v.voiceButton.value.ariaLabel == StartLabel <==> !p.isListening)
      && (v.voiceButton.value.pulsing <==> p.isListening)
      && (v.voiceButton.value.disabled <==> p.isLoading)
    ensures !v.submitDisabled <==> !p.disabled && !p.isLoading
    ensures v.submitLabel == GeneratingLabel <==> p.isLoading
    ensures v.submitLabel == GenerateLabel <==> !p.isLoading
  {
    View(
      textareaDisabled := p.isLoading,
      voiceButton :=
        if p.voiceTypingSupported
        then Some(VoiceButton(p.isLoading, if p.isListening then StopLabel else StartLabel, p.isListening))
        else None,
      submitDisabled := p.disabled || p.isLoading,
      submitLabel := if p.isLoading then GeneratingLabel else GenerateLabel)
  }

  /** While a request is in flight every control is disabled and the submit button says so. */
  lemma LoadingLocksControls(p: Props)
    requires p.isLoading
    ensures var v := Render(p);
      && v.textareaDisabled && v.submitDisabled && v.submitLabel == GeneratingLabel
      && (v.voiceButton.Some? ==> v.voiceButton.value.disabled)
  {
  }
}
