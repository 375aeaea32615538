/**
 * The App component: its state, the handlers that change it (upload,
 * remove, generate, voice dictation and the recognizer's callbacks), and
 * the props it hands to the prompt and result panels.
 *
 * The asynchronous outside world enters as values: what reading each file
 * gave, what the chosen `editImage` variant was answered, what the
 * recognizer reported. React's batched state updates are applied in order.
 */
module AppModel {
  import opened Wrappers
  import opened JsSemantics
  import opened JsStrings
  import opened EditRequest
  import Seqs
  import GeminiService
  import SambaNovaService
  import ImageResultDisplay
  import PromptControls

  /** A selected file: its name and its `type`, the mime type the browser reports ("" if unknown). */
  datatype UploadFile = UploadFile(name: string, mimeType: string)

  /** An uploaded image: the file and the full data URL it was read as. */
  datatype OriginalImage = OriginalImage(file: UploadFile, dataUrl: string)

  /** The component's state variables. */
  datatype AppState = AppState(
    originalImages: seq<OriginalImage>,
    prompt: string,
    generatedImage: Option<string>,
    isLoading: bool,
    error: Option<string>,
    showOriginal: bool,
    isListening: bool)

  /** The arguments `editImage` is called with. */
  datatype EditImageCall = EditImageCall(images: seq<ImagePart>, prompt: string)

  /** Which `editImage` is in the build, and what its outside world answers. */
  datatype Service =
    | Gemini(geminiKey: Option<string>, response: Completion<seq<GeminiService.ResponsePart>>)
    | SambaNova(sambaNovaKey: Option<string>, reply: Completion<SambaNovaService.HttpResponse>,
                svgBase64: string -> Completion<string>)

  /** What the toggle asks of the recognizer. */
  datatype RecognizerCall = NoCall | StartListening | StopListening

  const UploadFailedMessage := "Failed to read image file(s)."
  const BlankPromptMessage := "Please enter a prompt."
  const GenerationFailedPrefix := "Generation failed: "
  const UnknownErrorMessage := "An unknown error occurred."
  const VoiceErrorPrefix := "Voice recognition error: "
  const SvgResultPrefix := "data:image/svg+xml;base64,"
  const PngResultPrefix := "data:image/png;base64,"

  // Upload

  predicate IsImageFile(f: UploadFile) {
    StartsWith(f.mimeType, "image/")
  }

  /** The files an upload reads: exactly those of an image type, in the order given. */
  function ImageFiles(files: seq<UploadFile>): (r: seq<UploadFile>)
    ensures forall k :: 0 <= k < |r| ==> IsImageFile(r[k]) && r[k] in files
    ensures forall k :: 0 <= k < |files| && IsImageFile(files[k]) ==> files[k] in r
    ensures forall x {:trigger multiset(r)[x]} ::
      multiset(r)[x] == if IsImageFile(x) then multiset(files)[x] else 0
  {
    Seqs.Filter(files, IsImageFile)
  }

  /** The filter splits over concatenation, so both the kept and the relative order are preserved. */
  lemma ImageFilesAppend(a: seq<UploadFile>, b: seq<UploadFile>)
    ensures ImageFiles(a + b) == ImageFiles(a) + ImageFiles(b)
  {
    Seqs.FilterAppend(a, b, IsImageFile);
  }

  /**
   * `Promise.all` over the reads, where `outcomes[k]` is what reading
   * `files[k]` as a data URL gave (None for a reader error): every file's
   * data URL, in order, or nothing at all if any read fails.
   */
  function ReadAll(files: seq<UploadFile>, outcomes: seq<Option<string>>): (r: Option<seq<OriginalImage>>)
    requires |outcomes| == |files|
    ensures r.Some? <==> forall k :: 0 <= k < |outcomes| ==> outcomes[k].Some?
    ensures r.Some? ==> |r.value| == |files|
    ensures r.Some? ==>
      forall k :: 0 <= k < |files| ==> r.value[k] == OriginalImage(files[k], outcomes[k].value)
  {
    if files == [] then Some([])
    else
      match outcomes[0]
      case None => None
      case Some(dataUrl) =>
        match ReadAll(files[1..], outcomes[1..])
        case None => None
        case Some(rest) => Some([OriginalImage(files[0], dataUrl)] + rest)
  }

  function NewImages(files: seq<UploadFile>, outcomes: seq<Option<string>>): Option<seq<OriginalImage>>
    requires |outcomes| == |ImageFiles(files)|
  {
    ReadAll(ImageFiles(files), outcomes)
  }

  // Remove

  /** `s.filter((_, index) => index !== i)`, element by element. */
  function RemoveAt<T>(s: seq<T>, i: int): (r: seq<T>)
    ensures 0 <= i < |s| ==> r == s[..i] + s[i + 1..]
    ensures !(0 <= i < |s|) ==> r == s
  {
    if s == [] then []
    else (if i == 0 then [] else [s[0]]) + RemoveAt(s[1..], i - 1)
  }

  // Generate

  /** `!prompt.trim()`: the prompt is nothing but white space. */
  function IsBlank(prompt: string): (blank: bool)
    ensures blank <==> AllWhiteSpace(prompt)
  {
    Trim(prompt) == ""
  }

  /** `prompt.trim().length > 0`: the prompt holds a character that is not white space. */
  function CanGenerate(prompt: string): (can: bool)
    ensures can <==> !AllWhiteSpace(prompt)
  {
    |Trim(prompt)| > 0
  }

  /** The handler's guard and the submit button's enabling condition are opposites; blank means only white space. */
  lemma BlankIffCannotGenerate(prompt: string)
    ensures IsBlank(prompt) <==> !CanGenerate(prompt)
    ensures IsBlank(prompt) <==> AllWhiteSpace(prompt)
  {
  }

  /** `img.base64.split(',')?.[1] ?? null`: the second comma-separated field of the data URL. */
  function Base64Payload(dataUrl: string): (r: Option<string>)
    ensures r.Some? ==> ',' !in r.value
  {
    var fields := Split(dataUrl, ',');
    if |fields| > 1 then Some(fields[1]) else None
  }

  /** There is a payload exactly when the data URL holds a comma. */
  lemma PayloadIffComma(dataUrl: string)
    ensures Base64Payload(dataUrl).Some? <==> ',' in dataUrl
  {
    SplitHasSecondField(dataUrl, ',');
  }

  /** A data URL as a file reader writes it: the header, one comma, the base64 payload. */
  function DataUrl(mimeType: string, payload: string): string {
    "data:" + mimeType + ";base64," + payload
  }

  /** From a data URL as a file reader writes it, the payload is recovered whole. */
  lemma PayloadOfDataUrl(mimeType: string, payload: string)
    requires ',' !in mimeType && ',' !in payload
    ensures Base64Payload(DataUrl(mimeType, payload)) == Some(payload)
  {
    var header := "data:" + mimeType + ";base64";
    assert ',' !in header by {
      assert header == "data:" + mimeType + ";base64";
      assert forall k :: 0 <= k < |header| ==> header[k] == ',' ==> k >= 5 && k < 5 + |mimeType|;
    }
    assert DataUrl(mimeType, payload) == Join([header, payload], ',');
    SplitJoin([header, payload], ',');
  }

  function ToImagePart(image: OriginalImage): ImagePart {
    ImagePart(Base64Payload(image.dataUrl), Some(image.file.mimeType))
  }

  /** `originalImages.map(...)`: one part per image, in order. */
  function ImageParts(images: seq<OriginalImage>): (parts: seq<ImagePart>)
    ensures |parts| == |images|
    ensures forall k :: 0 <= k < |images| ==>
      parts[k].base64Data == Base64Payload(images[k].dataUrl) && parts[k].mimeType == Some(images[k].file.mimeType)
  {
    seq(|images|, k requires 0 <= k < |images| => ToImagePart(images[k]))
  }

  predicate IsReaderDataUrl(image: OriginalImage, payload: string) {
    && image.file.mimeType != "" && payload != ""
    && ',' !in image.file.mimeType && ',' !in payload
    && image.dataUrl == DataUrl(image.file.mimeType, payload)
  }

  /**
   * For images read as data URLs of their own type, the Gemini request
   * carries each payload with its type, in order, with the prompt last,
   * and the SambaNova request sends back each data URL as it was read.
   */
  lemma RequestsFromReaderDataUrls(images: seq<OriginalImage>, payloads: seq<string>, prompt: string)
    requires |payloads| == |images|
    requires forall k :: 0 <= k < |images| ==> IsReaderDataUrl(images[k], payloads[k])
    ensures var parts := GeminiService.RequestParts(ImageParts(images), prompt);
      && |parts| == |images| + 1
      && parts[|images|] == GeminiService.TextPart(prompt)
      && forall k :: 0 <= k < |images| ==>
           parts[k] == GeminiService.InlinePart(GeminiService.InlineData(payloads[k], images[k].file.mimeType))
    ensures var content := SambaNovaService.RequestContent(ImageParts(images), prompt);
      && |content| == |images| + 1
      && content[0] == SambaNovaService.TextContent(prompt)
      && forall k :: 0 <= k < |images| ==> content[k + 1] == SambaNovaService.ImageUrlContent(images[k].dataUrl)
  {
    var parts := ImageParts(images);
    forall k | 0 <= k < |images|
      ensures parts[k].base64Data == Some(payloads[k]) && IsComplete(parts[k])
    {
      PayloadOfDataUrl(images[k].file.mimeType, payloads[k]);
    }
    GeminiService.RequestPartsAllComplete(parts, prompt);
    SambaNovaService.RequestContentOfPayloads(parts, prompt);
  }

  /** What the build's `editImage` settles with; the outside world's answer is part of `service`. */
  function ServiceResult(service: Service): Completion<string> {
    match service
    case Gemini(key, response) => GeminiService.EditImageResult(key, response)
    case SambaNova(key, reply, svgBase64) => SambaNovaService.EditImageResult(key, reply, svgBase64)
  }

  /** The build's `editImage`, called with the request. */
  method CallEditImage(service: Service, call: EditImageCall) returns (result: Completion<string>)
    ensures result == ServiceResult(service)
  {
    match service {
      case Gemini(key, response) =>
        var sent;
        result, sent := GeminiService.EditImage(key, call.images, call.prompt, response);
      case SambaNova(key, reply, svgBase64) =>
        var sent;
        result, sent := SambaNovaService.EditImage(key, call.images, call.prompt, reply, svgBase64);
    }
  }

  /**
   * The data URL built around the returned base64 text, on each side of the
   * merge: an SVG image for SambaNova, a PNG image for Gemini, the text last.
   */
  function ResultDataUrl(service: Service, encoded: string): (url: string)
    ensures StartsWith(url, "data:image/")
    ensures StartsWith(url, "data:image/svg+xml") <==> service.SambaNova?
    ensures |url| >= |encoded| && url[|url| - |encoded|..] == encoded
  {
    var url := (if service.SambaNova? then SvgResultPrefix else PngResultPrefix) + encoded;
    assert url[..11] == "data:image/";
    assert StartsWith(url, "data:image/svg+xml") <==> service.SambaNova? by {
      if service.SambaNova? {
        assert url[..18] == "data:image/svg+xml";
      } else {
        assert url[11] == 'p';
      }
    }
    url
  }

  /** `Generation failed: ${errorMessage}`, the message of an `Error` or the fixed fallback. */
  function GenerationError(t: Thrown): (message: string)
    ensures t.Error? ==> message == GenerationFailedPrefix + t.message
    ensures t.NonError? ==> message == GenerationFailedPrefix + UnknownErrorMessage
  {
    GenerationFailedPrefix + MessageOr(t, UnknownErrorMessage)
  }

  /**
   * Both services throw only `Error` objects, so the unknown-error text of
   * the handler is never shown; a Gemini reply without image data is
   * reported with both prefixes.
   */
  lemma GenerationErrorsCarryServiceMessage(service: Service)
    requires ServiceResult(service).Throw?
    ensures GenerationError(ServiceResult(service).thrown)
         == GenerationFailedPrefix + ServiceResult(service).thrown.message
    ensures (service.Gemini? && Truthy(service.geminiKey) && service.response.Normal?
             && GeminiService.FirstImageData(service.response.value).None?) ==>
      (GenerationError(ServiceResult(service).thrown)
       == GenerationFailedPrefix + GeminiService.FailurePrefix + GeminiService.NoImageMessage)
  {
    if service.Gemini? && Truthy(service.geminiKey) && service.response.Normal?
       && GeminiService.FirstImageData(service.response.value).None? {
      GeminiService.FailuresAreRewrapped(service.geminiKey, service.response);
      assert ServiceResult(service).thrown.message
          == GeminiService.FailurePrefix + GeminiService.NoImageMessage;
    }
  }

  /** A downloaded result is named after the side of the merge that produced it. */
  lemma DownloadNameMatchesService(service: Service, encoded: string)
    ensures ImageResultDisplay.DownloadFilename(Some(ResultDataUrl(service, encoded)))
         == Some(if service.SambaNova? then ImageResultDisplay.SvgFilename else ImageResultDisplay.PngFilename)
  {
    var url := ResultDataUrl(service, encoded);
    if service.SambaNova? {
      assert url[..18] == "data:image/svg+xml";
    } else {
      assert url[11] == 'p';
    }
  }

  // Dictation

  /** `(prev ? prev.trim() + ' ' : '') + transcript`. */
  function AppendTranscript(prev: string, transcript: string): (r: string)
    ensures |r| >= |transcript| && r[|r| - |transcript|..] == transcript
    ensures prev == "" ==> r == transcript
  {
    (if prev != "" then Trim(prev) + " " else "") + transcript
  }

  /** The transcript ends the new prompt, after the trimmed earlier text and one space. */
  lemma TranscriptAppended(prev: string, transcript: string)
    ensures var r := AppendTranscript(prev, transcript);
      && (prev == "" ==> r == transcript)
      && (prev != "" ==> r == Trim(prev) + " " + transcript && StartsWith(r, Trim(prev)))
  {
    var r := AppendTranscript(prev, transcript);
    if prev != "" {
      assert r[..|Trim(prev)|] == Trim(prev);
    }
  }

  /** A transcript that is not blank makes the prompt submittable, whatever was typed before. */
  lemma TranscriptMakesSubmittable(prev: string, transcript: string)
    requires !IsBlank(transcript)
    ensures CanGenerate(AppendTranscript(prev, transcript))
  {
    EndsWithNonBlank(AppendTranscript(prev, transcript), transcript);
  }

  lemma EndsWithNonBlank(r: string, tail: string)
    requires |r| >= |tail| && r[|r| - |tail|..] == tail
    requires !AllWhiteSpace(tail)
    ensures !AllWhiteSpace(r)
  {
    var k :| 0 <= k < |tail| && !IsWhiteSpace(tail[k]);
    assert r[|r| - |tail| + k] == tail[k];
  }

  // Props handed to the panels

  /** The prompt panel is disabled exactly for a blank prompt and otherwise sees the state as it is. */
  function ControlsProps(s: AppState, voiceTypingSupported: bool): (p: PromptControls.Props)
    ensures p.disabled <==> IsBlank(s.prompt)
    ensures p.prompt == s.prompt && p.isLoading == s.isLoading && p.isListening == s.isListening
    ensures p.voiceTypingSupported == voiceTypingSupported
  {
    PromptControls.Props(s.prompt, s.isLoading, !CanGenerate(s.prompt), s.isListening, voiceTypingSupported)
  }

  /** The result panel sees an original image only when exactly one is uploaded. */
  function DisplayProps(s: AppState): (p: ImageResultDisplay.Props)
    ensures p.originalImage.Some? <==> |s.originalImages| == 1
    ensures p.originalImage.Some? ==> p.originalImage.value == s.originalImages[0].dataUrl
    ensures p.generatedImage == s.generatedImage && p.isLoading == s.isLoading
    ensures p.error == s.error && p.showOriginal == s.showOriginal
  {
    ImageResultDisplay.Props(
      if |s.originalImages| == 1 then Some(s.originalImages[0].dataUrl) else None,
      s.generatedImage, s.isLoading, s.error, s.showOriginal)
  }

  /** Submit is possible only with no request in flight and a prompt that is not blank. */
  lemma SubmitOnlyWhenIdleAndNotBlank(s: AppState, voiceTypingSupported: bool)
    ensures !PromptControls.Render(ControlsProps(s, voiceTypingSupported)).submitDisabled
        <==> !s.isLoading && !IsBlank(s.prompt)
  {
  }

  /** While a request is in flight the submit button cannot be pressed again. */
  lemma LoadingDisablesSubmit(s: AppState, voiceTypingSupported: bool)
    requires s.isLoading
    ensures PromptControls.Render(ControlsProps(s, voiceTypingSupported)).submitDisabled
  {
  }

  /** The Original/Edited toggle appears only for a single uploaded image with a result beside it. */
  lemma ToggleOnlyForSingleImage(s: AppState)
    ensures ImageResultDisplay.Render(DisplayProps(s)).toggleShown ==>
      |s.originalImages| == 1 && s.originalImages[0].dataUrl != "" && Truthy(s.generatedImage)
  {
  }

  class App {
    var originalImages: seq<OriginalImage>
    var prompt: string
    var generatedImage: Option<string>
    var isLoading: bool
    var error: Option<string>
    var showOriginal: bool
    var isListening: bool
    /** `!!SpeechRecognition`; when set, the mount effect has created the recognizer. */
    const voiceTypingSupported: bool

    function State(): AppState
      reads this
    {
      AppState(originalImages, prompt, generatedImage, isLoading, error, showOriginal, isListening)
    }

    /** The initial state, after the mount effect has set up the recognizer if there is one. */
    constructor (speechRecognitionAvailable: bool)
      ensures State() == AppState([], "", None, false, None, true, false)
      ensures voiceTypingSupported == speechRecognitionAvailable
    {
      originalImages := [];
      prompt := "";
      generatedImage := None;
      isLoading := false;
      error := None;
      showOriginal := true;
      isListening := false;
      voiceTypingSupported := speechRecognitionAvailable;
    }

    /**
     * `handleImageUpload`, with `outcomes[k]` standing for what reading the k-th
     * image file of the selection as a data URL gave.
     */
    method HandleImageUpload(files: seq<UploadFile>, outcomes: seq<Option<string>>)
      requires |outcomes| == |ImageFiles(files)|
      modifies this
      ensures prompt == old(prompt) && isLoading == old(isLoading) && isListening == old(isListening)
      ensures NewImages(files, outcomes).None? ==>
        && error == Some(UploadFailedMessage)
        && originalImages == old(originalImages)
        && generatedImage == old(generatedImage)
        && showOriginal == old(showOriginal)
      ensures NewImages(files, outcomes).Some? ==>
        && error == None
        && originalImages == old(originalImages) + NewImages(files, outcomes).value
        && generatedImage == None
        && showOriginal == (if |NewImages(files, outcomes).value| > 0 then true else old(showOriginal))
    {
      error := None;
      var newImages := ReadAll(ImageFiles(files), outcomes);
      match newImages {
        case None =>
          error := Some(UploadFailedMessage);
        case Some(added) =>
          originalImages := originalImages + added;
          generatedImage := None;
          if |added| > 0 {
            showOriginal := true;
          }
      }
    }

    /** `handleRemoveImage`. */
    method HandleRemoveImage(index: int)
      modifies this
      ensures originalImages == RemoveAt(old(originalImages), index)
      ensures prompt == old(prompt) && generatedImage == old(generatedImage) && isLoading == old(isLoading)
      ensures error == old(error) && showOriginal == old(showOriginal) && isListening == old(isListening)
    {
      originalImages := RemoveAt(originalImages, index);
    }

    /**
     * `handleGenerate` up to the `await`: the blank-prompt guard, or the
     * loading flags and the arguments `editImage` is called with.
     */
    method StartGenerate() returns (call: Option<EditImageCall>)
      modifies this
      ensures originalImages == old(originalImages) && prompt == old(prompt)
      ensures showOriginal == old(showOriginal) && isListening == old(isListening)
      ensures IsBlank(old(prompt)) ==>
        && call == None
        && error == Some(BlankPromptMessage)
        && isLoading == old(isLoading) && generatedImage == old(generatedImage)
      ensures !IsBlank(old(prompt)) ==>
        && call == Some(EditImageCall(ImageParts(old(originalImages)), old(prompt)))
        && isLoading && error == None && generatedImage == None
    {
      if IsBlank(prompt) {
        error := Some(BlankPromptMessage);
        call := None;
      } else {
        isLoading := true;
        error := None;
        generatedImage := None;
        call := Some(EditImageCall(ImageParts(originalImages), prompt));
      }
    }

    /** `handleGenerate` after the `await`: the result or the failure, then `finally`. */
    method FinishGenerate(service: Service, outcome: Completion<string>)
      modifies this
      ensures originalImages == old(originalImages) && prompt == old(prompt) && isListening == old(isListening)
      ensures !isLoading
      ensures outcome.Normal? ==>
        && generatedImage == Some(ResultDataUrl(service, outcome.value))
        && !showOriginal && error == old(error)
      ensures outcome.Throw? ==>
        && error == Some(GenerationError(outcome.thrown))
        && generatedImage == old(generatedImage) && showOriginal == old(showOriginal)
    {
      match outcome {
        case Normal(encoded) =>
          generatedImage := Some(ResultDataUrl(service, encoded));
          showOriginal := false;
        case Throw(t) =>
          error := Some(GenerationError(t));
      }
      isLoading := false;
    }

    /** `handleGenerate`: no call for a blank prompt; otherwise one call, and its outcome replaces the result. */
    method HandleGenerate(service: Service) returns (call: Option<EditImageCall>)
      modifies this
      ensures originalImages == old(originalImages) && prompt == old(prompt) && isListening == old(isListening)
      ensures IsBlank(old(prompt)) ==>
        && call == None
        && error == Some(BlankPromptMessage)
        && isLoading == old(isLoading) && generatedImage == old(generatedImage)
        && showOriginal == old(showOriginal)
      ensures !IsBlank(old(prompt)) ==>
        && call == Some(EditImageCall(ImageParts(old(originalImages)), old(prompt)))
        && !isLoading
        && var outcome := ServiceResult(service);
           && (outcome.Normal? ==>
                 generatedImage == Some(ResultDataUrl(service, outcome.value)) && !showOriginal && error == None)
           && (outcome.Throw? ==>
                 generatedImage == None && error == Some(GenerationError(outcome.thrown))
                 && showOriginal == old(showOriginal))
    {
      call := StartGenerate();
      if call.Some? {
        var outcome := CallEditImage(service, call.value);
        FinishGenerate(service, outcome);
      }
    }

    /** The textarea's `setPrompt`. */
    method SetPrompt(text: string)
      modifies this
      ensures State() == old(State()).(prompt := text)
    {
      prompt := text;
    }

    /** The Original and Edited buttons' `setShowOriginal`. */
    method SetShowOriginal(show: bool)
      modifies this
      ensures State() == old(State()).(showOriginal := show)
    {
      showOriginal := show;
    }

    /** `handleToggleListening`: nothing without a recognizer; stop while listening; otherwise start. */
    method HandleToggleListening() returns (call: RecognizerCall)
      modifies this
      ensures !voiceTypingSupported ==> call == NoCall && State() == old(State())
      ensures voiceTypingSupported && old(isListening) ==> call == StopListening && State() == old(State())
      ensures voiceTypingSupported && !old(isListening) ==>
        call == StartListening && State() == old(State()).(error := None, isListening := true)
    {
      if !voiceTypingSupported {
        return NoCall;
      }
      if isListening {
        call := StopListening;
      } else {
        error := None;
        call := StartListening;
        isListening := true;
      }
    }

    /**
     * `recognition.onresult`, with the results list as alternatives per
     * result. With no result, or no alternative in the last one, the handler
     * throws before updating anything.
     */
    method OnResult(results: seq<seq<string>>)
      requires voiceTypingSupported
      modifies this
      ensures |results| > 0 && |results[|results| - 1]| > 0 ==>
        State() == old(State()).(prompt := AppendTranscript(old(prompt), results[|results| - 1][0]))
      ensures !(|results| > 0 && |results[|results| - 1]| > 0) ==> State() == old(State())
    {
      if |results| > 0 && |results[|results| - 1]| > 0 {
        var transcript := results[|results| - 1][0];
        prompt := AppendTranscript(prompt, transcript);
      }
    }

    /** `recognition.onerror`. */
    method OnError(code: string)
      requires voiceTypingSupported
      modifies this
      ensures State() == old(State()).(error := Some(VoiceErrorPrefix + code), isListening := false)
    {
      error := Some(VoiceErrorPrefix + code);
      isListening := false;
    }

    /** `recognition.onend`. */
    method OnEnd()
      requires voiceTypingSupported
      modifies this
      ensures State() == old(State()).(isListening := false)
    {
      isListening := false;
    }
  }
}
