/**
 * The Gemini side of `editImage`: a request made of one inline-data part
 * per complete image followed by the prompt, sent to generateContent, and
 * the data of the first inline-data part of the reply.
 *
 * The SDK call is not modelled: its outcome, the parts of the first
 * candidate's content or what it threw, is an input.
 */
module GeminiService {
  import opened Wrappers
  import opened JsSemantics
  import opened JsStrings
  import opened EditRequest
  import Seqs

  datatype InlineData = InlineData(data: string, mimeType: string)

  datatype Part = InlinePart(inlineData: InlineData) | TextPart(text: string)

  datatype Modality = Image

  datatype Request = Request(model: string, parts: seq<Part>, responseModalities: seq<Modality>)

  /** A part of the reply's first candidate; `inlineData` may be absent. */
  datatype ResponsePart = ResponsePart(inlineData: Option<InlineData>, text: Option<string>)

  const ModelName := "gemini-2.5-flash-image"
  const MissingKeyMessage := "API_KEY environment variable is not set."
  const NoImageMessage := "No image data found in the API response."
  const FailurePrefix := "Failed to generate image: "
  const UnknownFailureMessage := "An unknown error occurred while communicating with the Gemini API."

  function InlinePartOf(image: ImagePart): Part
    requires IsComplete(image)
  {
    InlinePart(InlineData(image.base64Data.value, image.mimeType.value))
  }

  function InlineParts(images: seq<ImagePart>): seq<Part>
    requires forall k :: 0 <= k < |images| ==> IsComplete(images[k])
  {
    seq(|images|, k requires 0 <= k < |images| => InlinePartOf(images[k]))
  }

  /** The `parts` list of the request. */
  function RequestParts(images: seq<ImagePart>, prompt: string): seq<Part> {
    InlineParts(CompleteImages(images)) + [TextPart(prompt)]
  }

  /**
   * One inline part per complete image, in order, then exactly one text part
   * holding the prompt, which is last.
   */
  lemma RequestPartsShape(images: seq<ImagePart>, prompt: string)
    ensures var parts := RequestParts(images, prompt);
      && |parts| == |CompleteImages(images)| + 1
      && parts[|parts| - 1] == TextPart(prompt)
      && (forall k :: 0 <= k < |parts| - 1 ==> parts[k] == InlinePartOf(CompleteImages(images)[k]))
  {
  }

  /** When every image is complete, each one becomes a part, carrying its own payload and type. */
  lemma RequestPartsAllComplete(images: seq<ImagePart>, prompt: string)
    requires forall k :: 0 <= k < |images| ==> IsComplete(images[k])
    ensures var parts := RequestParts(images, prompt);
      && |parts| == |images| + 1
      && forall k :: 0 <= k < |images| ==>
           parts[k] == InlinePart(InlineData(images[k].base64Data.value, images[k].mimeType.value))
  {
    Seqs.FilterKeepsAll(images, IsComplete);
  }

  /** The loop of services/geminiService.ts:43-53 and the push of services/geminiService.ts:107-109. */
  method BuildParts(images: seq<ImagePart>, prompt: string) returns (parts: seq<Part>)
    ensures parts == RequestParts(images, prompt)
  {
    parts := [];
    for i := 0 to |images|
      invariant parts == InlineParts(CompleteImages(images[..i]))
    {
      CompleteImagesStep(images, i);
      if IsComplete(images[i]) {
        parts := parts + [InlinePartOf(images[i])];
      }
    }
    assert images[..|images|] == images;
    parts := parts + [TextPart(prompt)];
  }

  /** The index of the first reply part carrying inline data, or |parts| if none does. */
  function FirstInlineIndex(parts: seq<ResponsePart>): (i: nat)
    ensures i <= |parts|
    ensures forall k :: 0 <= k < i ==> parts[k].inlineData.None?
    ensures i < |parts| ==> parts[i].inlineData.Some?
  {
    if parts == [] || parts[0].inlineData.Some? then 0 else 1 + FirstInlineIndex(parts[1..])
  }

  function FirstImageData(parts: seq<ResponsePart>): Option<string> {
    var i := FirstInlineIndex(parts);
    if i < |parts| then Some(parts[i].inlineData.value.data) else None
  }

  /** The scan of services/geminiService.ts:122-126, which returns at the first part with inline data. */
  method FindImageData(parts: seq<ResponsePart>) returns (found: Option<string>)
    ensures found == FirstImageData(parts)
  {
    for i := 0 to |parts|
      invariant forall k :: 0 <= k < i ==> parts[k].inlineData.None?
    {
      if parts[i].inlineData.Some? {
        return Some(parts[i].inlineData.value.data);
      }
    }
    return None;
  }

  /** The catch block: every thrown value leaves as an `Error`, an `Error`'s message behind the prefix. */
  function Rewrap(t: Thrown): (r: Thrown)
    ensures r.Error?
    ensures t.Error? ==> r.message == FailurePrefix + t.message
    ensures t.NonError? ==> r.message == UnknownFailureMessage
  {
    match t
    case Error(message) => Error(FailurePrefix + message)
    case NonError => Error(UnknownFailureMessage)
  }

  /** What `editImage` settles with, given the key and what the SDK call produced. */
  function EditImageResult(apiKey: Option<string>, response: Completion<seq<ResponsePart>>): (r: Completion<string>)
    ensures !Truthy(apiKey) ==> r == Throw(Error(MissingKeyMessage))
    ensures r.Throw? ==> r.thrown.Error?
    ensures r.Normal? <==> Truthy(apiKey) && response.Normal? && FirstImageData(response.value).Some?
    ensures r.Normal? ==> Some(r.value) == FirstImageData(response.value)
  {
    if !Truthy(apiKey) then Throw(Error(MissingKeyMessage))
    else
      match response
      case Throw(t) => Throw(Rewrap(t))
      case Normal(parts) =>
        match FirstImageData(parts)
        case Some(data) => Normal(data)
        case None => Throw(Rewrap(Error(NoImageMessage)))
  }

  /**
   * With a key, every failure inside the try block reaches the caller behind
   * the fixed prefix, the original message intact after it; a thrown non-Error
   * becomes the fixed unknown-error message.
   */
  lemma FailuresAreRewrapped(apiKey: Option<string>, response: Completion<seq<ResponsePart>>)
    requires Truthy(apiKey)
    ensures var r := EditImageResult(apiKey, response);
      r.Throw? ==> StartsWith(r.thrown.message, FailurePrefix) || r.thrown.message == UnknownFailureMessage
    ensures response.Throw? && response.thrown.Error? ==>
      EditImageResult(apiKey, response) == Throw(Error(FailurePrefix + response.thrown.message))
    ensures response.Normal? && FirstImageData(response.value).None? ==>
      EditImageResult(apiKey, response) == Throw(Error(FailurePrefix + NoImageMessage))
  {
  }

  /**
   * `editImage`: the credential check, then the request, then the scan of the
   * reply inside try/catch. `sent` is the request handed to generateContent,
   * None when the credential check stops the call before anything is built.
   */
  method EditImage(apiKey: Option<string>, images: seq<ImagePart>, prompt: string,
                   response: Completion<seq<ResponsePart>>)
    returns (result: Completion<string>, sent: Option<Request>)
    ensures sent.None? <==> !Truthy(apiKey)
    ensures sent.Some? ==> sent.value == Request(ModelName, RequestParts(images, prompt), [Image])
    ensures result == EditImageResult(apiKey, response)
  {
    if !Truthy(apiKey) {
      return Throw(Error(MissingKeyMessage)), None;
    }
    var parts := BuildParts(images, prompt);
    sent := Some(Request(ModelName, parts, [Image]));
    var thrown: Thrown;
    match response {
      case Throw(t) =>
        thrown := t;
      case Normal(candidateParts) =>
        var found := FindImageData(candidateParts);
        if found.Some? {
          return Normal(found.value), sent;
        }
        thrown := Error(NoImageMessage);
    }
    result := Throw(Rewrap(thrown));
  }
}
