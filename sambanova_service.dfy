/**
 * The SambaNova side of `editImage`: a chat request whose single user
 * message holds the prompt followed by one `image_url` per complete image,
 * posted over HTTP; the reply text, cut to 100 characters, is embedded in a
 * placeholder SVG whose base64 text is the result.
 *
 * The HTTP exchange is not modelled: its outcome is an input. So is the
 * template fill and `btoa` of the SVG, given as a function of the embedded text.
 */
module SambaNovaService {
  import opened Wrappers
  import opened JsSemantics
  import opened JsStrings
  import opened EditRequest
  import Seqs

  datatype ContentPart = TextContent(text: string) | ImageUrlContent(url: string)

  datatype Message = Message(role: string, content: seq<ContentPart>)

  datatype ChatRequest = ChatRequest(
    endpoint: string, authorization: string, stream: bool, model: string, messages: seq<Message>)

  /**
   * A settled fetch: `ok`, `status`, and what `response.json()` followed by
   * `data.choices?.[0]?.message?.content` gave: the content, its absence, or a throw.
   */
  datatype HttpResponse = HttpResponse(ok: bool, status: nat, content: Completion<Option<string>>)

  const Endpoint := "https://api.sambanova.ai/v1/chat/completions"
  const ModelName := "Llama-4-Maverick-17B-128E-Instruct"
  const MissingKeyMessage := "SAMBA_NOVA_API_KEY environment variable is not set."
  const FallbackReply := "Response received from SambaNova API"
  const FailurePrefix := "Failed to generate response: "
  const UnknownFailureMessage := "An unknown error occurred while communicating with the SambaNova API."
  const SnippetLength := 100

  /** `\w` of a JavaScript regular expression without the `u` flag. */
  predicate IsWordChar(c: char) {
    ('a' <= c <= 'z') || ('A' <= c <= 'Z') || ('0' <= c <= '9') || c == '_'
  }

  /** The length of the run of word characters that `s` starts with. */
  function WordRunLength(s: string): (n: nat)
    ensures n <= |s|
    ensures forall k :: 0 <= k < n ==> IsWordChar(s[k])
    ensures n < |s| ==> !IsWordChar(s[n])
  {
    if s != [] && IsWordChar(s[0]) then 1 + WordRunLength(s[1..]) else 0
  }

  /**
   * `s.replace(/^data:image\/\w+;base64,/, '')`. Since `;` is not a word
   * character, the greedy `\w+` can only match the whole leading run.
   */
  function StripDataUrlPrefix(s: string): (r: string)
    ensures |r| <= |s| && r == s[|s| - |r|..]
  {
    if StartsWith(s, "data:image/") then
      var rest := s[11..];
      var n := WordRunLength(rest);
      if n >= 1 && StartsWith(rest[n..], ";base64,") then rest[n + 8..] else s
    else s
  }

  /** A leading `data:image/<word>;base64,` is removed, and nothing after it. */
  lemma StripsDataUrlPrefix(word: string, payload: string)
    requires |word| >= 1
    requires forall k :: 0 <= k < |word| ==> IsWordChar(word[k])
    ensures StripDataUrlPrefix("data:image/" + word + ";base64," + payload) == payload
  {
    var s := "data:image/" + word + ";base64," + payload;
    assert s[..11] == "data:image/";
    var rest := s[11..];
    assert rest == word + ";base64," + payload;
    WordRunOfWord(word, ";base64," + payload);
    assert rest[|word|..] == ";base64," + payload;
    assert rest[|word|..][..8] == ";base64,";
    assert rest[|word| + 8..] == payload;
  }

  /**
   * Conversely, a string that is changed carried such a prefix, and what is
   * left is exactly the text after it.
   */
  lemma StripOnlyDataUrlPrefix(s: string)
    ensures var r := StripDataUrlPrefix(s);
      r != s ==>
        var word := s[11..|s| - |r| - 8];
        && |s| >= 19 + |r| && s == "data:image/" + word + ";base64," + r
        && |word| >= 1 && forall k :: 0 <= k < |word| ==> IsWordChar(word[k])
  {
    var r := StripDataUrlPrefix(s);
    if r != s {
      var rest := s[11..];
      var n := WordRunLength(rest);
      var j := 11 + n;
      assert r == s[j + 8..];
      assert s[..11] == "data:image/";
      assert s[j..j + 8] == rest[n..][..8] == ";base64,";
      assert s[11..j] == rest[..n];
      assert s == s[..11] + s[11..j] + s[j..j + 8] + s[j + 8..];
    }
  }

  lemma {:induction false} WordRunOfWord(word: string, tail: string)
    requires forall k :: 0 <= k < |word| ==> IsWordChar(word[k])
    requires tail == [] || !IsWordChar(tail[0])
    ensures WordRunLength(word + tail) == |word|
  {
    if word != [] {
      assert (word + tail)[1..] == word[1..] + tail;
      WordRunOfWord(word[1..], tail);
    } else {
      assert word + tail == tail;
    }
  }

  /** Text without a comma never carries the prefix, so it is left alone. */
  lemma StripWithoutComma(s: string)
    requires ',' !in s
    ensures StripDataUrlPrefix(s) == s
  {
    StripNeedsComma(s);
  }

  lemma StripNeedsComma(s: string)
    ensures StripDataUrlPrefix(s) != s ==> ',' in s
  {
    if StartsWith(s, "data:image/") {
      var rest := s[11..];
      var n := WordRunLength(rest);
      if n >= 1 && StartsWith(rest[n..], ";base64,") {
        assert rest[n..][7] == ',';
        assert s[11 + n + 7] == ',';
      }
    }
  }

  function ImageUrlOf(image: ImagePart): ContentPart
    requires IsComplete(image)
  {
    ImageUrlContent("data:" + image.mimeType.value + ";base64," + StripDataUrlPrefix(image.base64Data.value))
  }

  function ImageUrls(images: seq<ImagePart>): seq<ContentPart>
    requires forall k :: 0 <= k < |images| ==> IsComplete(images[k])
  {
    seq(|images|, k requires 0 <= k < |images| => ImageUrlOf(images[k]))
  }

  /** The content of the one user message: the prompt first, then the images. */
  function RequestContent(images: seq<ImagePart>, prompt: string): seq<ContentPart> {
    [TextContent(prompt)] + ImageUrls(CompleteImages(images))
  }

  function RequestFor(apiKey: string, images: seq<ImagePart>, prompt: string): ChatRequest {
    ChatRequest(Endpoint, "Bearer " + apiKey, false, ModelName,
                [Message("user", RequestContent(images, prompt))])
  }

  /**
   * The prompt comes first and is the only text entry; the k-th image entry
   * is the data URL of the k-th complete image.
   */
  lemma RequestContentShape(images: seq<ImagePart>, prompt: string)
    ensures var content := RequestContent(images, prompt);
      && |content| == 1 + |CompleteImages(images)|
      && content[0] == TextContent(prompt)
      && (forall k :: 1 <= k < |content| ==> content[k].ImageUrlContent?)
      && (forall k :: 0 <= k < |CompleteImages(images)| ==>
            content[k + 1] == ImageUrlOf(CompleteImages(images)[k]))
  {
  }

  /**
   * When every image is complete and its payload carries no comma (a payload
   * cut out of a data URL at its commas), the k-th URL is rebuilt from the
   * k-th image's own type and payload.
   */
  lemma RequestContentOfPayloads(images: seq<ImagePart>, prompt: string)
    requires forall k :: 0 <= k < |images| ==> IsComplete(images[k]) && ',' !in images[k].base64Data.value
    ensures var content := RequestContent(images, prompt);
      && |content| == 1 + |images|
      && forall k :: 0 <= k < |images| ==>
           content[k + 1] == ImageUrlContent(
             "data:" + images[k].mimeType.value + ";base64," + images[k].base64Data.value)
  {
    CompleteImagesOfComplete(images);
    ImageUrlsOfPayloads(images);
  }

  lemma ImageUrlsOfPayloads(images: seq<ImagePart>)
    requires forall k :: 0 <= k < |images| ==> IsComplete(images[k]) && ',' !in images[k].base64Data.value
    ensures forall k :: 0 <= k < |images| ==>
      ImageUrls(images)[k] == ImageUrlContent("data:" + images[k].mimeType.value + ";base64," + images[k].base64Data.value)
  {
    forall k | 0 <= k < |images| {
      StripWithoutComma(images[k].base64Data.value);
    }
  }

  /** The loop of services/geminiService.ts:21-30, which pushes onto `messages[0].content`. */
  method BuildContent(images: seq<ImagePart>, prompt: string) returns (content: seq<ContentPart>)
    ensures content == RequestContent(images, prompt)
  {
    content := [TextContent(prompt)];
    for i := 0 to |images|
      invariant content == [TextContent(prompt)] + ImageUrls(CompleteImages(images[..i]))
    {
      CompleteImagesStep(images, i);
      if IsComplete(images[i]) {
        content := content + [ImageUrlOf(images[i])];
      }
    }
    assert images[..|images|] == images;
  }

  /** `content || "Response received from SambaNova API"`. */
  function ReplyText(content: Option<string>): string {
    if Truthy(content) then content.value else FallbackReply
  }

  /** `content.substring(0, 100)`: what the placeholder SVG embeds. */
  function Snippet(content: Option<string>): (r: string)
    ensures |r| == if |ReplyText(content)| <= SnippetLength then |ReplyText(content)| else SnippetLength
    ensures r == ReplyText(content)[..|r|]
  {
    Prefix(ReplyText(content), SnippetLength)
  }

  function HttpErrorMessage(status: nat): string {
    "HTTP error! status: " + DecimalString(status)
  }

  /** The catch block: every thrown value leaves as an `Error`, an `Error`'s message behind the prefix. */
  function Rewrap(t: Thrown): (r: Thrown)
    ensures r.Error?
    ensures t.Error? ==> r.message == FailurePrefix + t.message
    ensures t.NonError? ==> r.message == UnknownFailureMessage
  {
    match t
    case Error(message) => Error(FailurePrefix + message)
    case NonError => Error(UnknownFailureMessage)
  }

  /**
   * What `editImage` settles with, given the key, the settled fetch and the
   * SVG encoding of the embedded text.
   */
  function EditImageResult(apiKey: Option<string>, reply: Completion<HttpResponse>,
                           svgBase64: string -> Completion<string>): (r: Completion<string>)
    ensures !Truthy(apiKey) ==> r == Throw(Error(MissingKeyMessage))
    ensures r.Throw? ==> r.thrown.Error?
    ensures r.Normal? <==> && Truthy(apiKey) && reply.Normal? && reply.value.ok
                           && reply.value.content.Normal?
                           && svgBase64(Snippet(reply.value.content.value)).Normal?
    ensures r.Normal? ==> r == svgBase64(Snippet(reply.value.content.value))
  {
    if !Truthy(apiKey) then Throw(Error(MissingKeyMessage))
    else
      match reply
      case Throw(t) => Throw(Rewrap(t))
      case Normal(response) =>
        if !response.ok then Throw(Rewrap(Error(HttpErrorMessage(response.status))))
        else
          match response.content
          case Throw(t) => Throw(Rewrap(t))
          case Normal(content) =>
            match svgBase64(Snippet(content))
            case Normal(encoded) => Normal(encoded)
            case Throw(t) => Throw(Rewrap(t))
  }

  /**
   * A non-ok status fails with its number in decimal behind both fixed
   * prefixes, and the number can be read back from the message.
   */
  lemma HttpErrorReported(apiKey: Option<string>, ok: bool, status: nat, content: Completion<Option<string>>,
                          svgBase64: string -> Completion<string>)
    requires Truthy(apiKey) && !ok
    ensures var r := EditImageResult(apiKey, Normal(HttpResponse(ok, status, content)), svgBase64);
      && r == Throw(Error(FailurePrefix + "HTTP error! status: " + DecimalString(status)))
      && DecimalValue(r.thrown.message[|FailurePrefix + "HTTP error! status: "|..]) == status
  {
    var r := EditImageResult(apiKey, Normal(HttpResponse(ok, status, content)), svgBase64);
    assert r.thrown.message[|FailurePrefix + "HTTP error! status: "|..] == DecimalString(status);
    DecimalRoundTrip(status);
  }

  /** A missing or empty reply is replaced by the fixed text, which fits the snippet whole. */
  lemma MissingReplyFallsBack(content: Option<string>)
    requires !Truthy(content)
    ensures Snippet(content) == FallbackReply
  {
  }

  /**
   * With a key, every failure inside the try block reaches the caller behind
   * the fixed prefix, with the original message intact after it, whether the
   * fetch, the reading of the content or the encoding threw; a thrown
   * non-Error becomes the fixed unknown-error message.
   */
  lemma FailuresAreRewrapped(apiKey: Option<string>, reply: Completion<HttpResponse>,
                             svgBase64: string -> Completion<string>)
    requires Truthy(apiKey)
    ensures var r := EditImageResult(apiKey, reply, svgBase64);
      r.Throw? ==> StartsWith(r.thrown.message, FailurePrefix) || r.thrown.message == UnknownFailureMessage
    ensures reply.Throw? && reply.thrown.Error? ==>
      EditImageResult(apiKey, reply, svgBase64) == Throw(Error(FailurePrefix + reply.thrown.message))
    ensures reply.Normal? && reply.value.ok && reply.value.content.Throw? && reply.value.content.thrown.Error? ==>
      EditImageResult(apiKey, reply, svgBase64) == Throw(Error(FailurePrefix + reply.value.content.thrown.message))
    ensures reply.Normal? && reply.value.ok && reply.value.content.Normal? ==>
      var encoded := svgBase64(Snippet(reply.value.content.value));
      encoded.Throw? && encoded.thrown.Error? ==>
        EditImageResult(apiKey, reply, svgBase64) == Throw(Error(FailurePrefix + encoded.thrown.message))
  {
    var r := EditImageResult(apiKey, reply, svgBase64);
    if r.Throw? && r.thrown.message != UnknownFailureMessage {
      assert r.thrown.message[..|FailurePrefix|] == FailurePrefix;
    }
  }

  /**
   * `editImage`: the credential check, the request body, then the fetch and
   * the reply handling inside try/catch. `sent` is the request posted, None
   * when the credential check stops the call before anything is built.
   */
  method EditImage(apiKey: Option<string>, images: seq<ImagePart>, prompt: string,
                   reply: Completion<HttpResponse>, svgBase64: string -> Completion<string>)
    returns (result: Completion<string>, sent: Option<ChatRequest>)
    ensures sent.None? <==> !Truthy(apiKey)
    ensures sent.Some? ==> sent.value == RequestFor(apiKey.value, images, prompt)
    ensures result == EditImageResult(apiKey, reply, svgBase64)
  {
    if !Truthy(apiKey) {
      return Throw(Error(MissingKeyMessage)), None;
    }
    var content := BuildContent(images, prompt);
    sent := Some(ChatRequest(Endpoint, "Bearer " + apiKey.value, false, ModelName,
                             [Message("user", content)]));
    var thrown: Thrown;
    match reply {
      case Throw(t) =>
        thrown := t;
      case Normal(response) =>
        if !response.ok {
          thrown := Error(HttpErrorMessage(response.status));
        } else {
          match response.content {
            case Throw(t) =>
              thrown := t;
            case Normal(text) =>
              var encoded := svgBase64(Snippet(text));
              if encoded.Normal? {
                return encoded, sent;
              }
              thrown := encoded.thrown;
          }
        }
    }
    result := Throw(Rewrap(thrown));
  }
}
