/**
 * The result panel: which image it shows, which of the error panel, the
 * image and the placeholder it renders, when the Original/Edited toggle,
 * the download button and the loading overlay appear, and the name a
 * download is saved under.
 */
module ImageResultDisplay {
  import opened Wrappers
  import opened JsSemantics
  import opened JsStrings

  datatype Props = Props(
    originalImage: Option<string>,
    generatedImage: Option<string>,
    isLoading: bool,
    error: Option<string>,
    showOriginal: bool)

  /** What the main area renders. */
  datatype Body = ErrorPanel(message: string) | ImageView(src: string) | Placeholder

  datatype View = View(toggleShown: bool, downloadShown: bool, body: Body, blurred: bool, loadingOverlay: bool)

  const SvgFilename := "salarx-ai-response.svg"
  const PngFilename := "salarx-ai-generated.png"

  /** The shown image is the original exactly when `showOriginal` is set, otherwise the generated one. */
  function DisplayedImage(p: Props): (shown: Option<string>)
    ensures p.showOriginal ==> shown == p.originalImage
    ensures !p.showOriginal ==> shown == p.generatedImage
  {
    if p.showOriginal then p.originalImage else p.generatedImage
  }

  /** The three guards of the main area, each as the markup writes it. */
  predicate ErrorGuard(p: Props) {
    Truthy(p.error)
  }

  predicate ImageGuard(p: Props) {
    !Truthy(p.error) && Truthy(DisplayedImage(p))
  }

  predicate PlaceholderGuard(p: Props) {
    !Truthy(p.error) && !Truthy(DisplayedImage(p))
  }

  /** Exactly one of the three guards holds, and the body is the element it guards. */
  function RenderBody(p: Props): (b: Body)
    ensures b.ErrorPanel? <==> ErrorGuard(p)
    ensures b.ImageView? <==> ImageGuard(p)
    ensures b.Placeholder? <==> PlaceholderGuard(p)
    ensures b.ErrorPanel? ==> Some(b.message) == p.error
    ensures b.ImageView? ==> Some(b.src) == DisplayedImage(p)
  {
    if Truthy(p.error) then ErrorPanel(p.error.value)
    else if Truthy(DisplayedImage(p)) then ImageView(DisplayedImage(p).value)
    else Placeholder
  }

  /**
   * The panel: the toggle only beside two images, the download button only
   * for a generated image while idle, the overlay and the blur exactly while
   * loading, and the main area as RenderBody chooses it.
   */
  function Render(p: Props): (v: View)
    ensures v.toggleShown <==> Truthy(p.generatedImage) && Truthy(p.originalImage)
    ensures v.downloadShown <==> Truthy(p.generatedImage) && !p.isLoading
    ensures v.loadingOverlay <==> p.isLoading
    ensures v.blurred <==> p.isLoading
    ensures v.body == RenderBody(p)
  {
    View(
      toggleShown := Truthy(p.generatedImage) && Truthy(p.originalImage),
      downloadShown := Truthy(p.generatedImage) && !p.isLoading,
      body := RenderBody(p),
      blurred := p.isLoading,
      loadingOverlay := p.isLoading)
  }

  /** The `download` attribute `handleDownload` sets, None when it returns early. */
  function DownloadFilename(generatedImage: Option<string>): (name: Option<string>)
    ensures name.None? <==> !Truthy(generatedImage)
    ensures name.Some? ==> (name.value == SvgFilename <==> StartsWith(generatedImage.value, "data:image/svg+xml"))
    ensures name.Some? ==> (name.value == PngFilename <==> !StartsWith(generatedImage.value, "data:image/svg+xml"))
  {
    if !Truthy(generatedImage) then None
    else if StartsWith(generatedImage.value, "data:image/svg+xml") then Some(SvgFilename)
    else Some(PngFilename)
  }

  /**
   * The toggle appears only when both images exist, so while no error is
   * set, flipping it switches between two images and never to the placeholder.
   */
  lemma ToggleSwitchesBetweenImages(p: Props)
    requires Render(p).toggleShown && !Truthy(p.error)
    ensures RenderBody(p.(showOriginal := true)) == ImageView(p.originalImage.value)
    ensures RenderBody(p.(showOriginal := false)) == ImageView(p.generatedImage.value)
  {
  }

  /** The download button appears only when not loading and a download would produce a file. */
  lemma DownloadButtonHasFile(p: Props)
    ensures Render(p).downloadShown <==> !p.isLoading && DownloadFilename(p.generatedImage).Some?
  {
  }
}
