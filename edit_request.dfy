/**
 * The argument list both `editImage` variants receive: one entry per
 * reference image, each with a base64 payload and a mime type, either
 * of which may be null.
 */
module EditRequest {
  import opened Wrappers
  import opened JsSemantics
  import Seqs

  datatype ImagePart = ImagePart(base64Data: Option<string>, mimeType: Option<string>)

  /** `image.base64Data && image.mimeType`: both present and non-empty. */
  predicate IsComplete(image: ImagePart) {
    Truthy(image.base64Data) && Truthy(image.mimeType)
  }

  /** The images a request carries, in input order; the others are skipped. */
  function CompleteImages(images: seq<ImagePart>): (r: seq<ImagePart>)
    ensures |r| <= |images|
    ensures forall k :: 0 <= k < |r| ==> IsComplete(r[k]) && r[k] in images
    ensures forall k :: 0 <= k < |images| && IsComplete(images[k]) ==> images[k] in r
    ensures forall x {:trigger multiset(r)[x]} ::
      multiset(r)[x] == if IsComplete(x) then multiset(images)[x] else 0
  {
    Seqs.Filter(images, IsComplete)
  }

  /** A list of complete images is sent whole. */
  lemma CompleteImagesOfComplete(images: seq<ImagePart>)
    requires forall k :: 0 <= k < |images| ==> IsComplete(images[k])
    ensures CompleteImages(images) == images
  {
    Seqs.FilterKeepsAll(images, IsComplete);
  }

  /** Looking at one more image extends the complete images by it, or not at all. */
  lemma CompleteImagesStep(images: seq<ImagePart>, i: nat)
    requires i < |images|
    ensures CompleteImages(images[..i + 1])
         == CompleteImages(images[..i]) + (if IsComplete(images[i]) then [images[i]] else [])
  {
    assert images[..i + 1] == images[..i] + [images[i]];
    Seqs.FilterAppend(images[..i], [images[i]], IsComplete);
  }
}
