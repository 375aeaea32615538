# Verified model of the image-editing front-end

This project models the logic of a small React front-end. A user uploads reference images, types or dictates a prompt, and sends both to a remote image-generation API. The front-end then shows the image that comes back. The model covers:

- **The App component** (`AppModel.App`). A class whose fields are the component's state variables: `originalImages`, `prompt`, `generatedImage`, `isLoading`, `error`, `showOriginal` and `isListening`. Each handler is a method. They are: upload, remove, generate (split at its `await` into `StartGenerate` and `FinishGenerate`), the dictation toggle, and the recognizer's `onresult`/`onerror`/`onend` callbacks. The list updaters (`filter`, `map`, spread) are functions.
- **Both `editImage` variants**. `services/geminiService.ts` holds an unresolved merge conflict, so both sides are modelled. `GeminiService` covers the key check, the `parts` loop, the scan of the reply for inline data, and the rewrapping catch block. `SambaNovaService` covers the key check, the `messages[0].content` loop with its data-URL prefix stripping, the HTTP status check, the reply fallback, the 100-character snippet, and its catch block. Each variant is a method with loops, proved against specification functions. The App is parameterised by a `Service` value naming the variant in the build. Each side of the conflict at App.tsx:164-171 goes with its own service: SambaNova builds an SVG data URL, Gemini a PNG one.
- **The two panels** (`ImageResultDisplay`, `PromptControls`). These are pure functions from props to what is shown and enabled.

JavaScript semantics are written out where the code relies on them:

- truthiness of `string | null` (`JsSemantics.Truthy`);
- what a `throw` carries (`Thrown`, `Completion`);
- `trim` with the ECMAScript white-space set;
- `startsWith`, `split(',')`, `substring(0, n)`;
- decimal rendering of a status number.

The outside world enters as values:

- the outcome of reading each file;
- the settled SDK call or `fetch`;
- the SVG encoding of the reply text;
- the recognizer's events.

`error` and `generatedImage` are independent state variables: an upload that fails after a successful generation leaves both set, and `HandleImageUpload` keeps `generatedImage` in that case. Neither `editImage` checks that the prompt is non-empty; only the App's blank-prompt guard (App.tsx:139) does.

## Model

| member | source | states |
|---|---|---|
| `JsStrings.Trim` | App.tsx:183 | `trim()` gives the infix of the input that starts where its leading white space ends; everything before and after it in the input is white space, it has no white space at either end, and it is empty exactly when the input is all white space |
| `JsStrings.Split` | App.tsx:149 | `split(',')` gives at least one field, and no field contains the separator |
| `JsStrings.JoinSplit` | App.tsx:149 | joining the fields of a split with the separator gives back the string |
| `JsStrings.SplitJoin` | App.tsx:149 | splitting a join of separator-free fields gives back the fields (split and join are inverse) |
| `JsStrings.SplitHasSecondField` | App.tsx:149-150 | a split has a second field exactly when the separator occurs in the string |
| `JsStrings.Prefix` | services/geminiService.ts:89 | `substring(0, n)` is the prefix of exactly n characters of a longer string, and the whole string when it is that short |
| `JsStrings.DecimalString` | services/geminiService.ts:74 | a status number renders as decimal digits with no leading zero |
| `JsStrings.DecimalRoundTrip` | services/geminiService.ts:74 | the rendered status number reads back as the same number |
| `JsSemantics.Truthy` | services/geminiService.ts:22 | a string-or-null value is falsy exactly when it is null or the empty string |
| `Seqs.Filter` | App.tsx:114-115 | `filter` keeps only elements that pass the test, and each passing element as many times as it occurs in the input |
| `Seqs.FilterAppend` | App.tsx:114-115 | filtering distributes over concatenation, so the input order is kept |
| `Seqs.FilterKeepsAll` | services/geminiService.ts:43-44 | a list whose every element passes the test comes back unchanged |
| `EditRequest.CompleteImages` | services/geminiService.ts:43-44 | the images whose `base64Data` and `mimeType` are both truthy, each as many times as it occurs; the others are skipped |
| `EditRequest.CompleteImagesStep` | services/geminiService.ts:43-53 | one more image extends the complete images by that image at the end if it is complete, else not at all, so the input order is kept |
| `GeminiService.RequestPartsShape` | services/geminiService.ts:41-53 | the request holds one inline part per complete image, in order, then exactly one text part with the prompt, last; the count is complete images + 1 |
| `GeminiService.RequestPartsAllComplete` | services/geminiService.ts:43-53 | when every image is complete, part k carries image k's payload and mime type |
| `GeminiService.BuildParts` | services/geminiService.ts:41-53 | the push loop and the final text push build exactly the specified parts list |
| `GeminiService.FirstInlineIndex` | services/geminiService.ts:122-126 | the index found is a part with inline data, and no earlier part has any; it is the list length if none does |
| `GeminiService.FindImageData` | services/geminiService.ts:122-126 | the early-return scan yields the data of the first part with inline data, or nothing |
| `GeminiService.Rewrap` | services/geminiService.ts:130-136 | the catch block always throws an `Error`: `Failed to generate image: ` + the message of a caught `Error`, otherwise the fixed unknown-error text |
| `GeminiService.EditImageResult` | services/geminiService.ts:35-137 | a missing or empty key throws the fixed message; every throw is an `Error`; success exactly when the key is set, the call returns and some part has inline data, whose data is the result |
| `GeminiService.FailuresAreRewrapped` | services/geminiService.ts:111-136 | with a key, every failure carries the `Failed to generate image: ` prefix with the original message after it, including the no-image-data error, or the fixed unknown-error text |
| `GeminiService.EditImage` | services/geminiService.ts:35-137 | no request is built or sent without a key; otherwise the request is the model name, the specified parts and the IMAGE modality; the result is `EditImageResult` |
| `SambaNovaService.StripsDataUrlPrefix` | services/geminiService.ts:24 | a leading `data:image/<word>;base64,` is removed, and the payload after it is kept whole |
| `SambaNovaService.StripDataUrlPrefix` | services/geminiService.ts:24 | the prefix removal leaves a suffix of its input |
| `SambaNovaService.StripOnlyDataUrlPrefix` | services/geminiService.ts:24 | conversely, a changed string is `data:image/` + a non-empty run of word characters + `;base64,` + the result |
| `SambaNovaService.StripWithoutComma` | services/geminiService.ts:24 | a payload with no comma is never changed by the prefix removal |
| `SambaNovaService.RequestContentShape` | services/geminiService.ts:8-30 | the content starts with the prompt, its only text entry, followed by one `image_url` per complete image, in order |
| `SambaNovaService.RequestContentOfPayloads` | services/geminiService.ts:21-30 | for complete images with comma-free payloads, URL k is `data:` + mime + `;base64,` + payload of image k |
| `SambaNovaService.BuildContent` | services/geminiService.ts:8-30 | the loop pushing onto `messages[0].content` builds exactly the specified content |
| `SambaNovaService.Snippet` | services/geminiService.ts:80-89 | the embedded text is the first 100 characters of the reply (or of the fallback), or all of it when it is shorter |
| `SambaNovaService.MissingReplyFallsBack` | services/geminiService.ts:80 | a missing or empty reply is replaced by `Response received from SambaNova API` |
| `SambaNovaService.Rewrap` | services/geminiService.ts:98-104 | the catch block always throws an `Error`: `Failed to generate response: ` + the message of a caught `Error`, otherwise the fixed unknown-error text |
| `SambaNovaService.EditImageResult` | services/geminiService.ts:2-105 | a missing key throws the fixed message; every throw is an `Error`; success exactly when the key is set, the fetch settles ok, the content is read and the SVG encodes |
| `SambaNovaService.HttpErrorReported` | services/geminiService.ts:73-75 | a non-ok status fails with `Failed to generate response: HTTP error! status: N`, and N reads back from the message |
| `SambaNovaService.FailuresAreRewrapped` | services/geminiService.ts:98-104 | with a key, an `Error` thrown by the fetch, by reading the content or by the encoding leaves as `Failed to generate response: ` + its own message; every other failure carries that prefix or is the fixed unknown-error text |
| `SambaNovaService.EditImage` | services/geminiService.ts:2-105 | no request without a key; otherwise one POST to the fixed endpoint with the bearer key, the model, `stream: false` and one user message of the specified content; the result is `EditImageResult` |
| `ImageResultDisplay.RenderBody` | components/ImageResultDisplay.tsx:89-105 | exactly one of error panel, image and placeholder renders, each exactly when its own guard holds; the panel shows the error, the image the displayed image |
| `ImageResultDisplay.DisplayedImage` | components/ImageResultDisplay.tsx:41 | the original is displayed when `showOriginal` is set, else the generated image |
| `ImageResultDisplay.DownloadFilename` | components/ImageResultDisplay.tsx:43-49 | nothing without a truthy generated image; otherwise the `.svg` name exactly for an SVG data URL and the `.png` name exactly otherwise |
| `ImageResultDisplay.ToggleSwitchesBetweenImages` | components/ImageResultDisplay.tsx:60-75 | the toggle is shown only with both images, so without an error either position shows an image, never the placeholder |
| `ImageResultDisplay.DownloadButtonHasFile` | components/ImageResultDisplay.tsx:76 | the download button is shown exactly when not loading and a download would save a file |
| `ImageResultDisplay.Render` | components/ImageResultDisplay.tsx:60-112 | the toggle is shown exactly with both images, the download button exactly with a generated image while not loading, the overlay and the blur exactly while loading, and the main area is the one `RenderBody` chooses |
| `PromptControls.LoadingLocksControls` | components/PromptControls.tsx:35-71 | while loading, the textarea, the voice button and the submit button are all disabled, and the label is `Generating...` |
| `PromptControls.Render` | components/PromptControls.tsx:35-71 | the textarea is disabled exactly while loading; the voice button exists exactly with voice typing, reads `Stop listening` and pulses exactly while listening, and is disabled exactly while loading; submit is enabled exactly when neither `disabled` nor `isLoading` holds, and reads `Generating...` exactly while loading |
| `AppModel.ImageFiles` | App.tsx:114-115 | an upload reads exactly the files whose type starts with `image/`, each as many times as it was selected |
| `AppModel.ImageFilesAppend` | App.tsx:114-115 | the type filter keeps order (it distributes over concatenation) |
| `AppModel.ReadAll` | App.tsx:116-121 | all-or-nothing: images exist exactly when the read of every file succeeds, each file with its own outcome, one image per file in order, each pairing the file with its data URL |
| `AppModel.RemoveAt` | App.tsx:134-136 | an in-range index removes exactly that element and keeps the rest in order; any other index leaves the list unchanged |
| `AppModel.IsBlank` | App.tsx:139 | the guard `!prompt.trim()` of the handler holds exactly when the prompt is all white space |
| `AppModel.CanGenerate` | App.tsx:183 | `canGenerate` holds exactly when the prompt has a character that is not white space |
| `AppModel.BlankIffCannotGenerate` | App.tsx:139-142 | the handler's blank guard is the opposite of `canGenerate` (App.tsx:183); blank means all white space |
| `AppModel.Base64Payload` | App.tsx:148-150 | the payload is the second comma field, so it never holds a comma |
| `AppModel.PayloadIffComma` | App.tsx:149-150 | the payload is null exactly when the data URL has no comma |
| `AppModel.PayloadOfDataUrl` | App.tsx:149-150 | from `data:<mime>;base64,<payload>` the payload comes back whole |
| `AppModel.ImageParts` | App.tsx:148-153 | one part per image, in order: its data-URL payload and the file's type |
| `AppModel.RequestsFromReaderDataUrls` | App.tsx:148-162 | for images read as data URLs, Gemini receives each payload with its type, then the prompt; SambaNova receives the prompt, then each data URL as read |
| `AppModel.CallEditImage` | App.tsx:159-162 | the call dispatches to the variant in the build and yields that variant's result |
| `AppModel.ResultDataUrl` | App.tsx:164-171 | the result data URL is an image URL, an SVG one exactly on the SambaNova side, ending in the returned text |
| `AppModel.GenerationError` | App.tsx:174-176 | the error shown is `Generation failed: ` + the message of a thrown `Error`, or + the fixed unknown-error text for any other thrown value |
| `AppModel.GenerationErrorsCarryServiceMessage` | App.tsx:174-176 | a service failure always shows as `Generation failed: ` + its message, never the unknown-error text; a Gemini reply without image data shows both prefixes |
| `AppModel.DownloadNameMatchesService` | App.tsx:164-171 | a SambaNova result downloads as `salarx-ai-response.svg`, a Gemini result as `salarx-ai-generated.png` |
| `AppModel.AppendTranscript` | App.tsx:82 | the new prompt ends with the transcript, and is just the transcript after an empty prompt |
| `AppModel.TranscriptAppended` | App.tsx:80-83 | the transcript follows the trimmed earlier prompt and one space, or stands alone after an empty prompt |
| `AppModel.TranscriptMakesSubmittable` | App.tsx:80-83 | a transcript that is not blank leaves a prompt that is not blank, and so can be submitted |
| `AppModel.ControlsProps` | App.tsx:195-204 | the prompt panel is disabled exactly for a blank prompt and receives the prompt, loading and listening flags unchanged |
| `AppModel.DisplayProps` | App.tsx:207-214 | the result panel gets an original image exactly when one image is uploaded, namely the data URL of that image, and the other state unchanged |
| `AppModel.SubmitOnlyWhenIdleAndNotBlank` | App.tsx:183-200 | the submit button is enabled exactly when no request is in flight and the prompt is not blank |
| `AppModel.ToggleOnlyForSingleImage` | App.tsx:207-208 | the Original/Edited toggle appears only with exactly one uploaded image and a generated image |
| `AppModel.App.constructor` | App.tsx:60-96 | the initial state: no images, empty prompt, no result, not loading, no error, original shown, not listening |
| `AppModel.App.HandleImageUpload` | App.tsx:111-132 | on a failed read, the error is the fixed message and nothing else changes; otherwise the new images are appended, the result is cleared, the error is null, and `showOriginal` is set only if an image was added |
| `AppModel.App.HandleRemoveImage` | App.tsx:134-136 | the image list becomes `RemoveAt` of the old one; nothing else changes |
| `AppModel.App.StartGenerate` | App.tsx:138-153 | a blank prompt sets the fixed error and makes no call; otherwise loading is on, the error and result are cleared, and the call carries the image parts and the prompt |
| `AppModel.LoadingDisablesSubmit` | App.tsx:199-200 | while a request is in flight the submit button the App renders is disabled, whatever the prompt |
| `AppModel.App.FinishGenerate` | App.tsx:164-180 | on success, the result is the variant's data-URL prefix + the returned text and the edited view is shown; on failure, the error is `Generation failed: ` + the message; loading ends either way |
| `AppModel.App.HandleGenerate` | App.tsx:138-181 | a blank prompt makes no call and leaves loading, result and images alone; otherwise exactly one call, whose outcome replaces the result or sets the error, and loading ends |
| `AppModel.App.SetPrompt` | App.tsx:197 | typing replaces the prompt and nothing else |
| `AppModel.App.SetShowOriginal` | App.tsx:213 | the toggle buttons set `showOriginal` and nothing else |
| `AppModel.App.HandleToggleListening` | App.tsx:98-108 | nothing without a recognizer; while listening, only `stop()` is called; otherwise `start()` is called, the error is cleared and listening is on |
| `AppModel.App.OnResult` | App.tsx:80-83 | the last result's first transcript is appended to the prompt; with no result or no alternative, the handler throws and nothing changes |
| `AppModel.App.OnError` | App.tsx:85-89 | the error becomes `Voice recognition error: ` + the code, and listening ends |
| `AppModel.App.OnEnd` | App.tsx:91-93 | listening ends and nothing else changes |

## Left out

- utils/fileUtils.ts (`FileReader`) is not part of this model. The outcome of reading each selected image file is an entry of the parameter `outcomes` of `HandleImageUpload`: a data URL or a failure.
- `Promise.all` runs the reads concurrently. Only its all-or-nothing outcome is modelled, as `ReadAll`.
- Network calls are not modelled: the `GoogleGenAI` client and `generateContent`, and `fetch`, its headers and `JSON.stringify`. Their settled outcomes are inputs. Failed field accesses on a reply (`response.candidates[0]...`, `data.choices`) are folded into that outcome as a throw.
- The SVG template and `btoa` (services/geminiService.ts:85-95) are the function parameter `svgBase64`, applied to the embedded text.
- SambaNovaService.EditImageResult: the reply `content` is modelled as a string or absent. A truthy non-string `content`, which would make `substring` throw, is not modelled.
- SambaNovaService.Snippet: counts Unicode scalar values, not UTF-16 code units, so replies with characters outside the Basic Multilingual Plane are cut differently. `JsStrings.Trim` uses the same string model.
- The browser speech-recognition API is modelled only through its callbacks as events. Its settings (`continuous`, `lang`, `interimResults`) are not modelled, nor is an exception from `start()`.
- React rendering is treated as sequential: state updates apply in order. Stale closures between renders, and the moment before the mount effect creates the recognizer, are not modelled.
- `console.error` and `console.warn` logging is not modelled.
- components/ImageUploader.tsx (drag-and-drop flags, input reset), components/Header.tsx, vite.config.ts, and all styling and CSS are not part of this model.
- A file is modelled only by its name and its `type`.
