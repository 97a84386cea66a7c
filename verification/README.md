# AudioScribe workflow core, modelled in Dafny

AudioScribe is a browser application. The user uploads an audio or video file and has a hosted model transcribe it. The model can optionally "remix" the transcript (summarize, translate, fix). The user then builds a final rich-text document from fragments of either text and exports it. This project models the parts of the application that are logic rather than glue:

- **The orchestrator** (`App.tsx`, module `Workflow`).
  - Class `App` holds the application's eight state fields: file, transcript, processing state, active tab, remix text, remix instruction, remix busy flag and final document.
  - It has one method per handler. The two awaited remote calls are split into a start event and a finish event. The finish event receives how the call settled: `Resolved(text)` or `Rejected(message)`.
  - Two ghost counters record the calls that are outstanding, so a finish can only follow a start. Nothing cancels a call, so a finish may come after any other event.
  - `Valid()` holds under every handler: a busy indicator never shows unless a call is outstanding.
  - `Consistent()` is maintained by the gated entry points (`Press*`, `TypeInTranscript`), which carry the visibility and `disabled` conditions of the buttons and views. It says two things:
    - at most one call of each kind is outstanding, exactly while its busy indicator shows;
    - a non-empty transcript only stands beside the COMPLETED status.
  - `IsProcessing` and `HasResult` are the two derived flags (`App.tsx:80-81`).
  - The export name rule is `ExportBaseName`.
- **The final document's blocks** (`App.tsx:73-78`, module `FinalDocument`).
  - A fragment becomes `<p>…</p>` with each line break replaced by `<br/>`.
  - When fragments contain no `<`, appended blocks never merge: the appended markup determines the fragments and their order (`BlocksInjective`).
  - Nothing else is escaped. Two lemmas show what that allows:
    - a typed `<br/>` cannot be told apart from a line break;
    - a fragment containing `</p><p>` looks like two blocks.
- **The text view** (`components/TranscriptionView.tsx`, module `TranscriptView`).
  - The word counter is modelled with JavaScript's `trim` and `split(/\s+/)` over the exact ECMAScript whitespace set. It is proved to count the maximal non-whitespace runs.
  - The "Add to Final" capture takes the selection, or the whole text when nothing is selected. `substring` clamps and swaps its bounds as JavaScript does. An empty capture is skipped.
- **The upload control** (`components/FileUploader.tsx`, module `Uploader`).
  - A file is accepted when its MIME type starts with `audio/` or `video/`.
  - The drop and picker handlers validate only the first file of the list.
  - A drop while disabled does nothing except clear the highlight.
  - A selected file replaces the drop zone with a card, so drops and picker choices reach the application only while no file is selected (`DropFiles`, `PickFiles`).
  - The `isDragging` flag is local state.
  - `Render` gives the panel that is shown: the drop zone, or the file card with its video icon and clear button.

Four behaviours of the code worth noting:

- Selecting a file changes only the file. The transcript and remix are not cleared (`App.tsx:146`).
- A failed transcription does not leave the earlier transcript in place: the start of the transcription already emptied it (`App.tsx:31`).
- `DismissError` sets status IDLE from any status, as `App.tsx:134` does. Only the banner's visibility (`PressDismiss`) limits it to ERROR.
- The remix text is not guaranteed to be empty after a failed transcription. No call is cancelled, so a remix started before a clear can land while a new transcription is running. `StaleRemixLandsAfterClear` shows such a run.

## Model

| member | source | states |
|---|---|---|
| `Base.StartsWith` | components/FileUploader.tsx:49 | `startsWith` holds exactly when the prefix fits and equals the first characters |
| `Uploader.SomePrefix` | components/FileUploader.tsx:48-49 | `some(startsWith)` holds exactly when some listed prefix starts the type |
| `Uploader.IsAccepted` | components/FileUploader.tsx:47-49 | a type is accepted exactly when its first six characters are `audio/` or `video/` |
| `Uploader.Validate` | components/FileUploader.tsx:47-56 | an accepted file is passed on unchanged; a rejected one is never passed on |
| `Uploader.Dispatch` | components/FileUploader.tsx:35-44 | an empty list selects nothing; otherwise only the first file is validated and passed on |
| `Uploader.FileUploader.constructor` | components/FileUploader.tsx:18 | the control starts without a drag highlight |
| `Uploader.FileUploader.DragOver` | components/FileUploader.tsx:20-23 | drag-over sets the highlight only when enabled; when disabled it leaves the flag unchanged |
| `Uploader.FileUploader.DragLeave` | components/FileUploader.tsx:25-28 | drag-leave always clears the highlight |
| `Uploader.FileUploader.Drop` | components/FileUploader.tsx:30-39 | a drop always clears the highlight; when disabled it selects nothing; otherwise it selects what `Dispatch` selects |
| `Uploader.FileUploader.InputChange` | components/FileUploader.tsx:41-45 | the picker selects the first file of a non-empty list exactly when it is accepted, like an enabled drop |
| `Uploader.FileUploader.Render` | components/FileUploader.tsx:58-114 | a card is shown exactly when a file is selected; its video icon exactly for `video/` types; its clear button exactly when enabled; the drop zone shows the drag flag and the disabled state |
| `Uploader.VideoIconOnlyForAccepted` | components/FileUploader.tsx:59 | a file shown with the video icon is one the control accepts |
| `Uploader.AcceptanceIsExact` | components/FileUploader.tsx:48-49 | acceptance is case-sensitive and needs the slash |
| `TranscriptView.TrimStart` | components/TranscriptionView.tsx:14 | leading trim removes only whitespace and leaves the suffix that starts with a non-space, shorter when the text starts with a space |
| `TranscriptView.TrimEnd` | components/TranscriptionView.tsx:14 | trailing trim removes only whitespace and leaves the prefix that ends with a non-space |
| `TranscriptView.Trim` | components/TranscriptionView.tsx:14 | `trim()` gives the slice of the text between a leading and a trailing stretch of whitespace |
| `TranscriptView.TrimEndsNonSpace` | components/TranscriptionView.tsx:14 | a non-empty trimmed text begins and ends with a non-space, so the whitespace stretches removed are maximal |
| `TranscriptView.Pieces` | components/TranscriptionView.tsx:14 | splitting with a piece in progress yields at least one piece, the first continuing that piece (and growing when the text starts with a non-space); no piece holds whitespace, and every piece between the first and the last is non-empty, so a whitespace run is one separator |
| `TranscriptView.Split` | components/TranscriptionView.tsx:14 | `split(/\s+/)` yields at least one piece, no piece holds whitespace, and only the first and the last piece can be empty |
| `TranscriptView.Gaps` | components/TranscriptionView.tsx:14 | the separators `split(/\s+/)` cuts at are non-empty runs of whitespace |
| `TranscriptView.PiecesWeave` | components/TranscriptionView.tsx:14 | with a piece in progress, there is one more piece than whitespace runs, and pieces and runs woven back together give that piece followed by the text |
| `TranscriptView.SplitWeave` | components/TranscriptionView.tsx:14 | `split(/\s+/)` returns exactly the text between its maximal whitespace runs: woven back with those runs the pieces give the text |
| `TranscriptView.NonEmpty` | components/TranscriptionView.tsx:14 | the filter keeps exactly the non-empty pieces, each as often as it occurs: every kept piece is non-empty and one of the input's, every non-empty piece keeps its multiplicity, and the length drops by the number of empty pieces |
| `TranscriptView.PiecesCount` | components/TranscriptionView.tsx:14 | splitting on whitespace runs and dropping empty pieces leaves one piece per word |
| `TranscriptView.WordsTrim` | components/TranscriptionView.tsx:14 | trimming does not change the number of words |
| `TranscriptView.WordCount` | components/TranscriptionView.tsx:14 | the counter equals the number of maximal non-whitespace runs, for every text |
| `TranscriptView.TrimEmptyIffBlank` | components/TranscriptionView.tsx:14 | `trim()` is empty exactly for blank texts; the remix guard `App.tsx:51` uses the same test |
| `TranscriptView.WordsZeroIffBlank` | components/TranscriptionView.tsx:14 | a text has no words exactly when it is blank |
| `TranscriptView.WordCountZeroIffBlank` | components/TranscriptionView.tsx:14 | the counter shows 0 exactly for a blank text |
| `TranscriptView.Substring` | components/TranscriptionView.tsx:30 | in-range bounds give the slice between them, in either order; bounds past the end give the empty text |
| `TranscriptView.Fragment` | components/TranscriptionView.tsx:28-33 | no selection captures the whole text; a selection `start < end` within the text captures exactly `text[start..end)`; within bounds the capture is empty exactly when the text is |
| `TranscriptView.TranscriptionView.constructor` | components/TranscriptionView.tsx:12 | the confirmation starts hidden |
| `TranscriptView.TranscriptionView.AddSelection` | components/TranscriptionView.tsx:16-40 | there is one `onAddToFinal` call, with the fragment, exactly when the text area and the callback exist and the fragment is non-empty; the confirmation turns on exactly then and otherwise keeps its value |
| `TranscriptView.HelloWorldCapture` | components/TranscriptionView.tsx:29-32 | the selection 0..5 of "Hello World" captures "Hello"; no selection captures the whole text |
| `FinalDocument.BreakLines` | App.tsx:76 | the result has no line break; a text without line breaks is unchanged |
| `FinalDocument.Block` | App.tsx:76 | a block starts with `<p>` and ends with `</p>` |
| `FinalDocument.RestoreBreakLines` | App.tsx:76 | for text without `<`, turning `<br/>` back into line breaks recovers the fragment |
| `FinalDocument.BreakLinesOnlyBreakTags` | App.tsx:76 | for text without `<`, every `<` in the block body starts a complete `<br/>`, so every tag there is a `<br/>` |
| `FinalDocument.BlockPrefixUnique` | App.tsx:73-77 | a block of `<`-free text followed by anything determines the fragment and the rest |
| `FinalDocument.BlocksInjective` | App.tsx:73-77 | `<`-free fragments never merge: the appended markup determines the fragments, their number and their order |
| `FinalDocument.BlocksSnoc` | App.tsx:77 | one more append adds its block after all earlier blocks |
| `FinalDocument.AppendsInOrder` | App.tsx:77 | two appends leave two blocks in call order after the old content |
| `FinalDocument.AppendedFragmentsRecoverable` | App.tsx:72-77 | after two appends of `<`-free fragments onto the same document, the markup determines both fragments and their order |
| `FinalDocument.BreakLinesAppend` | App.tsx:76 | line breaks are replaced piece by piece |
| `FinalDocument.TypedBreakTagLooksLikeLineBreak` | App.tsx:76 | nothing is escaped: a typed `<br/>` and a line break give the same block |
| `FinalDocument.TypedParagraphTagsLookLikeTwoBlocks` | App.tsx:76 | a fragment containing `</p><p>` gives the same markup as two fragments |
| `Workflow.ErrorMessage` | App.tsx:45 | the banner message is never empty: the error's own message, or the fixed fallback when that message is empty |
| `Workflow.BeforeFirst` | App.tsx:93 | `split(c)[0]` is the longest prefix without `c` |
| `Workflow.ExportBaseName` | App.tsx:93 | the export name ends with the suffix; its stem has no `.`; with no file, or a name that is empty or starts with `.`, the stem is `transcription`; otherwise the stem is the file name up to its first `.` |
| `Workflow.ExportNamesDistinct` | App.tsx:90-107 | the transcript, remix and final downloads (suffixes "", `_remix`, `_final`) never share a name |
| `Workflow.App.IsProcessing` | App.tsx:80 | the busy flag is exactly the PROCESSING status, and no result is shown while it is up |
| `Workflow.App.HasResult` | App.tsx:81 | a result is shown exactly when the status is COMPLETED and the transcript is non-empty |
| `Workflow.App.constructor` | App.tsx:12-25 | the initial state: no file, empty texts, IDLE, original tab, not remixing, placeholder document |
| `Workflow.App.SelectFile` | App.tsx:146 | selecting a file changes only the file |
| `Workflow.App.StartTranscription` | App.tsx:27-33 | with no file nothing changes; otherwise the status is PROCESSING with "Analyzing audio file...", the transcript and remix are emptied, the original tab is shown, and file, document and instruction are kept |
| `Workflow.App.FinishTranscription` | App.tsx:35-47 | success stores the text and sets COMPLETED; failure sets ERROR with the message, and the transcript stays empty; only these fields change; a result shows exactly for a non-empty success |
| `Workflow.App.StartRemix` | App.tsx:50-53 | with an empty transcript or a blank instruction nothing changes; otherwise only the busy flag rises and a call is outstanding |
| `Workflow.App.FinishRemix` | App.tsx:54-61 | success replaces only the remix text; failure keeps it; either way the busy flag drops |
| `Workflow.App.Clear` | App.tsx:64-71 | from any state: no file, empty transcript, remix and instruction, the placeholder document, IDLE; the tab and busy flag are untouched |
| `Workflow.App.DismissError` | App.tsx:134 | dismissing sets IDLE and changes nothing else |
| `Workflow.App.AddToFinal` | App.tsx:73-78 | the new document is the old one followed by the fragment's block; nothing else changes |
| `Workflow.App.EditTranscription` | components/TranscriptionView.tsx:80 | an edit in the original view reaches the transcript verbatim (`App.tsx:241`); nothing else changes |
| `Workflow.App.EditRemix` | App.tsx:306 | an edit in the remix view reaches the remix text verbatim |
| `Workflow.App.EditPrompt` | App.tsx:268 | the typed instruction is stored verbatim |
| `Workflow.App.EditFinal` | App.tsx:334 | the editor's markup replaces the document verbatim |
| `Workflow.App.SelectTab` | App.tsx:188-226 | a tab button changes only the active tab |
| `Workflow.App.PressTranscribe` | App.tsx:152-156 | the button works only with a file, no result and no processing; then it starts a transcription; it keeps `Consistent()` |
| `Workflow.App.PressGenerate` | App.tsx:271-275 | Generate/Enter work only with a result, on the remix tab, while not remixing, with a non-blank instruction; a second remix cannot start while one is pending |
| `Workflow.App.PressClear` | App.tsx:144-149 | the clear button works only with a file selected and while not processing; then it clears |
| `Workflow.App.PressDismiss` | App.tsx:126-137 | dismiss moves ERROR to IDLE and is absent in every other status |
| `Workflow.App.TypeInTranscript` | App.tsx:231-243 | transcript edits are possible only while a result is shown on the original tab; they keep `Consistent()` |
| `Workflow.DropFiles` | components/FileUploader.tsx:30-39 | the drop zone exists only while no file is selected (`components/FileUploader.tsx:58-90`): then a drop selects an accepted first file unless processing; otherwise the application state is unchanged; the highlight is cleared whenever the zone receives the drop; `App.tsx:144-149` passes the file and `disabled={isProcessing}` |
| `Workflow.PickFiles` | components/FileUploader.tsx:41-45 | the picker exists only in the drop zone, so only while no file is selected, and opens only while enabled (`components/FileUploader.tsx:87`, `100-107`): then a choice selects an accepted first file; otherwise the application state is unchanged |
| `Workflow.CaptureToFinal` | App.tsx:239-243 | "Add to Final" works only while its view is shown (a result, and the original tab, or the remix tab with remix text: `App.tsx:182`, `231`, `253`, `294`); then it appends exactly the captured fragment's block, or nothing when the capture is empty; otherwise nothing changes |
| `Workflow.StaleRemixLandsAfterClear` | App.tsx:50-71 | a remix started before a clear still lands after it, beside a new transcription's failure |

## Left out

- The hosted-model client (`services/geminiService.ts`) is not modelled. This covers the SDK calls, the base64 file read and console logging. Each remote call is a `Reply` passed to a finish event.
- The PDF and TXT exporters (`utils/pdfGenerator.ts`) are not modelled. This covers page layout, floating-point cursor arithmetic and the Blob download. Only the export file name is modelled.
- `getPlainText` (`App.tsx:84-88`) is left out because it depends on the browser's HTML parser. So is the choice of text passed to each download.
- The rich-text editor (`components/RichTextEditor.tsx`) is left out: formatting commands, undo/redo, focus-dependent syncing and its DOM word count. Its only effect on the model is `EditFinal`.
- Timers are left out: the 500 ms pause before the transcription call and the 2 s revert of the "Added!" confirmation. The confirmation flag therefore never turns back off in the model.
- Alerts (invalid file, failed remix), JSX/CSS rendering beyond `Render`, the MB size display and `components/Header.tsx` are left out.
- Interleaving inside a handler is not modelled. Each event is atomic, and events run one after another.
- `ProcessingState.progress` and the `UPLOADING` status are never set by the code. The status is kept in the enumeration; `progress` is omitted.
- Strings are sequences of Unicode characters. JavaScript strings and selection offsets count UTF-16 code units, so offsets differ for characters outside the Basic Multilingual Plane.
- An error without a `message` is modelled as `Rejected("")`, which gets the fallback text.
- The file picker's `accept` attribute is left out: it is a browser-side filter, and the handler checks the type itself.
- `TranscriptView.TranscriptionView.AddSelection`: the text area reference and the callback are boolean parameters rather than objects.
