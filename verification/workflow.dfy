/**
 * The application's orchestrator: the state it holds, the handlers that
 * drive the select → transcribe → remix → assemble workflow, and the names
 * under which texts are exported.
 *
 * The two remote calls (transcription and refinement) are awaited by their
 * handlers; each handler is modelled as a "start" event and a "finish" event
 * that receives how the call settled. Nothing cancels a call, so a finish
 * event may arrive after any other events.
 */
module Workflow {
  import opened Base
  import opened Uploader
  import opened TranscriptView
  import FinalDocument

  datatype FileStatus = Idle | Uploading | Processing | Completed | Error

  /** The status banner: a status and, for some statuses, a message. */
  datatype ProcessingState = ProcessingState(status: FileStatus, message: Option<string>)

  /** Which view of the results is visible. */
  datatype Tab = Original | Remix | Final

  /** How an awaited remote call settles: with a text, or by throwing an error with a message. */
  datatype Reply = Resolved(text: string) | Rejected(message: string)

  /** The application state, as a value. */
  datatype AppState = AppState(
    file: Option<MediaFile>,
    transcription: string,
    processingState: ProcessingState,
    activeTab: Tab,
    remixText: string,
    remixPrompt: string,
    isRemixing: bool,
    finalContent: string)

  const IdleState: ProcessingState := ProcessingState(Idle, None)
  const AnalyzingMessage: string := "Analyzing audio file..."
  const TranscriptionFallback: string := "An unexpected error occurred during transcription."
  const DefaultBaseName: string := "transcription"

  /** The state the application opens with. */
  const Initial: AppState :=
    AppState(None, [], IdleState, Original, [], [], false, FinalDocument.Placeholder)

  /** `error.message || fallback`: the message shown when a transcription fails. */
  function ErrorMessage(message: string): (r: string)
    ensures r != []
    ensures message != [] ==> r == message
    ensures message == [] ==> r == TranscriptionFallback
  {
    if message != [] then message else TranscriptionFallback
  }

  /** `s.split(c)[0]`: the longest prefix of `s` without `c`. */
  function BeforeFirst(s: string, c: char): (r: string)
    ensures |r| <= |s| && r == s[..|r|]
    ensures c !in r
    ensures |r| < |s| ==> s[|r|] == c
  {
    if s == [] || s[0] == c then [] else [s[0]] + BeforeFirst(s[1..], c)
  }

  /**
   * `(file?.name?.split('.')[0] || "transcription") + suffix`: the name a
   * download is saved under, before its extension.
   */
  function ExportBaseName(file: Option<MediaFile>, suffix: string): (r: string)
    ensures |suffix| < |r| && r[|r| - |suffix|..] == suffix
    ensures '.' !in r[..|r| - |suffix|]
    ensures file.None? || file.value.name == [] || file.value.name[0] == '.' ==>
              r == DefaultBaseName + suffix
    ensures file.Some? && file.value.name != [] && file.value.name[0] != '.' ==>
              var stem, name := r[..|r| - |suffix|], file.value.name;
              |stem| <= |name| && stem == name[..|stem|] && (|stem| == |name| || name[|stem|] == '.')
  {
    var stem := if file.Some? then BeforeFirst(file.value.name, '.') else [];
    var base := if stem != [] then stem else DefaultBaseName;
    assert (base + suffix)[..|base|] == base;
    base + suffix
  }

  /** The three downloads of one file (transcript, remix, final document) never share a name. */
  lemma ExportNamesDistinct(file: Option<MediaFile>)
    ensures ExportBaseName(file, "") != ExportBaseName(file, "_remix")
    ensures ExportBaseName(file, "") != ExportBaseName(file, "_final")
    ensures ExportBaseName(file, "_remix") != ExportBaseName(file, "_final")
  {
  }

  /** The application: its eight state fields, updated in place by the handlers. */
  class App {
    var file: Option<MediaFile>
    var transcription: string
    var processingState: ProcessingState
    var activeTab: Tab
    var remixText: string
    var remixPrompt: string
    var isRemixing: bool
    var finalContent: string

    /** Transcription calls started and not yet settled. */
    ghost var pendingTranscriptions: nat
    /** Refinement calls started and not yet settled. */
    ghost var pendingRemixes: nat

    function View(): AppState
      reads this
    {
      AppState(file, transcription, processingState, activeTab, remixText, remixPrompt, isRemixing, finalContent)
    }

    /** `isProcessing`: the PROCESSING status, during which no result is shown. */
    function IsProcessing(): (r: bool)
      reads this
      ensures r <==> processingState.status == Processing
      ensures r ==> !HasResult()
    {
      processingState.status == Processing
    }

    /** `hasResult`: a COMPLETED transcription with non-empty text. */
    function HasResult(): (r: bool)
      reads this
      ensures r <==> processingState.status == Completed && transcription != []
    {
      processingState.status == Completed && |transcription| > 0
    }

    /** The busy indicators never show without a call outstanding. */
    ghost predicate Valid()
      reads this
    {
      && (IsProcessing() ==> pendingTranscriptions > 0)
      && (isRemixing ==> pendingRemixes > 0)
    }

    /**
     * What the screen's gating of the handlers maintains: at most one call of
     * each kind is outstanding, exactly while its busy indicator shows, and a
     * non-empty transcript only stands beside the COMPLETED status.
     */
    ghost predicate Consistent()
      reads this
    {
      && pendingTranscriptions == (if IsProcessing() then 1 else 0)
      && pendingRemixes == (if isRemixing then 1 else 0)
      && (transcription != [] ==> processingState.status == Completed)
    }

    constructor ()
      ensures View() == Initial
      ensures pendingTranscriptions == 0 && pendingRemixes == 0
      ensures Valid() && Consistent()
    {
      file := None;
      transcription := "";
      processingState := IdleState;
      activeTab := Original;
      remixText := "";
      remixPrompt := "";
      isRemixing := false;
      finalContent := FinalDocument.Placeholder;
      pendingTranscriptions, pendingRemixes := 0, 0;
    }

    /** `onFileSelect={setFile}`: the upload control's choice replaces the file and nothing else. */
    method SelectFile(f: MediaFile)
      requires Valid()
      modifies this
      ensures Valid()
      ensures View() == old(View()).(file := Some(f))
      ensures pendingTranscriptions == old(pendingTranscriptions) && pendingRemixes == old(pendingRemixes)
      ensures old(Consistent()) ==> Consistent()
    {
      file := Some(f);
    }

    /**
     * `handleTranscribe` up to its remote call: without a file nothing
     * happens; otherwise the status turns to PROCESSING, the transcript and
     * remix are emptied, the original tab is shown and the call is outstanding.
     */
    method StartTranscription()
      requires Valid()
      modifies this
      ensures Valid()
      ensures old(file).None? ==> View() == old(View())
      ensures old(file).None? ==> pendingTranscriptions == old(pendingTranscriptions)
      ensures old(file).Some? ==>
                View() == old(View()).(processingState := ProcessingState(Processing, Some(AnalyzingMessage)),
                                       transcription := [], remixText := [], activeTab := Original)
      ensures old(file).Some? ==> pendingTranscriptions == old(pendingTranscriptions) + 1
      ensures pendingRemixes == old(pendingRemixes)
      ensures old(Consistent()) && !old(IsProcessing()) ==> Consistent()
    {
      if file.None? {
        return;
      }
      processingState := ProcessingState(Processing, Some(AnalyzingMessage));
      transcription := "";
      remixText := "";
      activeTab := Original;
      pendingTranscriptions := pendingTranscriptions + 1;
    }

    /**
     * `handleTranscribe` after its remote call settles: a result becomes the
     * transcript with status COMPLETED; an error gives status ERROR with its
     * message (or the fallback) and leaves the texts alone.
     */
    method FinishTranscription(reply: Reply)
      requires Valid() && pendingTranscriptions > 0
      modifies this
      ensures Valid()
      ensures reply.Resolved? ==>
                View() == old(View()).(transcription := reply.text, processingState := ProcessingState(Completed, None))
      ensures reply.Rejected? ==>
                View() == old(View()).(processingState := ProcessingState(Error, Some(ErrorMessage(reply.message))))
      ensures HasResult() <==> reply.Resolved? && reply.text != []
      ensures old(Consistent()) && reply.Rejected? ==> transcription == []
      ensures pendingTranscriptions == old(pendingTranscriptions) - 1 && pendingRemixes == old(pendingRemixes)
      ensures old(Consistent()) ==> Consistent()
    {
      pendingTranscriptions := pendingTranscriptions - 1;
      match reply
      case Resolved(text) =>
        transcription := text;
        processingState := ProcessingState(Completed, None);
      case Rejected(message) =>
        processingState := ProcessingState(Error, Some(ErrorMessage(message)));
    }

    /**
     * `handleRemix` up to its remote call: with an empty transcript or a
     * blank instruction nothing happens; otherwise the busy flag is raised
     * and the call is outstanding.
     */
    method StartRemix()
      requires Valid()
      modifies this
      ensures Valid()
      ensures transcription == [] || AllSpace(remixPrompt) ==>
                View() == old(View()) && pendingRemixes == old(pendingRemixes)
      ensures transcription != [] && !AllSpace(remixPrompt) ==>
                View() == old(View()).(isRemixing := true) && pendingRemixes == old(pendingRemixes) + 1
      ensures pendingTranscriptions == old(pendingTranscriptions)
      ensures old(Consistent()) && !old(isRemixing) ==> Consistent()
    {
      TrimEmptyIffBlank(remixPrompt);
      if transcription == "" || Trim(remixPrompt) == "" {
        return;
      }
      isRemixing := true;
      pendingRemixes := pendingRemixes + 1;
    }

    /**
     * `handleRemix` after its remote call settles: a result replaces the remix
     * text, an error leaves it (and is only alerted); either way the busy flag
     * drops.
     */
    method FinishRemix(reply: Reply)
      requires Valid() && pendingRemixes > 0
      modifies this
      ensures Valid()
      ensures reply.Resolved? ==> View() == old(View()).(remixText := reply.text, isRemixing := false)
      ensures reply.Rejected? ==> View() == old(View()).(isRemixing := false)
      ensures pendingRemixes == old(pendingRemixes) - 1 && pendingTranscriptions == old(pendingTranscriptions)
      ensures old(Consistent()) ==> Consistent()
    {
      if reply.Resolved? {
        remixText := reply.text;
      }
      isRemixing := false;
      pendingRemixes := pendingRemixes - 1;
    }

    /**
     * `handleClear`, from any state: no file, empty transcript, remix and
     * instruction, the placeholder document and status IDLE; the visible tab
     * and the remix busy flag are left as they were.
     */
    method Clear()
      requires Valid()
      modifies this
      ensures Valid()
      ensures View() == old(View()).(file := None, transcription := [], remixText := [], remixPrompt := [],
                                     finalContent := FinalDocument.Placeholder, processingState := IdleState)
      ensures pendingTranscriptions == old(pendingTranscriptions) && pendingRemixes == old(pendingRemixes)
      ensures old(Consistent()) && !old(IsProcessing()) ==> Consistent()
    {
      file := None;
      transcription := "";
      remixText := "";
      remixPrompt := "";
      finalContent := FinalDocument.Placeholder;
      processingState := IdleState;
    }

    /** The error banner's "Dismiss": the status returns to IDLE, nothing else changes. */
    method DismissError()
      requires Valid()
      modifies this
      ensures Valid()
      ensures View() == old(View()).(processingState := IdleState)
      ensures pendingTranscriptions == old(pendingTranscriptions) && pendingRemixes == old(pendingRemixes)
      ensures old(Consistent()) && old(processingState.status) == Error ==> Consistent()
    {
      processingState := IdleState;
    }

    /** `handleAddToFinal`: the fragment's block goes after everything already in the document. */
    method AddToFinal(textToAdd: string)
      requires Valid()
      modifies this
      ensures Valid()
      ensures View() == old(View()).(finalContent := old(finalContent) + FinalDocument.Block(textToAdd))
      ensures pendingTranscriptions == old(pendingTranscriptions) && pendingRemixes == old(pendingRemixes)
      ensures old(Consistent()) ==> Consistent()
    {
      var newBlock := FinalDocument.Block(textToAdd);
      finalContent := finalContent + newBlock;
    }

    /** The original view's `onChange={setTranscription}`: the edited text, verbatim. */
    method EditTranscription(value: string)
      requires Valid()
      modifies this
      ensures Valid()
      ensures View() == old(View()).(transcription := value)
      ensures pendingTranscriptions == old(pendingTranscriptions) && pendingRemixes == old(pendingRemixes)
      ensures old(Consistent()) && old(processingState.status) == Completed ==> Consistent()
    {
      transcription := value;
    }

    /** The remix view's `onChange={setRemixText}`: the edited text, verbatim. */
    method EditRemix(value: string)
      requires Valid()
      modifies this
      ensures Valid()
      ensures View() == old(View()).(remixText := value)
      ensures pendingTranscriptions == old(pendingTranscriptions) && pendingRemixes == old(pendingRemixes)
      ensures old(Consistent()) ==> Consistent()
    {
      remixText := value;
    }

    /** The instruction field's `onChange`: the typed instruction, verbatim. */
    method EditPrompt(value: string)
      requires Valid()
      modifies this
      ensures Valid()
      ensures View() == old(View()).(remixPrompt := value)
      ensures pendingTranscriptions == old(pendingTranscriptions) && pendingRemixes == old(pendingRemixes)
      ensures old(Consistent()) ==> Consistent()
    {
      remixPrompt := value;
    }

    /** The rich-text editor's `onChange={setFinalContent}`: the serialized markup, verbatim. */
    method EditFinal(markup: string)
      requires Valid()
      modifies this
      ensures Valid()
      ensures View() == old(View()).(finalContent := markup)
      ensures pendingTranscriptions == old(pendingTranscriptions) && pendingRemixes == old(pendingRemixes)
      ensures old(Consistent()) ==> Consistent()
    {
      finalContent := markup;
    }

    /** A tab button. */
    method SelectTab(tab: Tab)
      requires Valid()
      modifies this
      ensures Valid()
      ensures View() == old(View()).(activeTab := tab)
      ensures pendingTranscriptions == old(pendingTranscriptions) && pendingRemixes == old(pendingRemixes)
      ensures old(Consistent()) ==> Consistent()
    {
      activeTab := tab;
    }

    /**
     * The "Transcribe Now" button: shown only with a file and no result,
     * disabled while processing; when it can be pressed it starts a transcription.
     */
    method PressTranscribe()
      requires Valid()
      modifies this
      ensures Valid()
      ensures !old(file.Some? && !HasResult() && !IsProcessing()) ==>
                View() == old(View()) && pendingTranscriptions == old(pendingTranscriptions)
      ensures old(file.Some? && !HasResult() && !IsProcessing()) ==>
                View() == old(View()).(processingState := ProcessingState(Processing, Some(AnalyzingMessage)),
                                       transcription := [], remixText := [], activeTab := Original)
                && pendingTranscriptions == old(pendingTranscriptions) + 1
      ensures pendingRemixes == old(pendingRemixes)
      ensures old(Consistent()) ==> Consistent()
    {
      if file.Some? && !HasResult() && !IsProcessing() {
        StartTranscription();
      }
    }

    /**
     * The remix tab's "Generate" button and the Enter key in its instruction
     * field: present only with a result on the remix tab, inert while a remix
     * is outstanding; otherwise they run the remix handler.
     */
    method PressGenerate()
      requires Valid()
      modifies this
      ensures Valid()
      ensures var pressable := old(HasResult() && activeTab == Remix && !isRemixing) && !AllSpace(remixPrompt);
              && (!pressable ==> View() == old(View()) && pendingRemixes == old(pendingRemixes))
              && (pressable ==> View() == old(View()).(isRemixing := true) && pendingRemixes == old(pendingRemixes) + 1)
      ensures pendingTranscriptions == old(pendingTranscriptions)
      ensures old(Consistent()) ==> Consistent()
    {
      if HasResult() && activeTab == Remix && !isRemixing {
        StartRemix();
      }
    }

    /**
     * The upload control's clear button: offered only with a file selected
     * and the control enabled (not processing); it runs `handleClear`.
     */
    method PressClear()
      requires Valid()
      modifies this
      ensures Valid()
      ensures !old(file.Some? && !IsProcessing()) ==> View() == old(View())
      ensures old(file.Some? && !IsProcessing()) ==>
                View() == old(View()).(file := None, transcription := [], remixText := [], remixPrompt := [],
                                       finalContent := FinalDocument.Placeholder, processingState := IdleState)
      ensures pendingTranscriptions == old(pendingTranscriptions) && pendingRemixes == old(pendingRemixes)
      ensures old(Consistent()) ==> Consistent()
    {
      if file.Some? && !IsProcessing() {
        Clear();
      }
    }

    /** The error banner, shown only with status ERROR, and its "Dismiss" button. */
    method PressDismiss()
      requires Valid()
      modifies this
      ensures Valid()
      ensures old(processingState.status) == Error ==> View() == old(View()).(processingState := IdleState)
      ensures old(processingState.status) != Error ==> View() == old(View())
      ensures pendingTranscriptions == old(pendingTranscriptions) && pendingRemixes == old(pendingRemixes)
      ensures old(Consistent()) ==> Consistent()
    {
      if processingState.status == Error {
        DismissError();
      }
    }

    /** Typing in the original view, which is on screen only with a result on the original tab. */
    method TypeInTranscript(value: string)
      requires Valid()
      modifies this
      ensures Valid()
      ensures old(HasResult() && activeTab == Original) ==> View() == old(View()).(transcription := value)
      ensures !old(HasResult() && activeTab == Original) ==> View() == old(View())
      ensures pendingTranscriptions == old(pendingTranscriptions) && pendingRemixes == old(pendingRemixes)
      ensures old(Consistent()) ==> Consistent()
    {
      if HasResult() && activeTab == Original {
        EditTranscription(value);
      }
    }
  }

  /**
   * A drop on the upload control. The drop zone is only rendered while no
   * file is selected (a selected file shows the card instead), and it is
   * disabled while processing: then an accepted first file becomes the
   * selection, and anything else leaves the application state as it was.
   */
  method DropFiles(app: App, uploader: FileUploader, files: seq<MediaFile>)
    requires app.Valid()
    modifies app, uploader
    ensures app.Valid()
    ensures old(app.file).None? ==> !uploader.isDragging
    ensures old(app.file).Some? ==> uploader.isDragging == old(uploader.isDragging)
    ensures old(app.file).None? && !old(app.IsProcessing()) && |files| > 0 && IsAccepted(files[0].mimeType) ==>
              app.View() == old(app.View()).(file := Some(files[0]))
    ensures old(app.file).Some? || old(app.IsProcessing()) || |files| == 0 || !IsAccepted(files[0].mimeType) ==>
              app.View() == old(app.View())
    ensures app.pendingTranscriptions == old(app.pendingTranscriptions)
    ensures app.pendingRemixes == old(app.pendingRemixes)
    ensures old(app.Consistent()) ==> app.Consistent()
  {
    if app.file.Some? {
      return;
    }
    var selected := uploader.Drop(files, app.IsProcessing());
    if selected.Some? {
      app.SelectFile(selected.value);
    }
  }

  /**
   * A choice in the file picker, whose input lives inside the drop zone and so
   * exists only while no file is selected; the zone opens the picker only
   * while enabled, and the input itself is disabled while processing.
   */
  method PickFiles(app: App, uploader: FileUploader, files: seq<MediaFile>)
    requires app.Valid()
    modifies app
    ensures app.Valid()
    ensures old(app.file).None? && !old(app.IsProcessing()) && |files| > 0 && IsAccepted(files[0].mimeType) ==>
              app.View() == old(app.View()).(file := Some(files[0]))
    ensures old(app.file).Some? || old(app.IsProcessing()) || |files| == 0 || !IsAccepted(files[0].mimeType) ==>
              app.View() == old(app.View())
    ensures app.pendingTranscriptions == old(app.pendingTranscriptions)
    ensures app.pendingRemixes == old(app.pendingRemixes)
    ensures old(app.Consistent()) ==> app.Consistent()
  {
    if app.file.Some? || app.IsProcessing() {
      return;
    }
    var selected := uploader.InputChange(files);
    if selected.Some? {
      app.SelectFile(selected.value);
    }
  }

  /**
   * Whether the text view a capture comes from is on screen: both views sit
   * in the results area, shown only with a result; the original view on the
   * original tab, the remix view on the remix tab once there is remix text.
   */
  predicate ViewShown(app: App, fromRemix: bool)
    reads app
  {
    app.HasResult() && (if fromRemix then app.activeTab == Remix && app.remixText != [] else app.activeTab == Original)
  }

  /**
   * "Add to Final" in the original view (`fromRemix` false) or the remix view:
   * when that view is on screen, the captured fragment, when not empty, is
   * appended as one block; otherwise there is no button and nothing happens.
   */
  method CaptureToFinal(app: App, view: TranscriptionView, fromRemix: bool, start: nat, end: nat)
    requires app.Valid()
    modifies app, view
    ensures app.Valid()
    ensures !old(ViewShown(app, fromRemix)) ==>
              app.View() == old(app.View()) && view.showConfirmation == old(view.showConfirmation)
    ensures old(ViewShown(app, fromRemix)) ==>
              var fragment := Fragment(if fromRemix then old(app.remixText) else old(app.transcription), start, end);
              && app.View() == old(app.View()).(finalContent := old(app.finalContent) +
                                                 (if fragment != [] then FinalDocument.Block(fragment) else []))
              && view.showConfirmation == (old(view.showConfirmation) || fragment != [])
    ensures app.pendingTranscriptions == old(app.pendingTranscriptions)
    ensures app.pendingRemixes == old(app.pendingRemixes)
    ensures old(app.Consistent()) ==> app.Consistent()
  {
    if !ViewShown(app, fromRemix) {
      return;
    }
    var text := if fromRemix then app.remixText else app.transcription;
    var added := view.AddSelection(text, true, true, start, end);
    if added.Some? {
      app.AddToFinal(added.value);
    }
  }

  /**
   * No call is cancelled: a remix started before "clear" still lands after
   * it, next to a new transcription's failure.
   */
  method StaleRemixLandsAfterClear() returns (app: App)
    ensures app.processingState.status == Error
    ensures app.transcription == [] && app.remixText == "summary"
    ensures app.Consistent()
  {
    var first := MediaFile("talk.mp3", "audio/mpeg", 1024);
    var second := MediaFile("talk2.mp3", "audio/mpeg", 2048);
    app := new App();
    app.SelectFile(first);
    app.PressTranscribe();
    app.FinishTranscription(Resolved("hello"));
    app.SelectTab(Remix);
    app.EditPrompt("Summarize");
    assert !IsSpace(app.remixPrompt[0]);
    app.PressGenerate();
    app.PressClear();
    app.SelectFile(second);
    app.PressTranscribe();
    app.FinishRemix(Resolved("summary"));
    app.FinishTranscription(Rejected("boom"));
  }
}
