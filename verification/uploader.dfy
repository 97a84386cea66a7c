/**
 * The upload control: accepts one audio or video file, by drag and drop or
 * through the file picker, and tracks whether a drag is hovering over it.
 */
module Uploader {
  import opened Base

  /** A file chosen by the user: name, declared MIME type and size in bytes. */
  datatype MediaFile = MediaFile(name: string, mimeType: string, size: nat)

  /** The MIME prefixes the control accepts, in the order they are tried. */
  const ValidTypes: seq<string> := ["audio/", "video/"]

  /** `prefixes.some(p => s.startsWith(p))` */
  function SomePrefix(prefixes: seq<string>, s: string): (r: bool)
    ensures r <==> exists i :: 0 <= i < |prefixes| && StartsWith(s, prefixes[i])
  {
    if prefixes == [] then false
    else if StartsWith(s, prefixes[0]) then true
    else
      var rest := SomePrefix(prefixes[1..], s);
      assert forall i :: 1 <= i < |prefixes| ==> prefixes[i] == prefixes[1..][i - 1];
      rest
  }

  /** The validity test of `validateAndSelect`: the declared type names an audio or video category. */
  function IsAccepted(mimeType: string): (r: bool)
    ensures r <==> 6 <= |mimeType| && (mimeType[..6] == "audio/" || mimeType[..6] == "video/")
  {
    var r := SomePrefix(ValidTypes, mimeType);
    assert r <==> StartsWith(mimeType, ValidTypes[0]) || StartsWith(mimeType, ValidTypes[1]);
    r
  }

  /**
   * `validateAndSelect`: an accepted file is handed to `onFileSelect` unchanged
   * (`Some(file)`); a rejected one never reaches it (`None`, and an alert).
   */
  function Validate(file: MediaFile): (selected: Option<MediaFile>)
    ensures selected.Some? <==> IsAccepted(file.mimeType)
    ensures selected.Some? ==> selected.value == file
  {
    if IsAccepted(file.mimeType) then Some(file) else None
  }

  /**
   * What the drop and picker handlers do with a file list once they get to
   * it: an empty list is ignored, otherwise only the first file is validated.
   */
  function Dispatch(files: seq<MediaFile>): (selected: Option<MediaFile>)
    ensures selected.Some? <==> |files| > 0 && IsAccepted(files[0].mimeType)
    ensures selected.Some? ==> selected.value == files[0]
  {
    if |files| > 0 then Validate(files[0]) else None
  }

  /** What the control shows: the drop zone, or a card for the selected file. */
  datatype Panel =
    | DropZone(highlighted: bool, dimmed: bool)
    | FileCard(name: string, videoIcon: bool, clearButton: bool)

  /** The control, with its one piece of local state. */
  class FileUploader {
    var isDragging: bool

    constructor ()
      ensures !isDragging
    {
      isDragging := false;
    }

    /** `handleDragOver`: highlights the zone only when the control is enabled. */
    method DragOver(disabled: bool)
      modifies this
      ensures isDragging == (!disabled || old(isDragging))
    {
      if !disabled {
        isDragging := true;
      }
    }

    /** `handleDragLeave`. */
    method DragLeave()
      modifies this
      ensures !isDragging
    {
      isDragging := false;
    }

    /**
     * `handleDrop`: always clears the highlight; while disabled nothing else
     * happens; otherwise the list goes through `Dispatch`.
     */
    method Drop(files: seq<MediaFile>, disabled: bool) returns (selected: Option<MediaFile>)
      modifies this
      ensures !isDragging
      ensures disabled ==> selected.None?
      ensures !disabled ==> selected == Dispatch(files)
    {
      isDragging := false;
      if disabled {
        return None;
      }
      selected := None;
      if |files| > 0 {
        var file := files[0];
        selected := Validate(file);
      }
    }

    /** `handleInputChange`: the picker's list, handled exactly as a drop while enabled. */
    method InputChange(files: seq<MediaFile>) returns (selected: Option<MediaFile>)
      ensures selected.Some? <==> |files| > 0 && IsAccepted(files[0].mimeType)
      ensures selected.Some? ==> selected.value == files[0]
    {
      selected := None;
      if |files| > 0 {
        selected := Validate(files[0]);
      }
    }

    /**
     * The rendered panel: a card when a file is selected (video icon for a
     * `video/` type, a clear button only when enabled), else the drop zone.
     */
    function Render(selectedFile: Option<MediaFile>, disabled: bool): (p: Panel)
      reads this
      ensures p.FileCard? <==> selectedFile.Some?
      ensures p.FileCard? ==> p.name == selectedFile.value.name
      ensures p.FileCard? ==> (p.videoIcon <==> 6 <= |selectedFile.value.mimeType| && selectedFile.value.mimeType[..6] == "video/")
      ensures p.FileCard? ==> (p.clearButton <==> !disabled)
      ensures p.DropZone? ==> p.highlighted == isDragging && p.dimmed == disabled
    {
      match selectedFile
      case Some(f) => FileCard(f.name, StartsWith(f.mimeType, "video/"), !disabled)
      case None => DropZone(isDragging, disabled)
    }
  }

  /** A selected file shown with the video icon is one the control accepts. */
  lemma VideoIconOnlyForAccepted(u: FileUploader, f: MediaFile, disabled: bool)
    requires u.Render(Some(f), disabled).videoIcon
    ensures IsAccepted(f.mimeType)
  {
  }

  /** Acceptance is case-sensitive and needs the slash: `"AUDIO/MP3"` and `"audio"` are rejected. */
  lemma AcceptanceIsExact()
    ensures IsAccepted("audio/mpeg") && IsAccepted("video/mp4")
    ensures !IsAccepted("AUDIO/MP3") && !IsAccepted("audio") && !IsAccepted("application/ogg")
  {
  }
}
