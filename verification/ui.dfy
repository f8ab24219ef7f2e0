/**
 * The page-level UI helper of app/web/js/ui-manager.js: its listener registry, the
 * button handlers that turn clicks into events, the selected-files preview with its
 * upload button, the storage-path labels and the results panel, which shows the
 * newest result first.
 */
module Ui {
  import opened Wrappers
  import opened Events
  import opened Storage
  import opened Picker

  /** What the UI's events carry. */
  datatype UiPayload =
    | RequestedPicker(pickerType: PickerType)
    | ChosenFiles(files: Option<seq<LocalFile>>)
    | ChosenStorageType(value: string)
    | NoPayload

  /** A user gesture on one of the bound controls. */
  datatype Control =
    | PickerButton(pickerType: PickerType)
    | ClosePickerButton
    | FileInputChanged(files: Option<seq<LocalFile>>)
    | FilesDropped(files: Option<seq<LocalFile>>)
    | UploadButton
    | ClearSelectionButton
    | RefreshFileListButton
    /** `confirmed` is the user's answer to the confirm() dialog. */
    | ClearAllFilesButton(confirmed: bool)
    | StorageTypeControl(value: string)
    | DebugEnvButton
    | TestConnectionButton

  /** The event a control emits, when it emits one. */
  function ControlEvent(c: Control): (r: Option<(string, UiPayload)>)
    ensures r.None? <==> c.ClearSelectionButton? || (c.ClearAllFilesButton? && !c.confirmed)
    ensures c.PickerButton? ==> r == Some(("createPicker", RequestedPicker(c.pickerType)))
    ensures c.ClosePickerButton? ==> r == Some(("closePicker", NoPayload))
    ensures c.FileInputChanged? || c.FilesDropped? ==> r == Some(("filesSelected", ChosenFiles(c.files)))
    ensures c.UploadButton? ==> r == Some(("uploadRequested", NoPayload))
    ensures c.RefreshFileListButton? ==> r == Some(("refreshFileList", NoPayload))
    ensures c.ClearAllFilesButton? && c.confirmed ==> r == Some(("clearAllFiles", NoPayload))
    ensures c.StorageTypeControl? ==> r == Some(("storageTypeChanged", ChosenStorageType(c.value)))
    ensures c.DebugEnvButton? ==> r == Some(("debugEnvironment", NoPayload))
    ensures c.TestConnectionButton? ==> r == Some(("testConnection", NoPayload))
  {
    match c
    case PickerButton(t) => Some(("createPicker", RequestedPicker(t)))
    case ClosePickerButton => Some(("closePicker", NoPayload))
    case FileInputChanged(files) => Some(("filesSelected", ChosenFiles(files)))
    case FilesDropped(files) => Some(("filesSelected", ChosenFiles(files)))
    case UploadButton => Some(("uploadRequested", NoPayload))
    case ClearSelectionButton => None
    case RefreshFileListButton => Some(("refreshFileList", NoPayload))
    case ClearAllFilesButton(confirmed) => if confirmed then Some(("clearAllFiles", NoPayload)) else None
    case StorageTypeControl(v) => Some(("storageTypeChanged", ChosenStorageType(v)))
    case DebugEnvButton => Some(("debugEnvironment", NoPayload))
    case TestConnectionButton => Some(("testConnection", NoPayload))
  }

  /** One entry of the results panel; `time` is the caller's formatted clock reading. */
  datatype UiResult = UiResult(success: bool, message: string, time: string)

  /** A sequence in reverse order. */
  function Reversed<T>(s: seq<T>): (r: seq<T>)
    ensures |r| == |s|
  {
    if s == [] then [] else [s[|s| - 1]] + Reversed(s[..|s| - 1])
  }

  /** Appending to the history puts the new entry in front of the reversed view. */
  lemma ReversedSnoc<T>(s: seq<T>, x: T)
    ensures Reversed(s + [x]) == [x] + Reversed(s)
  {
    assert (s + [x])[..|s|] == s;
  }

  /** Position i of the reversed view is the i-th newest entry of the history. */
  lemma {:induction false} ReversedIndex<T>(s: seq<T>, i: nat)
    requires i < |s|
    ensures Reversed(s)[i] == s[|s| - 1 - i]
  {
    if i > 0 {
      ReversedIndex(s[..|s| - 1], i - 1);
    }
  }

  class UIManager {
    /** `this.selectedFiles`: whatever displaySelectedFiles was last given, possibly null. */
    var selectedFiles: Option<seq<LocalFile>>
    /** Whether `#uploadFilesBtn` is enabled. */
    var uploadEnabled: bool
    /** `#results`, top to bottom. */
    var results: seq<UiResult>
    /** Every result ever passed to updateResults, oldest first. */
    ghost var history: seq<UiResult>
    var shownStorage: string
    var shownUploadPath: string
    const bus: EventBus<UiPayload>

    /** The panel is the history, newest first. */
    ghost predicate Valid()
      reads this
    {
      results == Reversed(history)
    }

    constructor ()
      ensures Valid()
      ensures selectedFiles == Some([]) && !uploadEnabled && results == [] && history == []
      ensures fresh(bus) && bus.listeners == map[] && bus.emitted == [] && bus.delivered == []
    {
      selectedFiles := Some([]);
      uploadEnabled := false;
      results := [];
      history := [];
      shownStorage := "";
      shownUploadPath := "";
      bus := new EventBus();
    }

    method On(e: string, cb: Listener)
      modifies bus
      ensures bus.listeners == Register(old(bus.listeners), e, cb)
      ensures bus.emitted == old(bus.emitted) && bus.delivered == old(bus.delivered)
    {
      bus.On(e, cb);
    }

    /** displaySelectedFiles: remember the files; the upload button is enabled iff there is one. */
    method DisplaySelectedFiles(files: Option<seq<LocalFile>>)
      modifies this
      ensures selectedFiles == files
      ensures uploadEnabled <==> files.Some? && files.value != []
      ensures results == old(results) && history == old(history)
      ensures shownStorage == old(shownStorage) && shownUploadPath == old(shownUploadPath)
    {
      selectedFiles := files;
      if files.None? || |files.value| == 0 {
        uploadEnabled := false;
        return;
      }
      uploadEnabled := true;
    }

    /** clearFileSelection. */
    method ClearFileSelection()
      modifies this
      ensures selectedFiles == Some([]) && !uploadEnabled
      ensures results == old(results) && history == old(history)
      ensures shownStorage == old(shownStorage) && shownUploadPath == old(shownUploadPath)
    {
      selectedFiles := Some([]);
      uploadEnabled := false;
    }

    /**
     * removeSelectedFile: a negative index changes nothing; with no selection (null) a
     * non-negative index throws; an index past the end changes nothing; otherwise exactly
     * that file is removed, and the upload button follows whether any file is left.
     */
    method RemoveSelectedFile(index: int) returns (threw: bool)
      modifies this
      ensures threw <==> index >= 0 && old(selectedFiles).None?
      ensures results == old(results) && history == old(history)
      ensures shownStorage == old(shownStorage) && shownUploadPath == old(shownUploadPath)
      ensures !(old(selectedFiles).Some? && 0 <= index < |old(selectedFiles).value|) ==>
                selectedFiles == old(selectedFiles) && uploadEnabled == old(uploadEnabled)
      ensures old(selectedFiles).Some? && 0 <= index < |old(selectedFiles).value| ==>
                var fs := old(selectedFiles).value;
                && selectedFiles == Some(fs[..index] + fs[index + 1..])
                && (uploadEnabled <==> |fs| > 1)
    {
      if index < 0 {
        return false;
      }
      if selectedFiles.None? {
        return true;
      }
      var fs := selectedFiles.value;
      if index < |fs| {
        var rest := fs[..index] + fs[index + 1..];
        DisplaySelectedFiles(Some(rest));
        if |rest| == 0 {
          ClearFileSelection();
        }
      }
      return false;
    }

    /** updateResults: the new result goes on top of the panel. */
    method UpdateResults(r: UiResult)
      requires Valid()
      modifies this
      ensures Valid()
      ensures history == old(history) + [r]
      ensures results == [r] + old(results)
      ensures selectedFiles == old(selectedFiles) && uploadEnabled == old(uploadEnabled)
      ensures shownStorage == old(shownStorage) && shownUploadPath == old(shownUploadPath)
    {
      ReversedSnoc(history, r);
      results := [r] + results;
      history := history + [r];
    }

    /** updateStorageDisplay: the root and its uploads subdirectory. */
    method UpdateStorageDisplay(currentPath: string)
      modifies this
      ensures shownStorage == currentPath && shownUploadPath == UploadPath(currentPath)
      ensures selectedFiles == old(selectedFiles) && uploadEnabled == old(uploadEnabled)
      ensures results == old(results) && history == old(history)
    {
      shownStorage := currentPath;
      shownUploadPath := currentPath + "/uploads";
    }

    /**
     * The bound controls: each one emits its event, except the clear button, which clears
     * the selection directly, and the clear-all button, which emits only once confirmed.
     */
    method Trigger(c: Control)
      modifies this, bus
      ensures bus.listeners == old(bus.listeners)
      ensures results == old(results) && history == old(history)
      ensures shownStorage == old(shownStorage) && shownUploadPath == old(shownUploadPath)
      ensures c.ClearSelectionButton? ==>
                selectedFiles == Some([]) && !uploadEnabled
                && bus.emitted == old(bus.emitted) && bus.delivered == old(bus.delivered)
      ensures !c.ClearSelectionButton? ==> selectedFiles == old(selectedFiles) && uploadEnabled == old(uploadEnabled)
      ensures c.ClearAllFilesButton? && !c.confirmed ==> bus.emitted == old(bus.emitted) && bus.delivered == old(bus.delivered)
      ensures ControlEvent(c).Some? ==>
                var (e, d) := ControlEvent(c).value;
                && bus.emitted == old(bus.emitted) + [Emission(e, d)]
                && bus.delivered == old(bus.delivered) + Dispatch(old(bus.listeners), e, d)
    {
      if c.ClearSelectionButton? {
        ClearFileSelection();
        return;
      }
      var ev := ControlEvent(c);
      if ev.Some? {
        var (e, d) := ev.value;
        bus.Emit(e, d);
      }
    }
  }
}
