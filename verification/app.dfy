/**
 * The page controller of app/web/app.js (class OptimizedFilePickerTester): the local
 * file selection and its upload button, the storage-type display, the environment
 * fallback, and its own copy of the picker session state machine, which reports
 * through the results panel instead of emitting events and computes the picker's
 * initial path from the storage type when the handle becomes ready.
 */
module App {
  import opened Wrappers
  import opened Environment
  import opened Storage
  import opened Picker
  import Server

  /** What a call of updateResults shows (the page keeps only the latest one on screen). */
  datatype Topic =
    | EnvNotLoaded
    | SomeFilesInvalid(files: seq<LocalFile>)
    | FilesAccepted(files: seq<LocalFile>)
    | SelectionEmptied
    | FileRemoved(remaining: nat)
    | NothingToUpload
    | UploadDone
    | UploadFailed
    | PickerInitialized(pickerType: PickerType, diskPath: string, storageType: string, boxId: string, pickerDomain: string)
    | PickerInitFailed(pickerType: PickerType)
    | PickerSubmitted(pickerType: PickerType, detail: string)
    | PickerSaved(pickerType: PickerType, detail: string)

  datatype Report = Report(success: bool, topic: Topic)

  /** The multipart form uploadSelectedFiles posts: the storage type and the files in selection order. */
  datatype UploadRequest = UploadRequest(storageType: string, files: seq<LocalFile>)

  /** A `setTimeout(() => this.initializePicker(picker, type), 100)` waiting to run. */
  datatype PendingInit = PendingInit(picker: Element, pickerType: PickerType)

  /** What handleFileSelection reports for a batch: the rejected files first, then the accepted ones. */
  function SelectionReports(valid: seq<LocalFile>, invalid: seq<LocalFile>): (r: seq<Report>)
    ensures |r| == (if invalid != [] then 1 else 0) + (if valid != [] then 1 else 0)
    ensures invalid != [] ==> r[0] == Report(false, SomeFilesInvalid(invalid))
    ensures valid != [] ==> r[|r| - 1] == Report(true, FilesAccepted(valid))
  {
    (if invalid != [] then [Report(false, SomeFilesInvalid(invalid))] else [])
    + (if valid != [] then [Report(true, FilesAccepted(valid))] else [])
  }

  /**
   * What `fetch('/upload')` hands back: whether the status was 2xx, whether the JSON body
   * says `success`, and whether it carries the `files` and `storageInfo` fields that the
   * success branch reads.
   */
  datatype UploadReply = UploadReply(ok: bool, success: bool, hasFiles: bool, hasStorageInfo: bool)

  /**
   * The success branch runs to its end only on a 2xx reply whose body has `success`,
   * `files` and `storageInfo`; a non-2xx status or a false `success` throws, and reading
   * `result.files.length` or `result.storageInfo.uploadPath` off a missing field throws too,
   * all into the catch that reports the failure.
   */
  predicate UploadCompletes(reply: UploadReply)
  {
    reply.ok && reply.success && reply.hasFiles && reply.hasStorageInfo
  }

  /**
   * The reply the upload route sends: 400 without a file, an error status for a refused
   * part, and on success a 2xx body `{success, message, file}` with no `files` and no
   * `storageInfo`.
   */
  function ReplyTo(resp: Server.UploadResponse): (reply: UploadReply)
    ensures reply.ok <==> resp.Uploaded?
    ensures !reply.hasFiles && !reply.hasStorageInfo
  {
    match resp
    case NoFileUploaded => UploadReply(false, false, false, false)
    case UploadError(_) => UploadReply(false, false, false, false)
    case Uploaded(_) => UploadReply(true, true, false, false)
  }

  /** Whatever the server does with an upload, the page never reaches its success report. */
  lemma ServerReplyNeverCompletes(resp: Server.UploadResponse)
    ensures !UploadCompletes(ReplyTo(resp))
  {
  }

  /** Every field of the page controller at one moment, to state what a step leaves alone. */
  datatype PageState = PageState(
    currentStorageType: string, selectedFiles: seq<LocalFile>, uploadEnabled: bool,
    env: Option<Env>, user: Option<User>, reports: seq<Report>, status: string,
    shownStorage: string, shownUploadPath: string,
    current: Option<Element>, wrapper: seq<Element>, containerVisible: bool, shownTitle: string,
    nativeCalls: seq<NativeCall>, scheduled: seq<PendingInit>)

  /** The status line a storage-type radio button writes, before the new root. */
  const SwitchedStatus: string := "已切换到存储目录: "

  /** The status line closePicker writes. */
  const ClosedStatus: string := "文件选择器已关闭"

  class FilePickerTester {
    var currentStorageType: string
    var selectedFiles: seq<LocalFile>
    /** Whether `#uploadFilesBtn` is enabled. */
    var uploadEnabled: bool
    var env: Option<Env>
    var user: Option<User>
    /** Every updateResults call, oldest first; the page shows the last one. */
    var reports: seq<Report>
    var status: string
    /** `#currentStorage` and `#uploadTargetPath`. */
    var shownStorage: string
    var shownUploadPath: string
    var current: Option<Element>
    var wrapper: seq<Element>
    var containerVisible: bool
    var shownTitle: string
    var nativeCalls: seq<NativeCall>
    var scheduled: seq<PendingInit>
    const hasContainers: bool

    ghost predicate Valid()
      reads this
    {
      && wrapper == (if current.Some? then [current.value] else [])
      && (!hasContainers ==> current.None? && !containerVisible)
      && (uploadEnabled ==> selectedFiles != [])
    }

    /** All the fields together. */
    ghost function State(): PageState
      reads this
    {
      PageState(currentStorageType, selectedFiles, uploadEnabled, env, user, reports, status,
                shownStorage, shownUploadPath, current, wrapper, containerVisible, shownTitle,
                nativeCalls, scheduled)
    }

    constructor (hasContainers: bool)
      ensures Valid() && this.hasContainers == hasContainers
      ensures State() == PageState("var", [], false, None, None, [], "", "", "", None, [], false, "", [], [])
    {
      currentStorageType := "var";
      selectedFiles := [];
      uploadEnabled := false;
      env := None;
      user := None;
      reports := [];
      status := "";
      shownStorage := "";
      shownUploadPath := "";
      current := None;
      wrapper := [];
      containerVisible := false;
      shownTitle := "";
      nativeCalls := [];
      scheduled := [];
      this.hasContainers := hasContainers;
    }

    /** The result currently on screen. */
    function ShownResult(): Option<Report>
      reads this
    {
      if reports == [] then None else Some(reports[|reports| - 1])
    }

    /** useDefaultEnvironment: the same hostname rule as the environment manager, silent on failure. */
    method UseDefaultEnvironment(hostname: string)
      requires Valid()
      modifies this
      ensures Valid()
      ensures State() == old(State()).(env := if DefaultEnv(hostname).Some? then DefaultEnv(hostname) else old(env))
    {
      var d := DefaultEnv(hostname);
      if d.Some? {
        env := d;
      }
    }

    /** loadLazycatEnvironment: any failure, including a bad box name, falls back to the hostname rule. */
    method LoadLazycatEnvironment(resp: EnvResponse, hostname: string)
      requires Valid()
      modifies this
      ensures Valid()
      ensures EnvLoadSucceeds(resp) ==> env == resp.environment
      ensures !EnvLoadSucceeds(resp) && DefaultEnv(hostname).Some? ==> env == DefaultEnv(hostname)
      ensures !EnvLoadSucceeds(resp) && DefaultEnv(hostname).None? ==>
                env == (if resp.EnvBody? && resp.success then resp.environment else old(env))
      ensures State() == old(State()).(env := env)
    {
      if resp.EnvBody? && resp.success {
        env := resp.environment;
        if resp.environment.Some? && BoxNameValid(resp.environment.value.boxName) {
          return;
        }
      }
      UseDefaultEnvironment(hostname);
    }

    /** loadUserInfo: the reply's user, or the default user on any failure. */
    method LoadUserInfo(resp: UserResponse)
      requires Valid()
      modifies this
      ensures Valid()
      ensures State() == old(State()).(user := UserAfter(resp))
    {
      user := UserAfter(resp);
    }

    /** getCurrentStoragePath. */
    function CurrentStoragePath(): string
      reads this
    {
      StorageRoot(currentStorageType, user)
    }

    /** updateStorageDisplay: show the root and its uploads subdirectory. */
    method UpdateStorageDisplay()
      requires Valid()
      modifies this
      ensures Valid()
      ensures State() == old(State()).(shownStorage := StorageRoot(old(currentStorageType), old(user)),
                                       shownUploadPath := UploadPath(StorageRoot(old(currentStorageType), old(user))))
    {
      var root := CurrentStoragePath();
      shownStorage := root;
      shownUploadPath := root + "/uploads";
    }

    /**
     * The storage-type controls: a radio button or the select switches the type and
     * updates the display; the radio button also names the new root on the status line.
     */
    method ChangeStorageType(value: string, fromRadio: bool)
      requires Valid()
      modifies this
      ensures Valid()
      ensures State() == old(State()).(currentStorageType := value,
                                       shownStorage := StorageRoot(value, old(user)),
                                       shownUploadPath := UploadPath(StorageRoot(value, old(user))),
                                       status := if fromRadio then SwitchedStatus + StorageRoot(value, old(user)) else old(status))
    {
      currentStorageType := value;
      UpdateStorageDisplay();
      if fromRadio {
        status := SwitchedStatus + CurrentStoragePath();
      }
    }

    /** clearFileSelection: no file selected and the upload button disabled. */
    method ClearFileSelection()
      requires Valid()
      modifies this
      ensures Valid()
      ensures State() == old(State()).(selectedFiles := [], uploadEnabled := false)
    {
      selectedFiles := [];
      uploadEnabled := false;
    }

    /**
     * handleFileSelection: a missing or empty batch clears the selection; otherwise invalid
     * files are reported, and the valid ones become the selection only when there are any
     * (with no valid file the upload button is disabled and the selection stays).
     */
    method HandleFileSelection(files: Option<seq<LocalFile>>)
      requires Valid()
      modifies this
      ensures Valid()
      ensures State() == old(State()).(selectedFiles := selectedFiles, uploadEnabled := uploadEnabled, reports := reports)
      ensures files.None? || files.value == [] ==> selectedFiles == [] && !uploadEnabled && reports == old(reports)
      ensures files.Some? && files.value != [] ==>
                var valid, invalid := Valids(files.value), Invalids(files.value);
                && reports == old(reports) + SelectionReports(valid, invalid)
                && (valid != [] ==> selectedFiles == valid && uploadEnabled)
                && (valid == [] ==> selectedFiles == old(selectedFiles) && !uploadEnabled)
    {
      if files.None? || |files.value| == 0 {
        ClearFileSelection();
        return;
      }
      var valid, invalid := SplitByValidity(files.value);
      reports := reports + SelectionReports(valid, invalid);
      if |valid| > 0 {
        selectedFiles := valid;
        uploadEnabled := true;
      } else {
        uploadEnabled := false;
      }
    }

    /**
     * removeSelectedFile: an index out of range changes nothing; in range, exactly that
     * file leaves the selection, and emptying it disables the upload button.
     */
    method RemoveSelectedFile(index: int)
      requires Valid()
      modifies this
      ensures Valid()
      ensures State() == old(State()).(selectedFiles := selectedFiles, uploadEnabled := uploadEnabled, reports := reports)
      ensures !(0 <= index < |old(selectedFiles)|) ==>
                selectedFiles == old(selectedFiles) && uploadEnabled == old(uploadEnabled) && reports == old(reports)
      ensures 0 <= index < |old(selectedFiles)| ==>
                && selectedFiles == old(selectedFiles)[..index] + old(selectedFiles)[index + 1..]
                && (selectedFiles == [] ==> !uploadEnabled && reports == old(reports) + [Report(true, SelectionEmptied)])
                && (selectedFiles != [] ==>
                      uploadEnabled == old(uploadEnabled) && reports == old(reports) + [Report(true, FileRemoved(|selectedFiles|))])
    {
      if 0 <= index < |selectedFiles| {
        selectedFiles := selectedFiles[..index] + selectedFiles[index + 1..];
        if |selectedFiles| == 0 {
          uploadEnabled := false;
          reports := reports + [Report(true, SelectionEmptied)];
        } else {
          reports := reports + [Report(true, FileRemoved(|selectedFiles|))];
        }
      }
    }

    /**
     * uploadSelectedFiles: with nothing selected, report a failure and send nothing;
     * otherwise post the checked storage type (or the current one) with every selected file.
     */
    method UploadSelectedFiles(checkedRadio: Option<string>) returns (req: Option<UploadRequest>)
      requires Valid()
      modifies this
      ensures Valid()
      ensures State() == old(State()).(reports := reports)
      ensures req.None? <==> selectedFiles == []
      ensures selectedFiles == [] ==> reports == old(reports) + [Report(false, NothingToUpload)]
      ensures selectedFiles != [] ==>
                && reports == old(reports)
                && req.value.files == selectedFiles
                && req.value.storageType == (if checkedRadio.Some? then checkedRadio.value else currentStorageType)
    {
      if |selectedFiles| == 0 {
        reports := reports + [Report(false, NothingToUpload)];
        return None;
      }
      var storageType := if checkedRadio.Some? then checkedRadio.value else currentStorageType;
      return Some(UploadRequest(storageType, selectedFiles));
    }

    /**
     * The end of uploadSelectedFiles: a reply that completes the success branch is reported
     * and clears the selection; any other reply ends in the catch, which reports the failure
     * and keeps the selection.
     */
    method FinishUpload(reply: UploadReply)
      requires Valid()
      modifies this
      ensures Valid()
      ensures UploadCompletes(reply) ==>
                State() == old(State()).(reports := old(reports) + [Report(true, UploadDone)],
                                         selectedFiles := [], uploadEnabled := false)
      ensures !UploadCompletes(reply) ==> State() == old(State()).(reports := old(reports) + [Report(false, UploadFailed)])
    {
      if reply.ok && reply.success && reply.hasFiles && reply.hasStorageInfo {
        reports := reports + [Report(true, UploadDone)];
        ClearFileSelection();
      } else {
        reports := reports + [Report(false, UploadFailed)];
      }
    }

    /** destroyCurrentPicker: afterwards there is no picker and the wrapper is empty. */
    method DestroyCurrentPicker()
      requires Valid()
      modifies this
      ensures Valid()
      ensures State() == old(State()).(current := None, wrapper := [])
    {
      if current.Some? {
        if hasContainers {
          wrapper := [];
        }
        current := None;
      }
    }

    /**
     * createFilePicker: without a box name, report and touch nothing; otherwise tear down
     * the previous picker before attaching the new one as the wrapper's only child.
     */
    method CreateFilePicker(t: PickerType)
      requires Valid()
      modifies this
      ensures Valid()
      ensures !HasBox(old(env)) ==> State() == old(State()).(reports := old(reports) + [Report(false, EnvNotLoaded)])
      ensures HasBox(old(env)) && !hasContainers ==> State() == old(State()).(current := None, wrapper := [])
      ensures HasBox(old(env)) && hasContainers ==>
                var p := BuildPicker(t, old(env).value.boxName);
                State() == old(State()).(current := Some(p), wrapper := [p], containerVisible := true,
                                         shownTitle := Title(t), scheduled := old(scheduled) + [PendingInit(p, t)])
    {
      if env.None? || env.value.boxName == "" {
        reports := reports + [Report(false, EnvNotLoaded)];
        return;
      }
      DestroyCurrentPicker();
      if !hasContainers {
        return;
      }
      var p := BuildPicker(t, env.value.boxName);
      AttachPicker(p, Title(t), PendingInit(p, t));
    }

    /** The second half of createFilePicker: the new element becomes the wrapper's only child and is shown. */
    method AttachPicker(p: Element, title: string, init: PendingInit)
      requires Valid() && hasContainers && current.None?
      modifies this
      ensures Valid()
      ensures State() == old(State()).(current := Some(p), wrapper := [p], containerVisible := true,
                                       shownTitle := title, scheduled := old(scheduled) + [init])
    {
      wrapper := wrapper + [p];
      current := Some(p);
      shownTitle := title;
      containerVisible := true;
      scheduled := scheduled + [init];
    }

    /**
     * initializePicker: reschedule until the handle is ready; then open the picker at the
     * current storage root (with the save-as payload first for 'saveAs').
     */
    method InitializePicker(req: PendingInit, ready: bool, now: nat)
      requires Valid()
      modifies this
      ensures Valid()
      ensures !ready ==> State() == old(State()).(scheduled := old(scheduled) + [req])
      ensures ready && old(env).None? ==>
                State() == old(State()).(reports := old(reports) + [Report(false, PickerInitFailed(req.pickerType))])
      ensures ready && old(env).Some? ==>
                var diskPath := StorageRoot(old(currentStorageType), old(user));
                var box := old(env).value.boxName;
                var calls := InitCalls(req.pickerType, diskPath, old(env).value, Some(old(currentStorageType)), now);
                var shown := PickerInitialized(req.pickerType, diskPath, old(currentStorageType), box, PickerDomain(box));
                State() == old(State()).(nativeCalls := old(nativeCalls) + calls, reports := old(reports) + [Report(true, shown)])
    {
      if !ready {
        scheduled := scheduled + [req];
        return;
      }
      if env.None? {
        reports := reports + [Report(false, PickerInitFailed(req.pickerType))];
        return;
      }
      var diskPath := CurrentStoragePath();
      var box := env.value.boxName;
      nativeCalls := nativeCalls + InitCalls(req.pickerType, diskPath, env.value, Some(currentStorageType), now);
      reports := reports + [Report(true, PickerInitialized(req.pickerType, diskPath, currentStorageType, box, PickerDomain(box)))];
    }

    /** closePicker: hide the container, tear down, and say so on the status line. */
    method ClosePicker()
      requires Valid()
      modifies this
      ensures Valid()
      ensures State() == old(State()).(containerVisible := false, current := None, wrapper := [], status := ClosedStatus)
    {
      if hasContainers {
        containerVisible := false;
      }
      DestroyCurrentPicker();
      status := ClosedStatus;
    }

    /** The element's listeners: 'submit' and 'done' report the result, 'close' closes the picker. */
    method HandleNativeEvent(t: PickerType, ev: NativeEvent)
      requires Valid()
      modifies this
      ensures Valid()
      ensures ev.Submit? ==> State() == old(State()).(reports := old(reports) + [Report(true, PickerSubmitted(t, ev.detail))])
      ensures ev.Done? ==> State() == old(State()).(reports := old(reports) + [Report(true, PickerSaved(t, ev.detail))])
      ensures ev.Close? ==>
                State() == old(State()).(containerVisible := false, current := None, wrapper := [], status := ClosedStatus)
    {
      match ev
      case Submit(detail) =>
        reports := reports + [Report(true, PickerSubmitted(t, detail))];
      case Done(detail) =>
        reports := reports + [Report(true, PickerSaved(t, detail))];
      case Close =>
        ClosePicker();
    }
  }
}
