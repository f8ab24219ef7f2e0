/**
 * The picker session state machine of app/web/js/file-picker-manager.js: build the
 * native `lzc-file-picker` element, attach it as the only child of the wrapper, wait
 * for its native handle, configure and open it, and tear it down again.
 *
 * The element is a value (its id and attributes); the native handle's calls
 * (`init`, `sendSaveAsData`, `open`) are recorded in order in a call log, and whether
 * the handle is ready when a scheduled initialisation runs is an input.
 */
module Picker {
  import opened Wrappers
  import opened Strings
  import opened Events
  import opened Environment

  /** The three picker kinds: 'file', 'dir' and 'saveAs'. */
  datatype PickerType = File | Dir | SaveAs

  function TypeName(t: PickerType): string
  {
    match t
    case File => "file"
    case Dir => "dir"
    case SaveAs => "saveAs"
  }

  /** `pickerTypes[type].title`. */
  function Title(t: PickerType): string
  {
    match t
    case File => "文件选择器"
    case Dir => "目录选择器"
    case SaveAs => "文件保存器"
  }

  /** A DOM element: its id and its attributes. */
  datatype Element = Element(id: string, attrs: map<string, string>)

  /** The `lzc-file-picker` element createPicker builds for a type and a box. */
  function BuildPicker(t: PickerType, boxName: string): (p: Element)
    ensures p.id == "picker-" + TypeName(t)
    ensures "type" in p.attrs && p.attrs["type"] == TypeName(t)
    ensures "title" in p.attrs && p.attrs["title"] == Title(t)
    ensures "box-id" in p.attrs && p.attrs["box-id"] == boxName
    ensures "write-file-content" in p.attrs <==> t == SaveAs
    ensures p.attrs.Keys <= {"type", "title", "confirm-button-title", "breadcrumb-root-title", "box-id", "write-file-content"}
  {
    var attrs := map[
      "type" := TypeName(t),
      "title" := Title(t),
      "confirm-button-title" := "确认选择",
      "breadcrumb-root-title" := "根目录",
      "box-id" := boxName
    ];
    Element("picker-" + TypeName(t), if t == SaveAs then attrs["write-file-content" := ""] else attrs)
  }

  /** Elements built for different types differ, so the attached element tells which picker is open. */
  lemma BuildPickerDistinguishesTypes(t1: PickerType, t2: PickerType, b1: string, b2: string)
    requires BuildPicker(t1, b1) == BuildPicker(t2, b2)
    ensures t1 == t2 && b1 == b2
  {
    assert TypeName(t1) == BuildPicker(t1, b1).attrs["type"];
  }

  /** The JSON document the save-as picker is given to save. */
  datatype SaveAsContent = SaveAsContent(environment: Env, storageType: Option<string>, storagePath: string, deviceName: string, timestamp: nat)

  /** A call made on the native handle `picker._instance.exposed`. */
  datatype NativeCall =
    | Init(diskPath: string)
    | SendSaveAsData(content: SaveAsContent, extension: string, fileName: string)
    | OpenWidget

  /** `this.lazycatEnv?.boxName || 'unknown'`. */
  function DeviceName(boxName: string): string
  {
    if boxName == "" then "unknown" else boxName
  }

  /** The name given to the saved test file: `测试文件-<device>-<Date.now()>`. */
  function SaveAsFileName(boxName: string, now: nat): string
  {
    "测试文件-" + DeviceName(boxName) + "-" + NatToString(now)
  }

  /** The calls initializePicker makes once the handle is ready: init, then (save-as only) the payload, then open. */
  function InitCalls(t: PickerType, diskPath: string, env: Env, storageType: Option<string>, now: nat): (calls: seq<NativeCall>)
    ensures |calls| == if t == SaveAs then 3 else 2
    ensures calls[0] == Init(diskPath)
    ensures calls[|calls| - 1] == OpenWidget
    ensures (exists i :: 0 <= i < |calls| && calls[i].SendSaveAsData?) <==> t == SaveAs
    ensures t == SaveAs ==>
              && calls[1].SendSaveAsData? && calls[1].extension == "json"
              && calls[1].content.storagePath == diskPath && calls[1].fileName == SaveAsFileName(env.boxName, now)
  {
    if t == SaveAs then
      var content := SaveAsContent(env, storageType, diskPath, DeviceName(env.boxName), now);
      var calls := [Init(diskPath), SendSaveAsData(content, "json", SaveAsFileName(env.boxName, now)), OpenWidget];
      assert calls[1].SendSaveAsData?;
      calls
    else
      [Init(diskPath), OpenWidget]
  }

  /** A `setTimeout(() => this.initializePicker(picker, type, diskPath), 100)` waiting to run. */
  datatype InitRequest = InitRequest(picker: Element, pickerType: PickerType, diskPath: string)

  /** An event the native element raises. */
  datatype NativeEvent = Submit(detail: string) | Done(detail: string) | Close

  /** Payload of 'pickerResult' (and of 'pickerClosed', which carries none). */
  datatype PickerPayload =
    | EnvMissing                                                             // success: false, boxName not configured
    | Initialized(pickerType: PickerType, diskPath: string, boxId: string, pickerDomain: string)
    | InitFailed(pickerType: PickerType)                                     // success: false, the try block threw
    | Submitted(pickerType: PickerType, detail: string)
    | SaveDone(pickerType: PickerType, detail: string)
    | NoData

  predicate Succeeded(p: PickerPayload)
  {
    p.Initialized? || p.Submitted? || p.SaveDone?
  }

  class FilePickerManager {
    /** `currentPicker`. */
    var current: Option<Element>
    /** The children of `#pickerWrapper`. */
    var wrapper: seq<Element>
    /** Whether `#pickerContainer` is displayed. */
    var containerVisible: bool
    /** The text of `#pickerTitle`. */
    var shownTitle: string
    /** `lazycatEnv`. */
    var env: Option<Env>
    /** The calls made on native handles, in order. */
    var nativeCalls: seq<NativeCall>
    /** Initialisations scheduled with setTimeout, in the order they were scheduled. */
    var scheduled: seq<InitRequest>
    /** Whether the page has `#pickerWrapper`, `#pickerContainer` and `#pickerTitle`. */
    const hasContainers: bool
    /** `eventListeners` with on/emit. */
    const bus: EventBus<PickerPayload>

    /** At most one picker is attached, and it is the current one. */
    ghost predicate Valid()
      reads this
    {
      && wrapper == (if current.Some? then [current.value] else [])
      && (!hasContainers ==> current.None? && !containerVisible)
    }

    constructor (hasContainers: bool)
      ensures Valid()
      ensures this.hasContainers == hasContainers
      ensures current.None? && wrapper == [] && !containerVisible && env.None?
      ensures nativeCalls == [] && scheduled == []
      ensures fresh(bus) && bus.listeners == map[] && bus.emitted == [] && bus.delivered == []
    {
      current := None;
      wrapper := [];
      containerVisible := false;
      shownTitle := "";
      env := None;
      nativeCalls := [];
      scheduled := [];
      this.hasContainers := hasContainers;
      bus := new EventBus();
    }

    method On(e: string, cb: Listener)
      modifies bus
      ensures bus.listeners == Register(old(bus.listeners), e, cb)
      ensures bus.emitted == old(bus.emitted) && bus.delivered == old(bus.delivered)
    {
      bus.On(e, cb);
    }

    /** setEnvironment. */
    method SetEnvironment(e: Option<Env>)
      requires Valid()
      modifies this
      ensures Valid() && env == e
      ensures current == old(current) && wrapper == old(wrapper) && containerVisible == old(containerVisible)
      ensures shownTitle == old(shownTitle) && nativeCalls == old(nativeCalls) && scheduled == old(scheduled)
    {
      env := e;
    }

    /**
     * createPicker: without a box name, report one failure and touch nothing; otherwise
     * tear down the previous picker, and when the containers exist attach the new one
     * as the wrapper's only child, show it and schedule its initialisation.
     */
    method CreatePicker(t: PickerType, diskPath: string)
      requires Valid()
      modifies this, bus
      ensures Valid()
      ensures env == old(env) && nativeCalls == old(nativeCalls) && bus.listeners == old(bus.listeners)
      ensures !HasBox(old(env)) ==>
        && current == old(current) && wrapper == old(wrapper)
        && containerVisible == old(containerVisible) && shownTitle == old(shownTitle) && scheduled == old(scheduled)
        && bus.emitted == old(bus.emitted) + [Emission("pickerResult", EnvMissing)]
        && bus.delivered == old(bus.delivered) + Dispatch(old(bus.listeners), "pickerResult", EnvMissing)
      ensures HasBox(old(env)) ==> bus.emitted == old(bus.emitted) && bus.delivered == old(bus.delivered)
      ensures HasBox(old(env)) && !hasContainers ==>
        && current.None? && wrapper == []
        && containerVisible == old(containerVisible) && shownTitle == old(shownTitle) && scheduled == old(scheduled)
      ensures HasBox(old(env)) && hasContainers ==>
        var p := BuildPicker(t, old(env).value.boxName);
        && current == Some(p) && wrapper == [p]
        && containerVisible && shownTitle == Title(t)
        && scheduled == old(scheduled) + [InitRequest(p, t, diskPath)]
    {
      if env.None? || env.value.boxName == "" {
        bus.Emit("pickerResult", EnvMissing);
        return;
      }
      DestroyCurrentPicker();
      if !hasContainers {
        return;
      }
      var p := BuildPicker(t, env.value.boxName);
      wrapper := wrapper + [p];
      current := Some(p);
      shownTitle := Title(t);
      containerVisible := true;
      scheduled := scheduled + [InitRequest(p, t, diskPath)];
    }

    /**
     * initializePicker: while the native handle is not ready, only reschedule itself;
     * once ready, call init, sendSaveAsData (save-as only) and open, and report success.
     * Reading the box name of a missing environment throws, which is reported as a failure.
     */
    method InitializePicker(req: InitRequest, ready: bool, now: nat)
      requires Valid()
      modifies this, bus
      ensures Valid()
      ensures current == old(current) && wrapper == old(wrapper) && containerVisible == old(containerVisible)
      ensures shownTitle == old(shownTitle) && env == old(env) && bus.listeners == old(bus.listeners)
      ensures !ready ==>
        && scheduled == old(scheduled) + [req] && nativeCalls == old(nativeCalls)
        && bus.emitted == old(bus.emitted) && bus.delivered == old(bus.delivered)
      ensures ready ==> scheduled == old(scheduled)
      ensures ready && env.None? ==>
        && nativeCalls == old(nativeCalls)
        && bus.emitted == old(bus.emitted) + [Emission("pickerResult", InitFailed(req.pickerType))]
        && bus.delivered == old(bus.delivered) + Dispatch(old(bus.listeners), "pickerResult", InitFailed(req.pickerType))
      ensures ready && env.Some? ==>
        var box := env.value.boxName;
        var result := Initialized(req.pickerType, req.diskPath, box, PickerDomain(box));
        && nativeCalls == old(nativeCalls) + InitCalls(req.pickerType, req.diskPath, env.value, None, now)
        && bus.emitted == old(bus.emitted) + [Emission("pickerResult", result)]
        && bus.delivered == old(bus.delivered) + Dispatch(old(bus.listeners), "pickerResult", result)
    {
      if !ready {
        scheduled := scheduled + [req];
        return;
      }
      if env.None? {
        bus.Emit("pickerResult", InitFailed(req.pickerType));
        return;
      }
      var box := env.value.boxName;
      nativeCalls := nativeCalls + InitCalls(req.pickerType, req.diskPath, env.value, None, now);
      bus.Emit("pickerResult", Initialized(req.pickerType, req.diskPath, box, PickerDomain(box)));
    }

    /** destroyCurrentPicker: with a current picker, empty the wrapper and forget it; otherwise nothing. */
    method DestroyCurrentPicker()
      requires Valid()
      modifies this
      ensures Valid()
      ensures current.None? && wrapper == []
      ensures old(current).None? ==> wrapper == old(wrapper)
      ensures containerVisible == old(containerVisible) && shownTitle == old(shownTitle)
      ensures env == old(env) && nativeCalls == old(nativeCalls) && scheduled == old(scheduled)
    {
      if current.Some? {
        if hasContainers {
          wrapper := [];
        }
        current := None;
      }
    }

    /** closePicker: hide the container, tear down, and emit 'pickerClosed' once. */
    method ClosePicker()
      requires Valid()
      modifies this, bus
      ensures Valid()
      ensures !containerVisible && current.None? && wrapper == []
      ensures shownTitle == old(shownTitle) && env == old(env) && nativeCalls == old(nativeCalls) && scheduled == old(scheduled)
      ensures bus.listeners == old(bus.listeners)
      ensures bus.emitted == old(bus.emitted) + [Emission("pickerClosed", NoData)]
      ensures bus.delivered == old(bus.delivered) + Dispatch(old(bus.listeners), "pickerClosed", NoData)
    {
      if hasContainers {
        containerVisible := false;
      }
      DestroyCurrentPicker();
      bus.Emit("pickerClosed", NoData);
    }

    /** The listeners createPicker puts on the element: 'submit' and 'done' report a result, 'close' closes. */
    method HandleNativeEvent(t: PickerType, ev: NativeEvent)
      requires Valid()
      modifies this, bus
      ensures Valid()
      ensures env == old(env) && nativeCalls == old(nativeCalls) && scheduled == old(scheduled) && shownTitle == old(shownTitle)
      ensures bus.listeners == old(bus.listeners)
      ensures ev.Submit? ==>
                && current == old(current) && wrapper == old(wrapper) && containerVisible == old(containerVisible)
                && bus.emitted == old(bus.emitted) + [Emission("pickerResult", Submitted(t, ev.detail))]
                && bus.delivered == old(bus.delivered) + Dispatch(old(bus.listeners), "pickerResult", Submitted(t, ev.detail))
      ensures ev.Done? ==>
                && current == old(current) && wrapper == old(wrapper) && containerVisible == old(containerVisible)
                && bus.emitted == old(bus.emitted) + [Emission("pickerResult", SaveDone(t, ev.detail))]
                && bus.delivered == old(bus.delivered) + Dispatch(old(bus.listeners), "pickerResult", SaveDone(t, ev.detail))
      ensures ev.Close? ==>
                && !containerVisible && current.None? && wrapper == []
                && bus.emitted == old(bus.emitted) + [Emission("pickerClosed", NoData)]
                && bus.delivered == old(bus.delivered) + Dispatch(old(bus.listeners), "pickerClosed", NoData)
    {
      match ev
      case Submit(detail) =>
        bus.Emit("pickerResult", Submitted(t, detail));
      case Done(detail) =>
        bus.Emit("pickerResult", SaveDone(t, detail));
      case Close =>
        ClosePicker();
    }
  }
}
