# File picker test harness — a Dafny model

This project models the logic of a browser test page for the LazyCat platform's native
file picker (`lzc-file-picker`) together with its small Express backend. Everything
the page and server do that can be stated precisely is modelled:

- **Picker sessions** (`picker.dfy` for `FilePickerManager`, `app.dfy` for the page
  controller's near-copy).
  - An environment guard: a box name is required.
  - Any previous picker is destroyed before the new element is built and attached.
    The invariant `Valid()` keeps the wrapper holding at most the current picker.
  - Initialisation polls until the native handle is ready. Readiness is an input,
    and each poll that finds the handle missing re-queues itself.
  - Once ready, the native calls `init`, then `sendSaveAsData` (save-as only), then
    `open` are recorded in order in a call log.
  - Closing hides the container and tears the picker down.
- **Event registries** (`events.dfy`): the `on`/`emit` map shared by the three
  client classes. `emit` is specified by `Dispatch`: exactly the callbacks
  registered for the event, in registration order. Callbacks are opaque
  identifiers, and each invocation is logged.
- **Environment derivation** (`environment.dfy`).
  - The hostname rule `<app>.<box>.<domain…>` gives the box name, the box domain and
    the picker address `https://file.<box>.heiyu.space`.
  - Box names are checked on load.
  - A failed user-info request falls back to the default user.
  - A failed load falls back to the hostname rule.
- **Client selection and storage** (`storage.dfy`, `app.dfy`, `ui.dfy`).
  - The 10 MB / nine-MIME-type validator.
  - The order-preserving split of a batch into valid and invalid files.
  - The selected-files list, its removal, clearing and upload guard, tied to the
    upload button by an invariant.
  - The storage-type → root-path table, with `/uploads` appended for display.
  - The UI manager's results panel. An invariant keeps it equal to the reversed
    history, so it is newest first.
- **Server** (`server.dfy`).
  - Multer's `single('file')` screening: field name, then `fileFilter`, then the
    size limit.
  - The unanchored filter `/jpeg|jpg|png|gif|pdf|txt|doc|docx|zip/`, applied to the
    lower-cased `path.extname` and to the MIME type.
  - The stored name `Date.now() + '-' + originalname` and its round trip.
  - Upload, list, download and delete over the flat uploads directory, modelled as a
    map from name to size.

Two lemmas record how the page and the server disagree as written:

- `Server.ClientAcceptsWhatServerRefuses`: the page's validator accepts `text/plain`,
  `image/webp` and `application/msword`, but the server's filter refuses them whatever
  the file name. `Server.MimeHalfExactly` shows that these three are exactly the accepted
  types in which the server's pattern finds nothing. So a `.doc` file that the browser
  labels `application/msword` is refused too.
- `Server.ClientUploadNeverStored`: the page posts every file under the form field
  `files`, but the server only accepts a single `file`. So any upload the page makes
  is answered with multer's unexpected-field error.

A third pair of members shows that even a stored upload would not be reported as one.
`App.ReplyTo` gives the reply the upload route sends. On success its body is
`{success, message, file}`, with no `files` or `storageInfo` field. The page's success
branch reads `result.files.length` and `result.storageInfo.uploadPath`, so it throws
into its catch. `App.ServerReplyNeverCompletes` states that no server reply satisfies
`App.UploadCompletes`, the condition under which `FinishUpload` reports success.

Where the repository's description promises more than the code does, the model follows
the code. The server has one flat uploads directory. It does no routing by storage
type, has no bulk-clear route and reports no policy errors. Clock readings
(`Date.now()`) and formatted times are parameters.

## Model

| member | source | states |
|---|---|---|
| Events.EventBus.On | app/web/js/file-picker-manager.js:20-25 | the listener map becomes `Register(old, e, cb)`: `cb` appended to `e`'s list (created if absent), other events untouched; nothing is emitted |
| Events.EventBus.Emit | app/web/js/file-picker-manager.js:27-31 | one emission is logged, and the deliveries appended are exactly `Dispatch(listeners, e, d)`: each callback registered for `e`, in registration order, with `d` |
| Events.DispatchAfterRegister | app/web/js/ui-manager.js:14-25 | after `on(e, cb)`, emitting `e` delivers to the earlier callbacks and then to `cb` |
| Events.DispatchOtherEvent | app/web/js/ui-manager.js:14-19 | registering for `e` does not change what any other event delivers |
| Events.DispatchUnregistered | app/web/js/ui-manager.js:21-25 | emitting an event nobody registered for delivers nothing |
| Events.DispatchShape | app/web/js/environment-manager.js:23-28 | one delivery per registered callback, each carrying the emitted event and payload |
| Strings.JoinSplit | app/web/js/environment-manager.js:128-132 | joining the pieces of `split('.')` with '.' gives back the hostname |
| Strings.SplitJoin | app/web/js/environment-manager.js:128-132 | splitting the join of dot-free labels gives back the labels |
| Strings.HasInfixIff | app/backend/server.js:35-37 | the substring search succeeds iff the pattern occurs at some position |
| Strings.AnyInfixIff | app/backend/server.js:35-37 | the alternation test succeeds iff some alternative occurs at some position (an unanchored match) |
| Strings.ParseNatToString | app/backend/server.js:25 | the decimal rendering of a timestamp reads back as the timestamp |
| Environment.DefaultEnv | app/web/js/environment-manager.js:126-143 | an environment exists iff the hostname has at least 3 labels; then the box name is label 1 (dot-free), the hostname is label 0 + '.' + box domain, the box domain is label 1 + '.' + the remaining labels joined, the app domain is the hostname, and the picker address is built from the box name |
| Environment.DefaultEnvOfLabels | app/web/js/environment-manager.js:126-143 | a hostname `<app>.<box>.<domain>` gives box `<box>`, box domain `<box>.<domain>` and picker address `https://file.<box>.heiyu.space` |
| Environment.PickerDomainInjective | app/web/js/environment-manager.js:139 | two boxes with the same picker address are the same box |
| Environment.EnvironmentManager.On | app/web/js/environment-manager.js:16-21 | registers a callback as `Register` does, emitting nothing |
| Environment.EnvironmentManager.LoadLazycatEnvironment | app/web/js/environment-manager.js:60-89 | a successful body installs its environment before the check; the promise fulfils iff the environment is present with a box name that is neither empty nor 'undefined'; any other reply leaves the environment and user untouched and rejects |
| Environment.EnvironmentManager.LoadUserInfo | app/web/js/environment-manager.js:94-121 | never rejects: the body's user on success, the default user `{default, Default User, USER}` on an HTTP error or a failed request; the environment is untouched |
| Environment.EnvironmentManager.UseDefaultEnvironment | app/web/js/environment-manager.js:126-148 | with ≥3 labels installs `DefaultEnv(hostname)` and emits 'environmentLoaded' with it; otherwise leaves the environment unchanged and emits 'environmentError' |
| Environment.EnvironmentManager.LoadEnvironment | app/web/js/environment-manager.js:32-55 | the user is always `UserAfter(reply)`; with listeners that return normally, the hostname fallback runs only when the environment load fails, so a failed user load never changes the environment; in each case exactly one event ('environmentLoaded' with the installed environment, or 'environmentError') is emitted and delivered to that event's callbacks in order |
| Environment.EnvironmentManager.TestConnection | app/web/js/environment-manager.js:182-195 | fails iff there is no environment or its box name is empty; otherwise returns the box's picker address and box name, changing nothing |
| Storage.ValidateFileIff | app/web/app.js:487-509 | a file is valid iff its size is at most 10485760 bytes and its type is one of the nine listed MIME types |
| Storage.PartitionExact | app/web/app.js:429-440 | every file of a batch lands in exactly one of valid/invalid: lengths add up, the multisets recombine, and every valid-list file passes `ValidateFile` while every invalid-list file fails it |
| Storage.PartitionKeepsOrder | app/web/app.js:429-440 | the split keeps the batch order: splitting `fs + gs` gives the lists of `fs` followed by those of `gs` |
| Storage.AllValidKept | app/web/app.js:429-440 | a batch of valid files is kept whole, with no invalid files |
| Storage.AllInvalidDropped | app/web/app.js:429-440 | a batch of invalid files yields no valid file |
| Storage.SplitByValidity | app/web/app.js:429-440 | the `forEach` loop returns exactly `Valids(files)` and `Invalids(files)` |
| Storage.StorageRoot | app/web/app.js:739-747 | var → /lzcapp/var, cache → /lzcapp/cache, temp → /tmp, home → /lzcapp/run/mnt/home/<id> when the user has a non-empty id and /lzcapp/run/mnt/home otherwise; any other value the page's controls produce → /lzcapp/var |
| Storage.UploadPathUnderRoot | app/web/app.js:752-755 | every storage root, for any storage type and user, is a non-empty absolute path (it starts with '/'), and the shown upload path lies under it |
| Storage.HomeRootsSeparate | app/web/app.js:743 | two users with different non-empty ids get different home roots, and neither coincides with the var, cache, temp or shared home root |
| Picker.BuildPicker | app/web/js/file-picker-manager.js:67-82 | the element's id is `picker-<type>`, its `type` is the requested type, its `title` the type's title, its `box-id` the box name, `write-file-content` is present iff the type is 'saveAs', and no other attributes are set than the six listed |
| Picker.BuildPickerDistinguishesTypes | app/web/js/file-picker-manager.js:67-82 | equal elements come from the same type and box name |
| Picker.InitCalls | app/web/js/file-picker-manager.js:133-156 | the native calls are `init(diskPath)` first and `open` last; `sendSaveAsData` is among them iff the type is 'saveAs', then with extension 'json', the disk path in the content and the name `测试文件-<device>-<now>` |
| Picker.FilePickerManager.SetEnvironment | app/web/js/file-picker-manager.js:36-39 | installs the environment, leaving the picker state alone |
| Picker.FilePickerManager.On | app/web/js/file-picker-manager.js:20-25 | registers a callback as `Register` does, emitting nothing |
| Picker.FilePickerManager.CreatePicker | app/web/js/file-picker-manager.js:44-121 | without a box name, one failure 'pickerResult' is emitted and nothing else changes; otherwise no event is emitted and the old picker is destroyed; without containers nothing is attached; with them, the wrapper holds exactly the new element, which is current, the container is shown with the type's title, and one initialisation is scheduled |
| Picker.FilePickerManager.InitializePicker | app/web/js/file-picker-manager.js:126-177 | a handle that is not ready only re-queues the request; a ready one with no environment emits one failure, delivered to the 'pickerResult' callbacks, and makes no native call; otherwise appends `InitCalls` (init, save-as payload, open) and emits and delivers one success with type, path, box id and picker address |
| Picker.FilePickerManager.DestroyCurrentPicker | app/web/js/file-picker-manager.js:182-191 | ends with no current picker and an empty wrapper; with no current picker nothing changes, so a second call is a no-op |
| Picker.FilePickerManager.ClosePicker | app/web/js/file-picker-manager.js:196-203 | the container is hidden, there is no current picker, the wrapper is empty, and 'pickerClosed' is emitted exactly once, whether or not a picker was attached |
| Picker.FilePickerManager.HandleNativeEvent | app/web/js/file-picker-manager.js:85-107 | 'submit' and 'done' each emit one success result carrying the detail and deliver it to the 'pickerResult' callbacks in order, changing no picker state; 'close' closes the picker and delivers 'pickerClosed' |
| App.FilePickerTester.UseDefaultEnvironment | app/web/app.js:140-161 | the same hostname rule as the environment manager: installs `DefaultEnv(hostname)` when it exists, else leaves the environment unchanged; no other field changes |
| App.FilePickerTester.LoadLazycatEnvironment | app/web/app.js:78-107 | keeps a successful body's environment when its box name is valid; any other outcome falls back to the hostname rule (a rejected body's environment stays when the hostname gives none); no other field changes |
| App.FilePickerTester.LoadUserInfo | app/web/app.js:112-135 | the body's user, or the default user on an HTTP error or failed request; no other field changes |
| App.FilePickerTester.HandleFileSelection | app/web/app.js:420-482 | a null or empty batch clears the selection; otherwise invalid files are reported first, and the valid files replace the selection and enable upload only when there is at least one; with none, upload is disabled and the selection stays; only the selection, the upload button and the report log change |
| App.FilePickerTester.RemoveSelectedFile | app/web/app.js:543-567 | an index out of range changes nothing; in range exactly that file is removed, the others keep their order, and upload is disabled (with '已清空文件选择' reported) iff the list became empty; only the selection, the upload button and the report log change |
| App.FilePickerTester.ClearFileSelection | app/web/app.js:572-594 | no file is selected and the upload button is disabled; no other field changes |
| App.FilePickerTester.UploadSelectedFiles | app/web/app.js:599-627 | with nothing selected reports one failure and sends no request; otherwise sends every selected file with the checked radio's storage type, or the current type when none is checked; only the report log may change |
| App.FilePickerTester.FinishUpload | app/web/app.js:629-677 | a reply satisfying `UploadCompletes` (2xx, `success`, and both `files` and `storageInfo` present) reports success and clears the selection; any other reply reports one failure and keeps the selection; no other field changes |
| App.FilePickerTester.UpdateStorageDisplay | app/web/app.js:752-773 | shows `StorageRoot(type, user)` and that root with `/uploads`; no other field changes |
| App.FilePickerTester.ChangeStorageType | app/web/app.js:336-370 | switches the storage type and shows its root and upload path; the radio buttons also put the new root on the status line; no other field changes |
| App.FilePickerTester.CreateFilePicker | app/web/app.js:778-854 | without a box name, reports one failure and changes nothing else; otherwise destroys the old picker, and with containers attaches exactly the new element, shows it with the type's title and schedules its initialisation; every other field is unchanged in each case |
| App.FilePickerTester.AttachPicker | app/web/app.js:842-853 | the new element becomes the wrapper's only child and the current picker, the container is shown with the title, and one initialisation is scheduled; no other field changes |
| App.FilePickerTester.InitializePicker | app/web/app.js:859-913 | re-queues while not ready; with no environment reports a failure without native calls; otherwise calls `init` at the storage root for the current type, sends the save-as payload (carrying the storage type) for 'saveAs', opens, and reports success; only the queue, the call log and the report log change |
| App.FilePickerTester.DestroyCurrentPicker | app/web/app.js:918-927 | no current picker and an empty wrapper afterwards, every other field unchanged; a no-op without a current picker |
| App.FilePickerTester.ClosePicker | app/web/app.js:932-939 | hides the container, tears down and sets the status line to '文件选择器已关闭'; no other field changes |
| App.FilePickerTester.HandleNativeEvent | app/web/app.js:818-834 | 'submit' and 'done' report one success carrying the detail and change nothing else; 'close' closes the picker as `ClosePicker` does |
| Ui.ControlEvent | app/web/js/ui-manager.js:57-210 | each of the eleven bound controls is mapped to the event its handler emits ('createPicker' with the type, 'closePicker', 'filesSelected' with the files, 'uploadRequested', 'refreshFileList', 'clearAllFiles', 'storageTypeChanged' with the value, 'debugEnvironment', 'testConnection'); the clear-selection button and an unconfirmed clear-all emit nothing |
| Ui.UIManager.On | app/web/js/ui-manager.js:14-19 | registers a callback as `Register` does, emitting nothing |
| Ui.UIManager.Trigger | app/web/js/ui-manager.js:57-210 | the clear button clears the selection without emitting; an unconfirmed clear-all does nothing; every other control emits exactly its event once and delivers it to that event's callbacks in order; the results panel and storage labels never change |
| Ui.UIManager.DisplaySelectedFiles | app/web/js/ui-manager.js:258-296 | remembers the files as given; the upload button is enabled iff they are present and non-empty |
| Ui.UIManager.ClearFileSelection | app/web/js/ui-manager.js:301-320 | an empty selection and a disabled upload button |
| Ui.UIManager.RemoveSelectedFile | app/web/js/ui-manager.js:325-334 | throws iff the index is non-negative and the selection is null; out of range changes nothing; in range removes exactly that file, keeps the rest in order, and upload stays enabled iff a file is left |
| Ui.UIManager.UpdateResults | app/web/js/ui-manager.js:369-385 | the new result goes on top, and the panel stays the history reversed |
| Ui.ReversedIndex | app/web/js/ui-manager.js:384 | position i of the panel shows the i-th newest result |
| Ui.UIManager.UpdateStorageDisplay | app/web/js/ui-manager.js:401-415 | shows the given root and that root with `/uploads` |
| Server.Extname | app/backend/server.js:36 | `path.extname`: empty iff the name has no '.', is "..", or its only '.' leads it; otherwise a suffix of the name that starts with its only '.' |
| Server.FileFilterIff | app/backend/server.js:33-44 | a file passes iff some alternative occurs in the lower-cased extension AND some alternative occurs in the MIME type |
| Server.PlainTextAndWebpRefused | app/backend/server.js:35-43 | `text/plain` and `image/webp` are refused whatever the file name |
| Server.ClientAcceptsWhatServerRefuses | app/backend/server.js:35-43 | a plain-text, WebP or `application/msword` file within the size cap is valid for the page but refused by the server, whatever its name |
| Server.NoHeadNoOccurrence | app/backend/server.js:35-37 | a MIME type in which no two adjacent letters begin a pattern contains no pattern, so the MIME half of the filter fails |
| Server.MimeHalfExactly | app/backend/server.js:37 | among the nine types the page accepts, the MIME half of the filter fails exactly for `text/plain`, `image/webp` and `application/msword`; for the other six the extension decides |
| Server.ExtensionCaseIgnored | app/backend/server.js:36 | a name with an upper-case extension is filtered exactly like the same name lower-cased |
| Server.StoredNameRoundTrip | app/backend/server.js:24-27 | the stored name yields back the timestamp (the digits before the first '-') and the original name (everything after it), even when the original name contains '-' |
| Server.Screen | app/backend/server.js:30-45 | once a part has been accepted the directory has been created; a request without file parts ends without a file and without creating it |
| Server.AcceptedIff | app/backend/server.js:75-79 | a file is stored iff the request is one part in field 'file' that passes the filter and is at most 10485760 bytes; no file parts means 400 |
| App.ReplyTo | app/backend/server.js:75-93 | the upload route's reply is 2xx exactly for a stored file, and no reply carries `files` or `storageInfo` |
| App.ServerReplyNeverCompletes | app/web/app.js:638-674 | no reply of the upload route lets the page's success branch finish, so the page always reports '文件上传失败' |
| Server.ClientUploadNeverStored | app/backend/server.js:75 | the parts the page sends (field 'files') are always refused as an unexpected field, before the directory is touched |
| Server.UploadDirectory.EnsureDir | app/backend/server.js:100 | the directory exists afterwards and its files are unchanged |
| Server.UploadDirectory.Upload | app/backend/server.js:75-94 | no file → 400 and no change; a refused request stores nothing; an accepted part is stored under `StoredName(now, original)` with its size, and the reply echoes original name, stored name, size and path; the directory exists afterwards iff it did or multer reached `destination` |
| Server.UploadDirectory.ReadDir | app/backend/server.js:102-112 | one `{name, size}` entry per file with its size, every file listed, no name twice |
| Server.UploadDirectory.List | app/backend/server.js:97-121 | creates the directory if needed, so a missing directory lists as empty; otherwise exactly one entry per file with its size |
| Server.UploadDirectory.Download | app/backend/server.js:124-137 | 404 iff the name is not in the directory; otherwise the file with its size; nothing changes |
| Server.UploadDirectory.Delete | app/backend/server.js:140-157 | 404 iff the name is missing; the directory afterwards is the old one without that name, all other files intact, so a second delete is a 404 |

## Left out

- DOM rendering: `innerHTML` templates, `style.display` beyond the container-visible flag, `classList`, drag-over styling and `confirm()` dialogs. The page's containers either exist or not, which is a constant.
- Network I/O. Every `fetch` is modelled by its outcome, given as an input (`EnvResponse`, `UserResponse`, the `UploadReply` of `FinishUpload`). JSON parsing is not modelled; a reply body is reduced to the fields the page reads.
- The upload progress bar and its timers (`showUploadProgress`, `hideUploadProgress`, `updateUploadProgress`).
- `setTimeout`-based polling. Each scheduled initialisation is one step per call, with readiness as an input; the model does not claim that polling ends.
- Native picker internals: `init`, `sendSaveAsData` and `open` are entries in a call log. An exception thrown inside them is not modelled; the only failure modelled is reading the box name of a missing environment.
- The clock and floating point: `Date.now()` is a parameter. ISO and locale time strings, and the MB figures from `toFixed`, are not modelled. The save-as payload records the clock reading instead of an ISO string.
- Picker type strings other than 'file', 'dir' and 'saveAs'. The source would throw on `this.pickerTypes[type].title` for them; the model's `PickerType` has exactly the three.
- Server.Extname: models `path.extname` only for base names without '/'. Busboy strips directories from uploaded file names.
- Server.FileFilter: lower-cases ASCII letters only. JavaScript's `toLowerCase` also folds other scripts, which cannot make a pattern appear or disappear here, because every pattern is ASCII.
- Server.UploadDirectory: names that `path.join` would resolve outside the directory or onto it ('..', '.', encoded '/') are treated as ordinary keys. Express's handling of route parameters and `res.download` streaming are not modelled, and neither are the `created` and `modified` times of list entries.
- Express wiring: `/api/health`, `/api/info`, static file serving, CORS and the start-up log are not part of this model.
- The page's uploaded-files panel (`refreshUploadedFilesList`, `displayUploadedFilesList`, `deleteFile`, `clearAllUploadedFiles`): fetch plumbing only. The bulk clear calls `DELETE /api/files`, which the server does not define.
- Debug views and getters: `displayEnvironmentInfo`, `debugEnvironment`, `getDebugInfo`, `getEnvironment`, `getCurrentUser`, `updateStatus` timestamps, and the page's own `testConnection`.
- Ui.UIManager.DisplaySelectedFiles: JavaScript stores the caller's array by reference, so a later `splice` also changes the caller's array. The model copies the sequence, so this aliasing is not captured.
- A JavaScript falsy box name (`undefined`, `null`, `''`) is modelled as the empty string, and a missing environment or user as `None`.
- Events.EventBus.Emit: every callback is taken to return normally. In the source a throwing callback stops `forEach`, and the error propagates to `emit`'s caller.
- Environment.EnvironmentManager.LoadEnvironment: a callback of 'environmentLoaded' that throws would land in the outer catch of `loadEnvironment` (app/web/js/environment-manager.js:51-54). That catch runs the hostname fallback even after a successful load. The contract covers only listeners that return normally.
- Server.UploadDirectory: failures of the file system calls themselves (`fs.ensureDir`, `fs.readdir`, `fs.stat`, `fs.remove`), which the routes answer with a 500 from their catch blocks, are not modelled; every method assumes the file system succeeds.
- Storage.StorageRoot: only the storage-type strings the page's controls produce are meant. For a name inherited by every JavaScript object, such as 'toString' or 'constructor', `storageMap[type]` returns that inherited member instead of a path; the model maps it to /lzcapp/var like any other unknown type.
- Server.Screen: multer skips a file part whose file name is empty before any field check, so such a part counts as no file at all. The model screens every part as named; the page always sends files that have names.
