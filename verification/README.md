# Monitor handles over a native display library

This project is a Dafny model of the monitor layer of screenpipe's vision
crate (`screenpipe-vision/src/monitor.rs`). That layer wraps the xcap display
library, whose display handles may not cross threads and whose every query
can fail. It provides:

- `SafeMonitor`, a cheap, cloneable handle. It holds a display id and an
  immutable snapshot of the display's width, height, name and primary flag.
  The snapshot is taken when the handle is built.
- Infallible accessors over that snapshot.
- `capture_image`. It re-enumerates the displays and resolves the handle's id
  again on every call. It rejects a display that reports a zero dimension.
  Otherwise it returns the native capture, wrapped as an RGBA8 image.
- Three directory operations: `list_monitors`, `get_default_monitor` and
  `get_monitor_by_id`.

The native library is modelled as data (module `Xcap`). One enumeration is a
`Result<seq<NativeDisplay>, NativeError>`. Each `NativeDisplay` holds a
`Result` for each of its queries `id`, `width`, `height`, `name` and
`is_primary`, plus the outcome its capture call would have. With the native
layer given as data, every operation is a total function of it. A Rust
`unwrap` on a failed query is a panic. A panic is its own outcome,
`Outcome.Panicked(reason)`, and the reason says what failed: which field query
(`QueryFailed`), the enumeration (`ListUnwrapFailed`), or `first()` of an
empty list (`NoDisplays`).

Modules:

- `Wrappers`: `Option` and `Result`.
- `Xcap`: the native layer as data.
- `Monitor`: the handle, its accessors and the capture decision procedure. The
  search `FindById` models `into_iter().find(|m| m.id().unwrap() == id)`. It
  queries the id of only those displays it visits.
- `Directory`: the three directory operations. `LookupTask` is the value
  computed by the blocking task of `get_monitor_by_id`. `GetMonitorById` turns
  a panic of that task into `None`.
- `MonitorLaws`: lemmas that relate the operations to each other, plus
  concrete enumerations that fix behaviours a caller might assume otherwise.

The model follows the code as written:

- A failed field query while a handle is built panics.
- A panic on the capture thread reaches the caller of `capture_image`.
- `list_monitors` and `get_default_monitor` panic when enumeration fails.
- The default monitor is the first one enumerated, whatever its primary flag.

Two of the `MonitorLaws` lemmas pin down behaviours of the code that a caller
could easily miss:

- `LookupStricterThanCapture`: `get_monitor_by_id` queries every display's id
  before it searches (monitor.rs line 115). So one display whose id query fails
  makes the lookup answer `None`. A capture searches lazily, so the same
  enumeration can still capture the display it matched.
- `DuplicateIdCapturesFirstDisplay`: when two displays share an id, capturing
  through either handle captures the first of them.

## Model

| member | source | states |
|---|---|---|
| `Monitor.SafeMonitor.New` | screenpipe-vision/src/monitor.rs:22-35 | Succeeds exactly when all five queries succeed. The handle then carries exactly the id, width, height, name and primary flag the display reported. Otherwise it panics, naming the first failing query in the order id, width, height, name, primary flag, and that query's error. |
| `Monitor.SafeMonitor.Clone` | screenpipe-vision/src/monitor.rs:7-11 | A clone answers `id`, `dimensions`, `name`, `is_primary` and `get_info` exactly as the original does. |
| `Monitor.SafeMonitor.Dimensions` | screenpipe-vision/src/monitor.rs:66-68 | `dimensions()` is always `(width(), height())`. |
| `Monitor.SafeMonitor.GetInfo` | screenpipe-vision/src/monitor.rs:86-88 | The snapshot copy agrees field by field with `width`, `height`, `name` and `is_primary`. |
| `Monitor.SafeMonitor.CaptureImage` | screenpipe-vision/src/monitor.rs:37-60 | A failed enumeration is returned as an error. If every id query succeeds and none equals the handle's id, the result is "Monitor not found". Otherwise the search stops at the first display whose id query fails (a panic) or answers the handle's id. That display's dimension check and native capture then decide the result. |
| `Monitor.FindById` | screenpipe-vision/src/monitor.rs:43-45 | The search finds nothing exactly when every id query succeeds with another id. A position it returns is the first display with the id. At the first display whose id query fails or matches, it panics with that query's error or returns that position. |
| `Monitor.CaptureMatched` | screenpipe-vision/src/monitor.rs:47-54 | "Invalid monitor dimensions" is returned exactly when the width is 0, or the width is known and the height is 0. Success happens exactly when both dimensions are non-zero and the native capture succeeds, and the image is that capture wrapped as RGBA8. A native failure is returned as an error. A failed width query panics. A failed height query panics only after a non-zero width. |
| `Directory.NewAll` | screenpipe-vision/src/monitor.rs:95-97 | Succeeds exactly when every display is complete. The result then has one handle per display, in order, each the one `SafeMonitor::new` builds from it. Otherwise it panics with the reason of the first incomplete display. |
| `Directory.ListMonitors` | screenpipe-vision/src/monitor.rs:91-101 | A failed enumeration panics. The call returns exactly when enumeration succeeds and every display is complete. It then gives one handle per display, in enumeration order, each describing its display. Otherwise it panics with the first incomplete display's reason. |
| `Directory.GetDefaultMonitor` | screenpipe-vision/src/monitor.rs:103-109 | A failed enumeration panics, and so does an empty one. Otherwise the result is exactly what `SafeMonitor::new` gives for the first display by position: its handle, or the panic of its first failing query. |
| `Directory.CollectIds` | screenpipe-vision/src/monitor.rs:115 | Returns exactly when every id query succeeds, giving every id in order. Otherwise it panics with the error of the first failing id query. |
| `Directory.LookupTask` | screenpipe-vision/src/monitor.rs:112-132 | A failed enumeration gives `None`. Any failing id query panics with the first failure. A search where no display has the id gives `None`. With all ids known, the first display with the id gives its handle, or a panic if building that handle panics. |
| `Directory.GetMonitorById` | screenpipe-vision/src/monitor.rs:111-138 | `None` when enumeration fails, when any id query fails, or when no display has the id. A handle it returns has the requested id. With all ids known, it is `Some` exactly when the first display with the id is complete, and that handle describes the display. |
| `MonitorLaws.FirstStopExists` | screenpipe-vision/src/monitor.rs:43-45 | Unless every id query succeeds with another id, some display stops the search, so the outcomes of the search are exhaustive. |
| `MonitorLaws.FirstIncompleteExists` | screenpipe-vision/src/monitor.rs:93-97 | Unless every display is complete, some display is the first incomplete one, so the panic reason that `ListMonitors` states always applies. |
| `MonitorLaws.FirstIdFailureExists` | screenpipe-vision/src/monitor.rs:115 | Unless every id query succeeds, some display has the first failing id query, so the panic reason that `CollectIds` and `LookupTask` state always applies. |
| `MonitorLaws.FirstStopUnique` | screenpipe-vision/src/monitor.rs:43-45 | At most one position stops the search. |
| `MonitorLaws.CaptureSucceedsOnFirstMatch` | screenpipe-vision/src/monitor.rs:41-54 | A successful capture came from a successful enumeration. Its image is the native capture of the first display with the handle's id, and both of that display's dimensions are non-zero. |
| `MonitorLaws.CaptureNotFoundIffAbsent` | screenpipe-vision/src/monitor.rs:41-45 | "Monitor not found" happens exactly when enumeration succeeds and no display has the handle's id, with every id query succeeding. |
| `MonitorLaws.CaptureInvalidOnlyOnZero` | screenpipe-vision/src/monitor.rs:47-49 | "Invalid monitor dimensions" happens only when the first display with the id reports width 0 or height 0. |
| `MonitorLaws.InvalidDimensionsSkipNativeCapture` | screenpipe-vision/src/monitor.rs:47-52 | When the first match has a zero or unknown dimension, the native capture outcome of that display does not affect the result, so the native capture is never invoked. |
| `MonitorLaws.CaptureIgnoresSnapshot` | screenpipe-vision/src/monitor.rs:38-45 | Two handles with the same id capture alike. A capture uses only the id and never the cached snapshot. |
| `MonitorLaws.DescribesUnique` | screenpipe-vision/src/monitor.rs:22-35 | The display determines the handle built from it. Two enumerations that report the same values therefore yield equal handles. |
| `MonitorLaws.DefaultIsFirstListed` | screenpipe-vision/src/monitor.rs:91-109 | Whenever listing succeeds, the default monitor is the first listed handle, and with no display listed it panics. |
| `MonitorLaws.LookupAgreesWithList` | screenpipe-vision/src/monitor.rs:91-137 | Whenever listing succeeds, lookup by id gives the first listed handle with that id, or `None` when no listed handle has it. |
| `MonitorLaws.LookupThenCapture` | screenpipe-vision/src/monitor.rs:41-126 | Assume every id is known and the first display with the id is complete. The lookup then finds that display's handle. Captured against the same enumeration, the handle resolves to the same display and never panics. It reports invalid dimensions exactly when its own snapshot has a zero width or height. |
| `MonitorLaws.ListedCaptureResolvesToOwnDisplay` | screenpipe-vision/src/monitor.rs:41-54 | A listed handle whose id no earlier display shares resolves, against the same enumeration, to its own display, and the capture does not panic. |
| `MonitorLaws.DefaultIsPositionalNotPrimary` | screenpipe-vision/src/monitor.rs:105 | Take displays with ids 2 then 1, where only 1 is primary. The default monitor is then display 2, which is not primary. |
| `MonitorLaws.DuplicateIdCapturesFirstDisplay` | screenpipe-vision/src/monitor.rs:43-45 | Take two displays sharing id 5. Capturing through the second listed handle captures the first display. |
| `MonitorLaws.LookupStricterThanCapture` | screenpipe-vision/src/monitor.rs:115 | Take display 1, followed by a display whose id query fails. A capture of id 1 returns display 1's image, while `get_monitor_by_id(1)` is `None`. |

The plain accessors `Id`, `Name`, `Width`, `Height` and `IsPrimary`
(monitor.rs lines 62-84) have no contract of their own. The values they return
are stated by `New`'s contract, through the predicate `Describes`.
`CaptureError.Message` carries the two error texts of the source, "Monitor not
found" and "Invalid monitor dimensions".

## Left out

- Thread and task dispatch (`std::thread::spawn`/`join`, `tokio::task::spawn_blocking`/`.await`): each operation is the value its closure computes.
- Re-raising a task's panic in the caller: `capture_image`'s `join().unwrap()` (monitor.rs lines 56-57) panics afresh on the boxed `Any` payload, losing the original text from its message; `list_monitors` and `get_default_monitor` re-panic through `.await.unwrap()` on tokio's `JoinError` (lines 99-100 and 107-108). The model passes the inner panic reason through unchanged.
- Concurrency between operations: each operation receives the enumeration it observes as a parameter, so display-set changes between calls are whatever the caller passes.
- The xcap library itself (`Monitor::all`, its field queries, its capture and its `Clone`): these are abstract inputs.
- Image decoding: `DynamicImage::ImageRgba8` is an opaque wrap (`Image.ImageRgba8`) of the raw buffer.
- `Arc` reference counting: the snapshot is an immutable value, and sharing has no functional effect.
- The `tracing` diagnostics (log lines 117-121, 129 and 135): these are logging only. The id collection that feeds the log is modelled, because its `unwrap` can panic.
- Texts of panics and of native errors beyond the error value carried.
- Repeated native queries: each query of a display gives the same answer every time it is asked during one enumeration. `get_monitor_by_id` asks a display's id up to three times (monitor.rs lines 115, 125 and 23), and `GetMonitorById`'s promise that the handle has the requested id rests on this.
