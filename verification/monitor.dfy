/**
 * `SafeMonitor`: an immutable snapshot of one display (its id plus the
 * metadata read at enumeration time), its infallible accessors, and the
 * decision procedure behind `capture_image`, which re-enumerates the
 * displays and resolves the handle's id afresh on every call.
 *
 * Rust's `unwrap` on a failed query panics; a panic is an `Outcome` of its
 * own, `Panicked`, carrying the reason.
 */
module Monitor {
  import opened Wrappers
  import opened Xcap

  /** The five per-display queries, in the order the handle constructor runs them. */
  datatype Query = IdQuery | WidthQuery | HeightQuery | NameQuery | PrimaryQuery {
    function Rank(): nat {
      match this
      case IdQuery => 0
      case WidthQuery => 1
      case HeightQuery => 2
      case NameQuery => 3
      case PrimaryQuery => 4
    }
  }

  /** Why an `unwrap` panicked. */
  datatype PanicReason =
    | QueryFailed(query: Query, error: NativeError)  // a field query on a display failed
    | ListUnwrapFailed(error: NativeError)           // `Monitor::all()` failed
    | NoDisplays                                     // `first()` of an empty enumeration

  /** A computation that either returns a value or panics. */
  datatype Outcome<+T> = Returned(value: T) | Panicked(reason: PanicReason)

  /** The error, if any, that query `q` reports on display `d`. */
  function QueryError(d: NativeDisplay, q: Query): Option<NativeError> {
    match q
    case IdQuery => d.id.ErrorOption()
    case WidthQuery => d.width.ErrorOption()
    case HeightQuery => d.height.ErrorOption()
    case NameQuery => d.name.ErrorOption()
    case PrimaryQuery => d.isPrimary.ErrorOption()
  }

  /** Every query the handle constructor runs on `d` succeeds. */
  predicate Complete(d: NativeDisplay) {
    d.id.Ok? && d.width.Ok? && d.height.Ok? && d.name.Ok? && d.isPrimary.Ok?
  }

  /** The static attributes of a display, read once at enumeration time. */
  datatype MonitorData = MonitorData(width: u32, height: u32, name: string, isPrimary: bool)

  /** The decoded image a successful capture yields: the raw buffer wrapped as RGBA8. */
  datatype Image = ImageRgba8(raw: RawImage)

  /** The error values `capture_image` returns (as opposed to panics). */
  datatype CaptureError =
    | ListFailed(error: NativeError)     // `Monitor::all()` failed, propagated by `?`
    | MonitorNotFound                    // no display of the fresh enumeration has the id
    | InvalidDimensions                  // the matched display reports width or height 0
    | CaptureFailed(error: NativeError)  // the native capture call failed
  {
    function Message(): string {
      match this
      case ListFailed(e) => e.message
      case MonitorNotFound => "Monitor not found"
      case InvalidDimensions => "Invalid monitor dimensions"
      case CaptureFailed(e) => e.message
    }
  }

  /** `m` is the handle built from display `d`: it carries exactly the values `d` reported. */
  predicate Describes(m: SafeMonitor, d: NativeDisplay) {
    && Complete(d)
    && m.Id() == d.id.value
    && m.Width() == d.width.value
    && m.Height() == d.height.value
    && m.Name() == d.name.value
    && m.IsPrimary() == d.isPrimary.value
  }

  /** A cheap, cloneable handle: an id and a shared, never-updated snapshot. */
  datatype SafeMonitor = SafeMonitor(monitorId: u32, monitorData: MonitorData) {

    /**
     * Build the handle from one native display.  The queries run in the order
     * id, width, height, name, primary flag, and the first one that fails
     * panics; no partial handle is ever produced.
     */
    static function New(d: NativeDisplay): (r: Outcome<SafeMonitor>)
      ensures r.Returned? <==> Complete(d)
      ensures r.Returned? ==> Describes(r.value, d)
      ensures r.Panicked? ==> r.reason.QueryFailed? && QueryError(d, r.reason.query) == Some(r.reason.error)
      ensures r.Panicked? ==> forall q: Query :: q.Rank() < r.reason.query.Rank() ==> QueryError(d, q) == None
    {
      if d.id.Err? then Panicked(QueryFailed(IdQuery, d.id.error))
      else if d.width.Err? then Panicked(QueryFailed(WidthQuery, d.width.error))
      else if d.height.Err? then Panicked(QueryFailed(HeightQuery, d.height.error))
      else if d.name.Err? then Panicked(QueryFailed(NameQuery, d.name.error))
      else if d.isPrimary.Err? then Panicked(QueryFailed(PrimaryQuery, d.isPrimary.error))
      else Returned(SafeMonitor(d.id.value, MonitorData(d.width.value, d.height.value, d.name.value, d.isPrimary.value)))
    }

    /** `#[derive(Clone)]`: a clone shares the snapshot, so it answers every accessor alike. */
    function Clone(): (r: SafeMonitor)
      ensures r.Id() == Id() && r.GetInfo() == GetInfo() && r.Dimensions() == Dimensions()
      ensures r.Name() == Name() && r.IsPrimary() == IsPrimary()
    {
      this
    }

    function Id(): u32 {
      monitorId
    }

    function Dimensions(): (r: (u32, u32))
      ensures r == (Width(), Height())
    {
      (monitorData.width, monitorData.height)
    }

    function Name(): string {
      monitorData.name
    }

    function Width(): u32 {
      monitorData.width
    }

    function Height(): u32 {
      monitorData.height
    }

    function IsPrimary(): bool {
      monitorData.isPrimary
    }

    /** A copy of the whole snapshot, agreeing with every per-field accessor. */
    function GetInfo(): (r: MonitorData)
      ensures r.width == Width() && r.height == Height()
      ensures r.name == Name() && r.isPrimary == IsPrimary()
    {
      monitorData
    }

    /**
     * The value the capture thread computes, from a fresh enumeration
     * `displays`: an enumeration error is returned as an error; otherwise the
     * first display whose id query answers this handle's id decides the result
     * (an id query that fails before such a display is reached panics); with
     * no such display the result is "Monitor not found".
     */
    function CaptureImage(displays: Enumeration): (r: Outcome<Result<Image, CaptureError>>)
      ensures displays.Err? ==> r == Returned(Err(ListFailed(displays.error)))
      ensures displays.Ok? && NoneMatch(displays.value, Id()) ==> r == Returned(Err(MonitorNotFound))
      ensures forall k: nat | displays.Ok? && FirstStop(displays.value, Id(), k) ::
                r == if displays.value[k].id.Err? then Panicked(QueryFailed(IdQuery, displays.value[k].id.error))
                     else CaptureMatched(displays.value[k])
    {
      match displays
      case Err(e) => Returned(Err(ListFailed(e)))
      case Ok(ds) =>
        match FindById(ds, monitorId)
        case Panicked(p) => Panicked(p)
        case Returned(None) => Returned(Err(MonitorNotFound))
        case Returned(Some(k)) => CaptureMatched(ds[k])
    }
  }

  /** The displays before position `k` all answer their id query, with ids other than `id`. */
  predicate Skips(ds: seq<NativeDisplay>, id: u32, k: nat) {
    k <= |ds| && forall j :: 0 <= j < k ==> ds[j].id.Ok? && ds[j].id.value != id
  }

  /** No display of `ds` has id `id`, and every id query succeeds. */
  predicate NoneMatch(ds: seq<NativeDisplay>, id: u32) {
    Skips(ds, id, |ds|)
  }

  /** A search for `id` scanning `ds` in order stops at `k`: its id query fails or answers `id`. */
  predicate FirstStop(ds: seq<NativeDisplay>, id: u32, k: nat) {
    k < |ds| && Skips(ds, id, k) && (ds[k].id.Err? || ds[k].id.value == id)
  }

  /** `k` is the first display of `ds` whose id is `id`, every earlier id query succeeding. */
  predicate FirstMatch(ds: seq<NativeDisplay>, id: u32, k: nat) {
    FirstStop(ds, id, k) && ds[k].id == Ok(id)
  }

  /**
   * `into_iter().find(|m| m.id().unwrap() == id)`, giving the position found.
   * Only the displays actually visited have their id queried.
   */
  function FindById(ds: seq<NativeDisplay>, id: u32): (r: Outcome<Option<nat>>)
    ensures r == Returned(None) <==> NoneMatch(ds, id)
    ensures r.Returned? && r.value.Some? ==> FirstMatch(ds, id, r.value.value)
    ensures forall k: nat | FirstStop(ds, id, k) ::
              r == if ds[k].id.Err? then Panicked(QueryFailed(IdQuery, ds[k].id.error)) else Returned(Some(k))
    decreases |ds|
  {
    if ds == [] then Returned(None)
    else match ds[0].id
      case Err(e) => Panicked(QueryFailed(IdQuery, e))
      case Ok(x) =>
        if x == id then Returned(Some(0))
        else
          match FindById(ds[1..], id)
          case Panicked(p) => Panicked(p)
          case Returned(None) => Returned(None)
          case Returned(Some(k)) => Returned(Some(k + 1))
  }

  /** Both live dimensions of `d` are known and non-zero. */
  predicate ValidDimensions(d: NativeDisplay) {
    d.width.Ok? && d.width.value != 0 && d.height.Ok? && d.height.value != 0
  }

  /**
   * The rest of the capture once display `d` matched: the dimension check
   * (width first; height is queried only when the width is non-zero), then
   * the native capture, whose image is wrapped as RGBA8 and whose error is
   * returned.
   */
  function CaptureMatched(d: NativeDisplay): (r: Outcome<Result<Image, CaptureError>>)
    ensures r == Returned(Err(InvalidDimensions)) <==> d.width == Ok(0) || (d.width.Ok? && d.height == Ok(0))
    ensures r.Returned? && r.value.Ok? <==> ValidDimensions(d) && d.capture.Ok?
    ensures r.Returned? && r.value.Ok? ==> r.value.value == ImageRgba8(d.capture.value)
    ensures ValidDimensions(d) && d.capture.Err? ==> r == Returned(Err(CaptureFailed(d.capture.error)))
    ensures d.width.Err? ==> r == Panicked(QueryFailed(WidthQuery, d.width.error))
    ensures d.width.Ok? && d.width.value != 0 && d.height.Err? ==> r == Panicked(QueryFailed(HeightQuery, d.height.error))
  {
    if d.width.Err? then Panicked(QueryFailed(WidthQuery, d.width.error))
    else if d.width.value == 0 then Returned(Err(InvalidDimensions))
    else if d.height.Err? then Panicked(QueryFailed(HeightQuery, d.height.error))
    else if d.height.value == 0 then Returned(Err(InvalidDimensions))
    else match d.capture
      case Ok(raw) => Returned(Ok(ImageRgba8(raw)))
      case Err(e) => Returned(Err(CaptureFailed(e)))
  }
}
