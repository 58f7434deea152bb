/**
 * The three directory operations: list every display as a handle, take the
 * default (first enumerated) display, and look a display up by id.  Each is
 * the value its blocking task computes from one enumeration `displays`; a
 * panic inside the task reaches the caller of `list_monitors` and
 * `get_default_monitor`, and becomes `None` for `get_monitor_by_id`.
 */
module Directory {
  import opened Wrappers
  import opened Xcap
  import opened Monitor

  /** Every display of `ds` answers every query the handle constructor runs. */
  predicate AllComplete(ds: seq<NativeDisplay>) {
    forall j :: 0 <= j < |ds| ==> Complete(ds[j])
  }

  /** `k` is the first display of `ds` that cannot be made into a handle. */
  predicate FirstIncomplete(ds: seq<NativeDisplay>, k: nat) {
    k < |ds| && !Complete(ds[k]) && forall j :: 0 <= j < k ==> Complete(ds[j])
  }

  /** `.map(SafeMonitor::new).collect()`: the displays are turned into handles in order, and the first failure panics. */
  function NewAll(ds: seq<NativeDisplay>): (r: Outcome<seq<SafeMonitor>>)
    ensures r.Returned? <==> AllComplete(ds)
    ensures r.Returned? ==> |r.value| == |ds| && forall j :: 0 <= j < |ds| ==> SafeMonitor.New(ds[j]) == Returned(r.value[j])
    ensures forall k: nat | FirstIncomplete(ds, k) :: r.Panicked? && r.reason == SafeMonitor.New(ds[k]).reason
    decreases |ds|
  {
    if ds == [] then Returned([])
    else match SafeMonitor.New(ds[0])
      case Panicked(p) => Panicked(p)
      case Returned(m) =>
        match NewAll(ds[1..])
        case Panicked(p) => Panicked(p)
        case Returned(ms) => Returned([m] + ms)
  }

  /** `list_monitors`: one handle per display, in enumeration order; any failure panics. */
  function ListMonitors(displays: Enumeration): (r: Outcome<seq<SafeMonitor>>)
    ensures displays.Err? ==> r == Panicked(ListUnwrapFailed(displays.error))
    ensures r.Returned? <==> displays.Ok? && AllComplete(displays.value)
    ensures r.Returned? ==> |r.value| == |displays.value|
    ensures r.Returned? ==> forall j :: 0 <= j < |r.value| ==> Describes(r.value[j], displays.value[j])
    ensures forall k: nat | displays.Ok? && FirstIncomplete(displays.value, k) ::
              r.Panicked? && r.reason == SafeMonitor.New(displays.value[k]).reason
  {
    match displays
    case Err(e) => Panicked(ListUnwrapFailed(e))
    case Ok(ds) => NewAll(ds)
  }

  /** `get_default_monitor`: the handle of the first display by position, whatever its primary flag. */
  function GetDefaultMonitor(displays: Enumeration): (r: Outcome<SafeMonitor>)
    ensures displays.Err? ==> r == Panicked(ListUnwrapFailed(displays.error))
    ensures displays == Ok([]) ==> r == Panicked(NoDisplays)
    ensures r.Returned? <==> displays.Ok? && |displays.value| > 0 && Complete(displays.value[0])
    ensures r.Returned? ==> Describes(r.value, displays.value[0])
    ensures displays.Ok? && |displays.value| > 0 ==> r == SafeMonitor.New(displays.value[0])
  {
    match displays
    case Err(e) => Panicked(ListUnwrapFailed(e))
    case Ok(ds) => if ds == [] then Panicked(NoDisplays) else SafeMonitor.New(ds[0])
  }

  /** Every display of `ds` answers its id query. */
  predicate AllIdsOk(ds: seq<NativeDisplay>) {
    forall j :: 0 <= j < |ds| ==> ds[j].id.Ok?
  }

  /** `k` is the first display of `ds` whose id query fails. */
  predicate FirstIdFailure(ds: seq<NativeDisplay>, k: nat) {
    k < |ds| && ds[k].id.Err? && forall j :: 0 <= j < k ==> ds[j].id.Ok?
  }

  /** `monitors.iter().map(|m| m.id().unwrap()).collect()`: every id, or a panic at the first failing query. */
  function CollectIds(ds: seq<NativeDisplay>): (r: Outcome<seq<u32>>)
    ensures r.Returned? <==> AllIdsOk(ds)
    ensures r.Returned? ==> |r.value| == |ds| && forall j :: 0 <= j < |ds| ==> ds[j].id == Ok(r.value[j])
    ensures forall k: nat | FirstIdFailure(ds, k) :: r == Panicked(QueryFailed(IdQuery, ds[k].id.error))
    decreases |ds|
  {
    if ds == [] then Returned([])
    else match ds[0].id
      case Err(e) => Panicked(QueryFailed(IdQuery, e))
      case Ok(x) =>
        match CollectIds(ds[1..])
        case Panicked(p) => Panicked(p)
        case Returned(ids) => Returned([x] + ids)
  }

  /**
   * The task behind `get_monitor_by_id`: an enumeration error gives `None`;
   * otherwise every id is queried (for the diagnostic log) before the search,
   * and the display found is made into a handle.
   */
  function LookupTask(displays: Enumeration, id: u32): (r: Outcome<Option<SafeMonitor>>)
    ensures displays.Err? ==> r == Returned(None)
    ensures displays.Ok? && !AllIdsOk(displays.value) ==> r.Panicked?
    ensures forall k: nat | displays.Ok? && FirstIdFailure(displays.value, k) ::
              r == Panicked(QueryFailed(IdQuery, displays.value[k].id.error))
    ensures displays.Ok? && NoneMatch(displays.value, id) ==> r == Returned(None)
    ensures forall k: nat | displays.Ok? && AllIdsOk(displays.value) && FirstMatch(displays.value, id, k) ::
              match SafeMonitor.New(displays.value[k])
              case Returned(m) => r == Returned(Some(m))
              case Panicked(p) => r == Panicked(p)
  {
    match displays
    case Err(_) => Returned(None)
    case Ok(ds) =>
      match CollectIds(ds)
      case Panicked(p) => Panicked(p)
      case Returned(_) =>
        match FindById(ds, id)
        case Panicked(p) => Panicked(p)
        case Returned(None) => Returned(None)
        case Returned(Some(k)) =>
          match SafeMonitor.New(ds[k])
          case Panicked(p) => Panicked(p)
          case Returned(m) => Returned(Some(m))
  }

  /**
   * `get_monitor_by_id`: the handle of the first display with id `id`, or
   * `None` when no display has it, when enumeration fails, or when the task
   * panics (any display's id query failing, or a field query of the display
   * found failing).
   */
  function GetMonitorById(displays: Enumeration, id: u32): (r: Option<SafeMonitor>)
    ensures displays.Err? ==> r == None
    ensures displays.Ok? && !AllIdsOk(displays.value) ==> r == None
    ensures displays.Ok? && NoneMatch(displays.value, id) ==> r == None
    ensures r.Some? ==> displays.Ok? && AllIdsOk(displays.value) && r.value.Id() == id
    ensures forall k: nat | displays.Ok? && AllIdsOk(displays.value) && FirstMatch(displays.value, id, k) ::
              (r.Some? <==> Complete(displays.value[k])) && (r.Some? ==> Describes(r.value, displays.value[k]))
  {
    match LookupTask(displays, id)
    case Returned(found) => found
    case Panicked(_) => None
  }
}
