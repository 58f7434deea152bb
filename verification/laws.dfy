/**
 * Properties that relate the operations to each other: what a capture
 * outcome says about the enumeration it came from, how the three directory
 * operations agree, and concrete enumerations that pin down the behaviours a
 * caller could easily assume otherwise.
 */
module MonitorLaws {
  import opened Wrappers
  import opened Xcap
  import opened Monitor
  import opened Directory

  /** Either no display stops a search for `id`, or one does: the search outcomes are exhaustive. */
  lemma {:induction false} FirstStopExists(ds: seq<NativeDisplay>, id: u32)
    requires !NoneMatch(ds, id)
    ensures exists k: nat :: FirstStop(ds, id, k)
    decreases |ds|
  {
    assert ds != [];
    if ds[0].id.Err? || ds[0].id.value == id {
      assert FirstStop(ds, id, 0);
    } else {
      var rest := ds[1..];
      FirstStopExists(rest, id);
      var k: nat :| FirstStop(rest, id, k);
      assert FirstStop(ds, id, k + 1) by {
        forall j | 0 <= j < k + 1 ensures ds[j].id.Ok? && ds[j].id.value != id {
          if j > 0 { assert ds[j] == rest[j - 1]; }
        }
      }
    }
  }

  /** A failing `.map(SafeMonitor::new).collect()` has a first display that cannot be made into a handle. */
  lemma {:induction false} FirstIncompleteExists(ds: seq<NativeDisplay>)
    requires !AllComplete(ds)
    ensures exists k: nat :: FirstIncomplete(ds, k)
    decreases |ds|
  {
    assert ds != [];
    if !Complete(ds[0]) {
      assert FirstIncomplete(ds, 0);
    } else {
      var rest := ds[1..];
      FirstIncompleteExists(rest);
      var k: nat :| FirstIncomplete(rest, k);
      assert FirstIncomplete(ds, k + 1) by {
        forall j | 0 <= j < k + 1 ensures Complete(ds[j]) {
          if j > 0 { assert ds[j] == rest[j - 1]; }
        }
      }
    }
  }

  /** A failing id collection has a first display whose id query fails. */
  lemma {:induction false} FirstIdFailureExists(ds: seq<NativeDisplay>)
    requires !AllIdsOk(ds)
    ensures exists k: nat :: FirstIdFailure(ds, k)
    decreases |ds|
  {
    assert ds != [];
    if ds[0].id.Err? {
      assert FirstIdFailure(ds, 0);
    } else {
      var rest := ds[1..];
      FirstIdFailureExists(rest);
      var k: nat :| FirstIdFailure(rest, k);
      assert FirstIdFailure(ds, k + 1) by {
        forall j | 0 <= j < k + 1 ensures ds[j].id.Ok? {
          if j > 0 { assert ds[j] == rest[j - 1]; }
        }
      }
    }
  }

  /** A search stops at one position at most. */
  lemma FirstStopUnique(ds: seq<NativeDisplay>, id: u32, k: nat, k': nat)
    requires FirstStop(ds, id, k) && FirstStop(ds, id, k')
    ensures k == k'
  {
  }

  /** A capture succeeds only with the native image of the first display carrying the handle's id, and only when its dimensions are non-zero. */
  lemma CaptureSucceedsOnFirstMatch(m: SafeMonitor, displays: Enumeration)
    requires m.CaptureImage(displays).Returned? && m.CaptureImage(displays).value.Ok?
    ensures displays.Ok?
    ensures exists k: nat :: && FirstMatch(displays.value, m.Id(), k)
                             && ValidDimensions(displays.value[k])
                             && displays.value[k].capture == Ok(m.CaptureImage(displays).value.value.raw)
  {
  }

  /** "Monitor not found" is returned exactly when the fresh enumeration succeeds and holds no display with the handle's id. */
  lemma CaptureNotFoundIffAbsent(m: SafeMonitor, displays: Enumeration)
    ensures m.CaptureImage(displays) == Returned(Err(MonitorNotFound)) <==> displays.Ok? && NoneMatch(displays.value, m.Id())
  {
  }

  /** "Invalid monitor dimensions" is returned only for a first match reporting width 0 or height 0. */
  lemma CaptureInvalidOnlyOnZero(m: SafeMonitor, displays: Enumeration)
    requires m.CaptureImage(displays) == Returned(Err(InvalidDimensions))
    ensures displays.Ok?
    ensures exists k: nat :: && FirstMatch(displays.value, m.Id(), k)
                             && (displays.value[k].width == Ok(0) || displays.value[k].height == Ok(0))
  {
  }

  /**
   * When the matched display reports a zero dimension, the native capture is
   * never invoked: whatever that capture would have produced, the outcome is
   * the same.
   */
  lemma InvalidDimensionsSkipNativeCapture(m: SafeMonitor, ds: seq<NativeDisplay>, k: nat, c: Result<RawImage, NativeError>)
    requires FirstMatch(ds, m.Id(), k) && !ValidDimensions(ds[k])
    ensures m.CaptureImage(Ok(ds[k := ds[k].(capture := c)])) == m.CaptureImage(Ok(ds))
  {
  }

  /** A capture re-resolves the id: it depends on the handle's id only, never on its snapshot. */
  lemma CaptureIgnoresSnapshot(m: SafeMonitor, m': SafeMonitor, displays: Enumeration)
    requires m.Id() == m'.Id()
    ensures m.CaptureImage(displays) == m'.CaptureImage(displays)
  {
  }

  /** A display determines the handle built from it. */
  lemma DescribesUnique(m: SafeMonitor, m': SafeMonitor, d: NativeDisplay)
    requires Describes(m, d) && Describes(m', d)
    ensures m == m'
  {
  }

  /** The default monitor is the first listed one; with no display listed, it panics. */
  lemma DefaultIsFirstListed(displays: Enumeration)
    requires ListMonitors(displays).Returned?
    ensures var ms := ListMonitors(displays).value;
            if ms == [] then GetDefaultMonitor(displays) == Panicked(NoDisplays)
            else GetDefaultMonitor(displays) == Returned(ms[0])
  {
  }

  /**
   * Looking an id up agrees with listing: when every display can be listed,
   * `get_monitor_by_id` returns the first listed handle with that id, and
   * `None` when no listed handle has it.
   */
  lemma LookupAgreesWithList(displays: Enumeration, id: u32)
    requires ListMonitors(displays).Returned?
    ensures var ms := ListMonitors(displays).value;
            && (forall k: nat | k < |ms| && ms[k].Id() == id && (forall j :: 0 <= j < k ==> ms[j].Id() != id) ::
                  GetMonitorById(displays, id) == Some(ms[k]))
            && ((forall j :: 0 <= j < |ms| ==> ms[j].Id() != id) ==> GetMonitorById(displays, id) == None)
  {
  }

  /**
   * When every id is known and the first display with `id` is complete, the
   * lookup finds its handle, and capturing that handle against the same
   * enumeration resolves to the same display: the capture never panics and
   * reports invalid dimensions exactly when the handle's own snapshot has a
   * zero dimension.
   */
  lemma LookupThenCapture(displays: Enumeration, id: u32, k: nat)
    requires displays.Ok? && AllIdsOk(displays.value) && FirstMatch(displays.value, id, k)
    requires Complete(displays.value[k])
    ensures var r := GetMonitorById(displays, id);
            && r.Some?
            && r.value.CaptureImage(displays) == CaptureMatched(displays.value[k])
            && r.value.CaptureImage(displays).Returned?
            && (r.value.CaptureImage(displays) == Returned(Err(InvalidDimensions)) <==> r.value.Width() == 0 || r.value.Height() == 0)
  {
  }

  /**
   * Each listed handle, captured against the same enumeration, resolves to
   * its own display when no earlier display shares its id; a zero-size or
   * failing display then gives the matching error, never a panic.
   */
  lemma ListedCaptureResolvesToOwnDisplay(displays: Enumeration, k: nat)
    requires ListMonitors(displays).Returned? && k < |ListMonitors(displays).value|
    requires forall j :: 0 <= j < k ==> displays.value[j].id != displays.value[k].id
    ensures var ms := ListMonitors(displays).value;
            && ms[k].CaptureImage(displays) == CaptureMatched(displays.value[k])
            && ms[k].CaptureImage(displays).Returned?
  {
  }

  // Concrete enumerations.

  function Display(id: u32, width: u32, height: u32, primary: bool): NativeDisplay {
    NativeDisplay(Ok(id), Ok(width), Ok(height), Ok("display"), Ok(primary), Ok(RawImage(width, height, [])))
  }

  /**
   * Two displays, ids 1 and 2, with display 1 primary: the default monitor is
   * whichever comes first in the enumeration, here display 2, not primary.
   */
  lemma DefaultIsPositionalNotPrimary()
    ensures var displays := Ok([Display(2, 2560, 1440, false), Display(1, 1920, 1080, true)]);
            && GetDefaultMonitor(displays).Returned?
            && GetDefaultMonitor(displays).value.Id() == 2
            && !GetDefaultMonitor(displays).value.IsPrimary()
  {
  }

  /**
   * Two displays sharing id 5: the second listed handle captures the first
   * display, since a capture resolves to the first match in enumeration order.
   */
  lemma DuplicateIdCapturesFirstDisplay()
    ensures var displays := Ok([Display(5, 800, 600, true), Display(5, 1024, 768, false)]);
            && ListMonitors(displays).Returned?
            && |ListMonitors(displays).value| == 2
            && ListMonitors(displays).value[1].CaptureImage(displays) == Returned(Ok(ImageRgba8(RawImage(800, 600, []))))
  {
  }

  /**
   * A display whose id query fails after the match is never visited by a
   * capture's search, but `get_monitor_by_id` queries every id first, panics,
   * and so answers `None` for the same id.
   */
  lemma LookupStricterThanCapture(m: SafeMonitor)
    requires m.Id() == 1
    ensures var broken := NativeDisplay(Err(NativeError("id")), Ok(640), Ok(480), Ok("x"), Ok(false), Ok(RawImage(640, 480, [])));
            var displays: Enumeration := Ok([Display(1, 1920, 1080, true), broken]);
            && m.CaptureImage(displays) == Returned(Ok(ImageRgba8(RawImage(1920, 1080, []))))
            && GetMonitorById(displays, 1) == None
  {
  }
}
