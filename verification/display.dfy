/** Monitor detection of the notification positioner: the monitors the
    system enumerates become an input list, and the three queries the
    positioner makes (`GetPreferredDisplay`, `GetRealResolution`,
    `GetScale`) become functions over it. */
module Display {
  import opened Common
  import opened Windows

  /** What `GetMonitorInfo` fills in: the monitor rectangle, the work area
      and the device name (for example `\\.\DISPLAY1`). */
  datatype MonitorInfo = MonitorInfo(monitor: Rect, workArea: Rect, deviceName: string)

  /** One monitor as the enumeration reports it: its handle, the answer of
      `GetMonitorInfo` (`None` when that call fails) and the horizontal
      effective DPI `GetDpiForMonitor` reports. */
  datatype Monitor = Monitor(handle: Handle, info: Option<MonitorInfo>, dpiX: nat)

  /** The monitors in `EnumDisplayMonitors` order, and the monitor
      `MonitorFromPoint((0, 0), MONITOR_DEFAULTTOPRIMARY)` returns. */
  datatype Screens = Screens(monitors: seq<Monitor>, primary: Monitor)

  /** The selector value that skips the search. */
  const PrimarySelector: string := "primary"

  /** The default DPI, the one at which the scale is 1. */
  const BaseDpi: nat := 96

  /** A monitor is picked by a selector when its information is available
      and its device name equals the selector exactly (ordinal comparison). */
  predicate Matches(m: Monitor, selector: string)
  {
    m.info.Some? && m.info.value.deviceName == selector
  }

  /** `GetAvailableMonitors`: the device names of the monitors whose
      information is available, in enumeration order. */
  function GetAvailableMonitors(monitors: seq<Monitor>): (names: seq<string>)
    ensures |names| <= |monitors|
    ensures forall i :: 0 <= i < |names| ==> exists k :: 0 <= k < |monitors| && Matches(monitors[k], names[i])
  {
    if |monitors| == 0 then []
    else
      var m := monitors[|monitors| - 1];
      var rest := GetAvailableMonitors(monitors[..|monitors| - 1]);
      assert forall k :: 0 <= k < |monitors| - 1 ==> monitors[..|monitors| - 1][k] == monitors[k];
      if m.info.Some? then rest + [m.info.value.deviceName] else rest
  }

  /** Every name listed is the exact device name of some monitor whose
      information is available, and every such name is listed. */
  lemma {:induction false} AvailableMonitorsIff(monitors: seq<Monitor>, name: string)
    ensures name in GetAvailableMonitors(monitors) <==> exists k :: 0 <= k < |monitors| && Matches(monitors[k], name)
  {
    if |monitors| > 0 {
      var init := monitors[..|monitors| - 1];
      AvailableMonitorsIff(init, name);
      if exists k :: 0 <= k < |monitors| && Matches(monitors[k], name) {
        var k :| 0 <= k < |monitors| && Matches(monitors[k], name);
        if k < |monitors| - 1 {
          assert init[k] == monitors[k];
        }
      }
    }
  }

  /** The index of the last monitor a selector matches, if any. */
  function LastMatch(monitors: seq<Monitor>, selector: string): (r: Option<nat>)
    ensures r.Some? ==> r.value < |monitors| && Matches(monitors[r.value], selector)
    ensures r.Some? ==> forall k :: r.value < k < |monitors| ==> !Matches(monitors[k], selector)
    ensures r.None? ==> forall k :: 0 <= k < |monitors| ==> !Matches(monitors[k], selector)
  {
    if |monitors| == 0 then None
    else if Matches(monitors[|monitors| - 1], selector) then Some(|monitors| - 1)
    else
      var r := LastMatch(monitors[..|monitors| - 1], selector);
      assert forall k :: 0 <= k < |monitors| - 1 ==> monitors[..|monitors| - 1][k] == monitors[k];
      r
  }

  /** `GetPreferredDisplay`: the selector "primary" returns the primary
      monitor without searching; any other selector returns the last
      monitor whose device name equals it, and falls back to the primary
      monitor when none does (or when that monitor's handle is null). */
  function GetPreferredDisplay(s: Screens, selector: string): (m: Monitor)
    ensures selector == PrimarySelector ==> m == s.primary
    ensures m == s.primary || m in s.monitors
  {
    if selector == PrimarySelector then s.primary
    else
      match LastMatch(s.monitors, selector)
      case None => s.primary
      case Some(j) => if s.monitors[j].handle != NullHandle then s.monitors[j] else s.primary
  }

  /** The selection rule in declarative terms: with no monitor of that name
      the primary monitor is used; otherwise the result is the primary
      monitor or the last monitor of that name, and the latter exactly when
      its handle is not null. */
  lemma PreferredDisplaySpec(s: Screens, selector: string)
    requires selector != PrimarySelector
    ensures (forall k :: 0 <= k < |s.monitors| ==> !Matches(s.monitors[k], selector)) ==>
              GetPreferredDisplay(s, selector) == s.primary
    ensures forall j :: 0 <= j < |s.monitors| && Matches(s.monitors[j], selector) &&
                        (forall k :: j < k < |s.monitors| ==> !Matches(s.monitors[k], selector)) ==>
              GetPreferredDisplay(s, selector) == (if s.monitors[j].handle != NullHandle then s.monitors[j] else s.primary)
  {
    var r := LastMatch(s.monitors, selector);
    forall j | 0 <= j < |s.monitors| && Matches(s.monitors[j], selector) &&
               (forall k :: j < k < |s.monitors| ==> !Matches(s.monitors[k], selector))
      ensures r == Some(j)
    {
    }
  }

  /** The search as the source runs it: walk the monitors in enumeration
      order, overwriting the remembered handle on every match, then fall back
      to the primary monitor when nothing non-null was remembered. */
  method SelectPreferredDisplay(s: Screens, selector: string) returns (m: Monitor)
    ensures m == GetPreferredDisplay(s, selector)
  {
    var returned: Option<Monitor> := None;
    if selector != PrimarySelector {
      var i := 0;
      while i < |s.monitors|
        invariant 0 <= i <= |s.monitors|
        invariant returned.None? <==> LastMatch(s.monitors[..i], selector).None?
        invariant returned.Some? ==> returned.value == s.monitors[LastMatch(s.monitors[..i], selector).value]
      {
        assert s.monitors[..i + 1][..i] == s.monitors[..i];
        if Matches(s.monitors[i], selector) {
          returned := Some(s.monitors[i]);
        }
        i := i + 1;
      }
      assert s.monitors[..i] == s.monitors;
    }
    m := if returned.Some? && returned.value.handle != NullHandle then returned.value else s.primary;
  }

  /** A name offered by `GetAvailableMonitors` selects a monitor carrying
      that name, unless the name is "primary" or its monitor has a null
      handle. */
  lemma AvailableNameSelects(s: Screens, name: string)
    requires name in GetAvailableMonitors(s.monitors)
    requires name != PrimarySelector
    ensures Matches(GetPreferredDisplay(s, name), name) || GetPreferredDisplay(s, name) == s.primary
    ensures LastMatch(s.monitors, name).Some?
    ensures s.monitors[LastMatch(s.monitors, name).value].handle != NullHandle ==>
            GetPreferredDisplay(s, name) == s.monitors[LastMatch(s.monitors, name).value]
  {
    AvailableMonitorsIff(s.monitors, name);
    var k :| 0 <= k < |s.monitors| && Matches(s.monitors[k], name);
  }

  /** `System.Drawing.Rectangle`: an origin and a size. */
  datatype Rectangle = Rectangle(x: int, y: int, width: int, height: int)

  /** `GetRealResolution` of a monitor: the size of its monitor rectangle,
      placed at the origin. When `GetMonitorInfo` fails the structure keeps
      its zero-initialised rectangle, so the size is 0 x 0. */
  function Resolution(m: Monitor): (r: Rectangle)
    ensures r.x == 0 && r.y == 0
    ensures m.info.Some? ==> r.x + r.width == m.info.value.monitor.right - m.info.value.monitor.left
    ensures m.info.Some? ==> r.y + r.height == m.info.value.monitor.bottom - m.info.value.monitor.top
    ensures m.info.None? ==> r.width == 0 && r.height == 0
  {
    var rect := if m.info.Some? then m.info.value.monitor else Rect(0, 0, 0, 0);
    Rectangle(0, 0, rect.Width(), rect.Height())
  }

  /** `GetRealResolution`: the resolution of the preferred display. */
  function GetRealResolution(s: Screens, selector: string): (r: Rectangle)
    ensures r == Resolution(GetPreferredDisplay(s, selector))
    ensures r.x == 0 && r.y == 0
  {
    Resolution(GetPreferredDisplay(s, selector))
  }

  /** Where a monitor sits on the virtual desktop does not matter: moving
      its rectangle leaves the resolution, origin included, unchanged. */
  lemma ResolutionIgnoresPlacement(m: Monitor, dx: int, dy: int)
    requires m.info.Some?
    ensures var r := m.info.value.monitor;
            var moved := Rect(r.left + dx, r.top + dy, r.right + dx, r.bottom + dy);
            Resolution(m.(info := Some(m.info.value.(monitor := moved)))) == Resolution(m)
  {
  }

  /** The effective DPI of the preferred display, what `GetScale` divides by
      the base DPI of 96. */
  function GetDpi(s: Screens, selector: string): nat
  {
    GetPreferredDisplay(s, selector).dpiX
  }

  /** `(int)(extent * GetScale())`: an extent in pixels at 96 DPI scaled to
      `dpi`. */
  function ScaledExtent(extent: nat, dpi: nat): nat
  {
    extent * dpi / BaseDpi
  }

  /** The scaled extent is the exact value `extent * dpi / 96` truncated:
      the exact value lies in `[r, r + 1)`. */
  lemma ScaledExtentTruncates(extent: nat, dpi: nat)
    ensures var r := ScaledExtent(extent, dpi);
            r * BaseDpi <= extent * dpi < (r + 1) * BaseDpi
  {
  }

  /** Scaling is exact at 96 DPI, never shrinks above it and never grows
      below it. */
  lemma ScaledExtentMonotone(extent: nat, dpi: nat)
    ensures dpi == BaseDpi ==> ScaledExtent(extent, dpi) == extent
    ensures dpi >= BaseDpi ==> ScaledExtent(extent, dpi) >= extent
    ensures dpi <= BaseDpi ==> ScaledExtent(extent, dpi) <= extent
  {
    var r := ScaledExtent(extent, dpi);
    ScaledExtentTruncates(extent, dpi);
    if dpi >= BaseDpi {
      assert extent * dpi >= extent * BaseDpi;
      assert (r + 1) * BaseDpi > extent * BaseDpi;
    }
    if dpi <= BaseDpi {
      assert extent * dpi <= extent * BaseDpi;
      assert r * BaseDpi <= extent * BaseDpi;
    }
  }
}
