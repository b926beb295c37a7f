/** The notification positioner: it computes one anchor point on the
    preferred monitor from the configured anchor, the monitor size and the
    DPI-scaled 396 x 152 notification footprint, finds the system's
    notification windows, and moves each of them to that point. */
module Positioner {
  import opened Common
  import opened Windows
  import opened Display

  // ---------------------------------------------------------------------
  // Settings and placement
  // ---------------------------------------------------------------------

  /** The integers a `NotificationPosition` variable can hold besides the
      five named members, which are 0 to 4. */
  type UndeclaredCode = c: int | c < 0 || 4 < c witness 5

  /** `NotificationPosition`. A C# enum variable may hold any integer, so
      `Undeclared` stands for a value outside the five named members. */
  datatype Anchor = TopLeft | TopRight | BottomLeft | BottomRight | Custom | Undeclared(code: UndeclaredCode)

  /** The positioner's public properties. The custom percentages are whole
      percentages of the monitor size. */
  datatype Settings = Settings(position: Anchor, customPercentX: int, customPercentY: int, preferredMonitor: string)

  /** A freshly constructed positioner: top-right corner, custom offsets 0,
      the primary monitor. */
  function DefaultSettings(): (s: Settings)
    ensures s.position == TopRight
    ensures s.customPercentX == 0 && s.customPercentY == 0
    ensures s.preferredMonitor == PrimarySelector
  {
    Settings(TopRight, 0, 0, PrimarySelector)
  }

  /** The notification footprint at 96 DPI. */
  const NotificationWidth: nat := 396
  const NotificationHeight: nat := 152

  /** A screen point. */
  datatype Point = Point(x: int, y: int)

  /** `(int)(a / 100f)`: a whole number of hundredths converted to an
      integer the way C# converts a float, by truncation toward zero (Dafny's
      `/` rounds toward negative infinity instead). */
  function TruncHundredths(a: int): int
  {
    if a >= 0 then a / 100 else -((-a) / 100)
  }

  /** Truncation toward zero: the quotient never has larger magnitude than
      the exact one, and misses it by less than one. */
  lemma TruncHundredthsBounds(a: int)
    ensures var q := TruncHundredths(a);
            && (a >= 0 ==> q >= 0 && q * 100 <= a < (q + 1) * 100)
            && (a < 0 ==> q <= 0 && (q - 1) * 100 < a <= q * 100)
  {
  }

  /** The anchor formula over a resolution `width x height` and a scaled
      footprint `sw x sh`: corners put the footprint flush with their two
      edges, `Custom` takes a percentage of the resolution, and any other
      value falls back to the top-right corner. */
  function Place(anchor: Anchor, percentX: int, percentY: int, width: int, height: int, sw: int, sh: int): (p: Point)
    ensures anchor.TopLeft? ==> p == Point(0, 0)
    ensures anchor.TopLeft? || anchor.BottomLeft? ==> p.x == 0
    ensures anchor.TopRight? || anchor.BottomRight? || anchor.Undeclared? ==> p.x + sw == width
    ensures anchor.TopLeft? || anchor.TopRight? || anchor.Undeclared? ==> p.y == 0
    ensures anchor.BottomLeft? || anchor.BottomRight? ==> p.y + sh == height
    ensures anchor.Custom? ==> p.x == TruncHundredths(percentX * width) && p.y == TruncHundredths(percentY * height)
  {
    match anchor
    case TopLeft => Point(0, 0)
    case TopRight => Point(width - sw, 0)
    case BottomLeft => Point(0, height - sh)
    case BottomRight => Point(width - sw, height - sh)
    case Custom => Point(TruncHundredths(percentX * width), TruncHundredths(percentY * height))
    case Undeclared(_) => Point(width - sw, 0)
  }

  /** `CalculateNotificationPosition`: the anchor formula on the resolution
      and DPI of the preferred monitor, with the footprint scaled by
      `dpi / 96` and truncated. */
  function CalculateNotificationPosition(s: Settings, screens: Screens): (p: Point)
    ensures s.position.TopLeft? ==> p == Point(0, 0)
  {
    var r := GetRealResolution(screens, s.preferredMonitor);
    var dpi := GetDpi(screens, s.preferredMonitor);
    Place(s.position, s.customPercentX, s.customPercentY, r.width, r.height,
          ScaledExtent(NotificationWidth, dpi), ScaledExtent(NotificationHeight, dpi))
  }

  /** The computed point for each anchor, in terms of the preferred
      monitor's resolution `W x H` and the scaled footprint `sw x sh`:
      (0, 0), (W - sw, 0), (0, H - sh), (W - sw, H - sh), the truncated
      percentages of `W` and `H`, and (W - sw, 0) for any other value. */
  lemma CalculateNotificationPositionSpec(s: Settings, screens: Screens)
    ensures var p := CalculateNotificationPosition(s, screens);
            var r := GetRealResolution(screens, s.preferredMonitor);
            var dpi := GetDpi(screens, s.preferredMonitor);
            var sw := ScaledExtent(NotificationWidth, dpi);
            var sh := ScaledExtent(NotificationHeight, dpi);
            && (s.position.TopRight? || s.position.Undeclared? ==> p == Point(r.width - sw, 0))
            && (s.position.BottomLeft? ==> p == Point(0, r.height - sh))
            && (s.position.BottomRight? ==> p == Point(r.width - sw, r.height - sh))
            && (s.position.Custom? ==>
                  p == Point(TruncHundredths(s.customPercentX * r.width), TruncHundredths(s.customPercentY * r.height)))
  {
  }

  /** `GetScale` is the preferred display's DPI over 96, and the footprint
      is 396 x 152 times that scale, truncated: unchanged at 96 DPI, and
      otherwise the exact scaled size rounded down. */
  lemma ScaledFootprint(screens: Screens, selector: string)
    ensures var dpi := GetPreferredDisplay(screens, selector).dpiX;
            var sw := ScaledExtent(NotificationWidth, GetDpi(screens, selector));
            var sh := ScaledExtent(NotificationHeight, GetDpi(screens, selector));
            && sw * BaseDpi <= NotificationWidth * dpi < (sw + 1) * BaseDpi
            && sh * BaseDpi <= NotificationHeight * dpi < (sh + 1) * BaseDpi
            && (dpi == BaseDpi ==> sw == NotificationWidth && sh == NotificationHeight)
  {
    var dpi := GetDpi(screens, selector);
    ScaledExtentTruncates(NotificationWidth, dpi);
    ScaledExtentTruncates(NotificationHeight, dpi);
    ScaledExtentMonotone(NotificationWidth, dpi);
    ScaledExtentMonotone(NotificationHeight, dpi);
  }

  /** Any value outside the five named anchors behaves as the top-right
      corner, which is also the default. */
  lemma UndeclaredIsTopRight(s: Settings, screens: Screens, code: UndeclaredCode)
    ensures CalculateNotificationPosition(s.(position := Undeclared(code)), screens)
         == CalculateNotificationPosition(s.(position := TopRight), screens)
    ensures DefaultSettings().position == TopRight
  {
  }

  /** The anchor ignores the custom percentages unless it is `Custom`. */
  lemma CornersIgnorePercentages(anchor: Anchor, px: int, py: int, qx: int, qy: int, width: int, height: int, sw: int, sh: int)
    requires !anchor.Custom?
    ensures Place(anchor, px, py, width, height, sw, sh) == Place(anchor, qx, qy, width, height, sw, sh)
  {
  }

  /** When the footprint fits on the monitor, every corner anchor keeps the
      whole footprint on it. */
  lemma CornerFootprintInside(anchor: Anchor, px: int, py: int, width: int, height: int, sw: int, sh: int)
    requires !anchor.Custom?
    requires 0 <= sw <= width && 0 <= sh <= height
    ensures var p := Place(anchor, px, py, width, height, sw, sh);
            0 <= p.x && p.x + sw <= width && 0 <= p.y && p.y + sh <= height
  {
  }

  /** A percentage between 0 and 100 of an extent lies within it, and 0 and
      100 give its two ends. */
  lemma PercentWithin(percent: int, extent: nat)
    requires 0 <= percent <= 100
    ensures var v := TruncHundredths(percent * extent);
            && 0 <= v <= extent
            && (percent == 0 ==> v == 0) && (percent == 100 ==> v == extent)
  {
    var a := percent * extent;
    assert 0 <= a <= 100 * extent by {
      assert (100 - percent) * extent >= 0;
    }
    if percent == 100 {
      assert a == 100 * extent;
    }
    TruncHundredthsBounds(a);
  }

  /** A custom percentage between 0 and 100 keeps the anchor point on the
      monitor, and 0 and 100 reach its two edges. */
  lemma CustomPointInside(px: int, py: int, width: nat, height: nat, sw: int, sh: int)
    requires 0 <= px <= 100 && 0 <= py <= 100
    ensures var p := Place(Custom, px, py, width, height, sw, sh);
            && 0 <= p.x <= width && 0 <= p.y <= height
            && (px == 0 ==> p.x == 0) && (px == 100 ==> p.x == width)
            && (py == 0 ==> p.y == 0) && (py == 100 ==> p.y == height)
  {
    PercentWithin(px, width);
    PercentWithin(py, height);
  }

  /** A single 1920 x 1080 monitor. */
  function FullHd(dpi: nat): (s: Screens)
    ensures |s.monitors| == 1 && s.primary == s.monitors[0]
  {
    var m := Monitor(1, Some(MonitorInfo(Rect(0, 0, 1920, 1080), Rect(0, 0, 1920, 1040), "\\\\.\\DISPLAY1")), dpi);
    Screens([m], m)
  }

  /** The primary monitor of `FullHd` reports 1920 x 1080 and the given DPI. */
  lemma FullHdResolution(dpi: nat)
    ensures GetRealResolution(FullHd(dpi), PrimarySelector) == Rectangle(0, 0, 1920, 1080)
    ensures GetDpi(FullHd(dpi), PrimarySelector) == dpi
  {
  }

  /** The top-right corner of a 1920 x 1080 monitor at scale 1 is (1524, 0). */
  lemma TopRightExample()
    ensures CalculateNotificationPosition(DefaultSettings(), FullHd(96)) == Point(1524, 0)
  {
    FullHdResolution(96);
  }

  /** At 144 DPI (scale 1.5) the footprint is 594 x 228, so the bottom-right
      corner of a W x H monitor is (W - 594, H - 228). */
  lemma BottomRightAt144(s: Settings, screens: Screens)
    requires s.position == BottomRight
    requires GetDpi(screens, s.preferredMonitor) == 144
    ensures var r := GetRealResolution(screens, s.preferredMonitor);
            CalculateNotificationPosition(s, screens) == Point(r.width - 594, r.height - 228)
  {
    assert ScaledExtent(NotificationWidth, 144) == 594;
    assert ScaledExtent(NotificationHeight, 144) == 228;
  }

  /** Custom 50 % / 50 % on a 1920 x 1080 monitor is its centre (960, 540). */
  lemma CustomCentreExample()
    ensures CalculateNotificationPosition(Settings(Custom, 50, 50, PrimarySelector), FullHd(96)) == Point(960, 540)
  {
    FullHdResolution(96);
    HalfOfFullHd();
  }

  /** Half of each side of a 1920 x 1080 monitor. */
  lemma HalfOfFullHd()
    ensures TruncHundredths(50 * 1920) == 960 && TruncHundredths(50 * 1080) == 540
  {
  }

  // ---------------------------------------------------------------------
  // FindNotificationWindows
  // ---------------------------------------------------------------------

  /** The window class of modern notification windows. */
  const CoreWindowClass: string := "Windows.UI.Core.CoreWindow"

  /** The localized titles looked up with `FindWindow`, in the source's order. */
  const NotificationTitles: seq<string> := ["New notification", "Nueva notificación", "Nouvelle notification"]

  /** What `GetWindowRect` leaves in the `System.Drawing.Rectangle` the
      source passes: the native call writes the four edges (left, top,
      right, bottom) into the four fields in memory order, which are
      (X, Y, Width, Height). */
  function MarshalledRectangle(r: Rect): (rect: Rectangle)
    ensures rect.width == r.right && rect.height == r.bottom
  {
    Rectangle(r.left, r.top, r.right, r.bottom)
  }

  /** The size test as written: `Width` and `Height` of the marshalled
      rectangle against 396 and 152, which compares the window's right and
      bottom edges rather than its size. */
  predicate SizeTestAsWritten(w: WindowFacts)
  {
    var rect := MarshalledRectangle(w.rect);
    rect.width == NotificationWidth as int && rect.height == NotificationHeight as int
  }

  /** The size test as intended: the window measures 396 x 152. */
  predicate NotificationSized(w: WindowFacts)
  {
    w.rect.Width() == NotificationWidth as int && w.rect.Height() == NotificationHeight as int
  }

  /** The as-written test misses a 396 x 152 notification placed anywhere but
      the top-left corner of the virtual desktop, and accepts a 96-pixel-wide
      window whose right edge happens to be at 396. */
  lemma SizeTestCounterexample()
    ensures var placed := WindowFacts(7, CoreWindowClass, 0, "", 1, Rect(1524, 0, 1920, 152), true);
            NotificationSized(placed) && !SizeTestAsWritten(placed)
    ensures var narrow := WindowFacts(8, CoreWindowClass, 0, "", 1, Rect(300, 0, 396, 152), true);
            !NotificationSized(narrow) && SizeTestAsWritten(narrow)
  {
  }

  /** The two tests agree exactly on windows whose top-left corner is at the
      origin. */
  lemma SizeTestsAgreeAtOrigin(w: WindowFacts)
    requires w.rect.left == 0 && w.rect.top == 0
    ensures SizeTestAsWritten(w) <==> NotificationSized(w)
  {
  }

  /** Which size test the class scan applies: the one the source runs, or
      the one it evidently means. */
  datatype SizeTest = AsWritten | Intended

  predicate Sized(w: WindowFacts, test: SizeTest)
  {
    match test
    case AsWritten => SizeTestAsWritten(w)
    case Intended => NotificationSized(w)
  }

  /** A window found by the class scan: exactly the class name (ordinal,
      case-sensitive) and the notification size under the given test. */
  predicate ClassScanHit(w: WindowFacts, test: SizeTest)
  {
    w.className == CoreWindowClass && Sized(w, test)
  }

  /** The class scan over one enumeration, in enumeration order. */
  function ClassScan(facts: seq<WindowFacts>, test: SizeTest): (found: seq<Handle>)
    ensures |found| <= |facts|
  {
    if |facts| == 0 then []
    else
      var w := facts[|facts| - 1];
      ClassScan(facts[..|facts| - 1], test) + if ClassScanHit(w, test) then [w.handle] else []
  }

  /** `FindWindow(CoreWindowClass, title)` for each title: the handle the
      system answers, with absent titles answering the null handle. */
  function FindWindow(lookup: map<string, Handle>, title: string): Handle
  {
    if title in lookup then lookup[title] else NullHandle
  }

  /** The title lookups merged after the class scan: a non-null handle is
      appended unless already present. */
  function MergeTitleHits(found: seq<Handle>, lookup: map<string, Handle>, titles: seq<string>): (r: seq<Handle>)
    ensures found <= r
    ensures |r| <= |found| + |titles|
    decreases |titles|
  {
    if |titles| == 0 then found
    else
      var h := FindWindow(lookup, titles[0]);
      var next := if h != NullHandle && h !in found then found + [h] else found;
      MergeTitleHits(next, lookup, titles[1..])
  }

  /** The merge adds exactly the non-null answers of the lookups and never
      lists a handle twice. */
  lemma {:induction false} MergeTitleHitsSpec(found: seq<Handle>, lookup: map<string, Handle>, titles: seq<string>)
    ensures Elements(MergeTitleHits(found, lookup, titles)) ==
            Elements(found) + (set t | t in titles && FindWindow(lookup, t) != NullHandle :: FindWindow(lookup, t))
    ensures NoDup(found) ==> NoDup(MergeTitleHits(found, lookup, titles))
    decreases |titles|
  {
    if |titles| > 0 {
      var h := FindWindow(lookup, titles[0]);
      var next := if h != NullHandle && h !in found then found + [h] else found;
      MergeTitleHitsSpec(next, lookup, titles[1..]);
      assert h != NullHandle ==> Elements(next) == Elements(found) + {h};
      assert h == NullHandle ==> Elements(next) == Elements(found);
      assert forall t :: t in titles <==> t == titles[0] || t in titles[1..];
      if NoDup(found) && h != NullHandle && h !in found {
        NoDupAppend(found, h);
      }
    }
  }

  /** `FindNotificationWindows` with the intended size test: the class scan,
      then the title lookups. */
  function FindNotificationWindows(facts: seq<WindowFacts>, lookup: map<string, Handle>): (found: seq<Handle>)
    ensures ClassScan(facts, Intended) <= found
  {
    MergeTitleHits(ClassScan(facts, Intended), lookup, NotificationTitles)
  }

  /** `FindNotificationWindows` as the source runs it, with the size test
      applied to the marshalled rectangle. */
  function FindNotificationWindowsAsWritten(facts: seq<WindowFacts>, lookup: map<string, Handle>): (found: seq<Handle>)
    ensures ClassScan(facts, AsWritten) <= found
  {
    MergeTitleHits(ClassScan(facts, AsWritten), lookup, NotificationTitles)
  }

  /** On an enumeration of a placed 396 x 152 notification and a narrow
      window whose right edge is at 396, with no title answering, the source
      finds only the narrow window and the intended search only the
      notification. */
  lemma ScanCounterexample()
    ensures var placed := WindowFacts(7, CoreWindowClass, 0, "", 1, Rect(1524, 0, 1920, 152), true);
            var narrow := WindowFacts(8, CoreWindowClass, 0, "", 1, Rect(300, 0, 396, 152), true);
            && FindNotificationWindowsAsWritten([placed, narrow], map[]) == [8]
            && FindNotificationWindows([placed, narrow], map[]) == [7]
  {
    var placed := WindowFacts(7, CoreWindowClass, 0, "", 1, Rect(1524, 0, 1920, 152), true);
    var narrow := WindowFacts(8, CoreWindowClass, 0, "", 1, Rect(300, 0, 396, 152), true);
    SizeTestCounterexample();
    assert [placed, narrow][..1] == [placed];
    assert ClassScan([placed, narrow], AsWritten) == [8];
    assert ClassScan([placed, narrow], Intended) == [7];
  }

  /** The class scan finds exactly the enumerated windows of the exact class
      that pass the size test. */
  lemma {:induction false} ClassScanIff(facts: seq<WindowFacts>, h: Handle, test: SizeTest)
    ensures h in ClassScan(facts, test) <==> exists k :: 0 <= k < |facts| && ClassScanHit(facts[k], test) && facts[k].handle == h
  {
    if |facts| > 0 {
      var init := facts[..|facts| - 1];
      ClassScanIff(init, h, test);
      if exists k :: 0 <= k < |facts| && ClassScanHit(facts[k], test) && facts[k].handle == h {
        var k :| 0 <= k < |facts| && ClassScanHit(facts[k], test) && facts[k].handle == h;
        if k < |facts| - 1 {
          assert init[k] == facts[k];
        }
      }
    }
  }

  /** When every window is enumerated once, the class scan lists no handle
      twice, whichever size test it applies. */
  lemma {:induction false} ClassScanNoDup(facts: seq<WindowFacts>, test: SizeTest)
    requires DistinctHandles(facts)
    ensures NoDup(ClassScan(facts, test))
  {
    if |facts| > 0 {
      var init := facts[..|facts| - 1];
      var w := facts[|facts| - 1];
      assert Handles(facts) == Handles(init) + [w.handle];
      assert NoDup(Handles(init)) && w.handle !in Handles(init) by {
        forall i, j | 0 <= i < j < |Handles(init)|
          ensures Handles(init)[i] != Handles(init)[j]
        {
          assert Handles(facts)[i] == Handles(init)[i] && Handles(facts)[j] == Handles(init)[j];
        }
        forall i | 0 <= i < |Handles(init)|
          ensures Handles(init)[i] != w.handle
        {
          assert Handles(facts)[i] == Handles(init)[i];
        }
      }
      ClassScanNoDup(init, test);
      if ClassScanHit(w, test) {
        forall k | 0 <= k < |init|
          ensures init[k].handle != w.handle
        {
          assert Handles(init)[k] == init[k].handle;
        }
        ClassScanIff(init, w.handle, test);
        NoDupAppend(ClassScan(init, test), w.handle);
      }
    }
  }

  /** The windows found are exactly the class-scan hits and the non-null
      title-lookup answers, class-scan hits first and in enumeration order,
      and no handle is listed twice. */
  lemma FindNotificationWindowsSpec(facts: seq<WindowFacts>, lookup: map<string, Handle>, h: Handle)
    requires DistinctHandles(facts)
    ensures var found := FindNotificationWindows(facts, lookup);
            && NoDup(found)
            && (h in found <==>
                  (exists k :: 0 <= k < |facts| && ClassScanHit(facts[k], Intended) && facts[k].handle == h)
                  || (exists t :: t in NotificationTitles && h != NullHandle && FindWindow(lookup, t) == h))
  {
    ClassScanNoDup(facts, Intended);
    ClassScanIff(facts, h, Intended);
    MergeTitleHitsSpec(ClassScan(facts, Intended), lookup, NotificationTitles);
    var found := FindNotificationWindows(facts, lookup);
    assert h in found <==> h in Elements(found);
    assert h in ClassScan(facts, Intended) <==> h in Elements(ClassScan(facts, Intended));
  }

  // ---------------------------------------------------------------------
  // PositionAllNotifications
  // ---------------------------------------------------------------------

  /** `SetWindowPos` flags. */
  const SwpNoSize: bv32 := 0x0001
  const SwpNoZOrder: bv32 := 0x0004
  const SwpShowWindow: bv32 := 0x0040

  /** The flags every move passes. */
  const MoveFlags: bv32 := SwpNoSize | SwpNoZOrder | SwpShowWindow

  /** One recorded `SetWindowPos` call. */
  datatype Move = SetWindowPos(window: Handle, insertAfter: int, x: int, y: int, cx: int, cy: int, flags: bv32)

  /** The flags word sets exactly the no-size, no-z-order and show bits. */
  lemma MoveFlagsBits()
    ensures MoveFlags & SwpNoSize != 0 && MoveFlags & SwpNoZOrder != 0 && MoveFlags & SwpShowWindow != 0
    ensures MoveFlags & !(SwpNoSize | SwpNoZOrder | SwpShowWindow) == 0
    ensures MoveFlags == 0x45
  {
  }

  /** `PositionNotification`: move one window to the computed point, keeping
      its size (`cx`, `cy` are ignored) and z-order (`insertAfter` is
      ignored), and show it. */
  function PositionNotification(s: Settings, screens: Screens, window: Handle): (mv: Move)
    ensures mv.window == window
    ensures Point(mv.x, mv.y) == CalculateNotificationPosition(s, screens)
    ensures mv.flags == MoveFlags
    ensures mv.insertAfter == 0 && mv.cx == 0 && mv.cy == 0
  {
    var p := CalculateNotificationPosition(s, screens);
    SetWindowPos(window, 0, p.x, p.y, 0, 0, MoveFlags)
  }

  /** The loop of `PositionAllNotifications` over the windows found: one
      move per window, in order, each to the point `p`. */
  method PositionEach(p: Point, windows: seq<Handle>) returns (moves: seq<Move>)
    ensures |moves| == |windows|
    ensures forall i :: 0 <= i < |moves| ==> moves[i] == SetWindowPos(windows[i], 0, p.x, p.y, 0, 0, MoveFlags)
    ensures forall h :: h in windows <==> exists i :: 0 <= i < |moves| && moves[i].window == h
  {
    moves := [];
    var i := 0;
    while i < |windows|
      invariant 0 <= i <= |windows|
      invariant |moves| == i
      invariant forall k :: 0 <= k < i ==> moves[k] == SetWindowPos(windows[k], 0, p.x, p.y, 0, 0, MoveFlags)
    {
      moves := moves + [SetWindowPos(windows[i], 0, p.x, p.y, 0, 0, MoveFlags)];
      i := i + 1;
    }
    forall h | h in windows
      ensures exists k :: 0 <= k < |moves| && moves[k].window == h
    {
      var k :| 0 <= k < |windows| && windows[k] == h;
      assert moves[k].window == windows[k];
    }
  }

  /** `PositionAllNotifications`: find the notification windows, then move
      each of them, in the order found, to the same computed point. */
  method PositionAllNotifications(s: Settings, screens: Screens, facts: seq<WindowFacts>, lookup: map<string, Handle>)
    returns (moves: seq<Move>)
    ensures |moves| == |FindNotificationWindows(facts, lookup)|
    ensures forall i :: 0 <= i < |moves| ==> moves[i] == PositionNotification(s, screens, FindNotificationWindows(facts, lookup)[i])
    ensures forall i :: 0 <= i < |moves| ==> Point(moves[i].x, moves[i].y) == CalculateNotificationPosition(s, screens)
  {
    var found := FindNotificationWindows(facts, lookup);
    var p := CalculateNotificationPosition(s, screens);
    moves := PositionEach(p, found);
    forall i | 0 <= i < |moves|
      ensures moves[i] == PositionNotification(s, screens, found[i])
      ensures Point(moves[i].x, moves[i].y) == p
    {
      assert moves[i] == SetWindowPos(found[i], 0, p.x, p.y, 0, 0, MoveFlags);
    }
  }
}
