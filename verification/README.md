# SampleNotify notification control, modelled in Dafny

SampleNotify is a Windows utility with two jobs. It keeps a per-application
policy that decides whether that application's notification pop-ups may show.
It also moves the system's notification windows to a chosen corner, or to a
percentage position, of a chosen monitor. This project models the logic of
both parts as pure functions over what the operating system would report:

- **The notification manager** (`Win32NotificationManager`):
  - the window classifier (`IsNotificationWindow`);
  - the reconciliation pass that builds the application registry
    (`RefreshApplicationList`, `GetAllApplications`);
  - the policy switch (`SetNotificationEnabled`);
  - one tick of the background monitor (`MonitorNotifications`), which hides
    the new notification windows of disabled applications.
- **The application record** (`ApplicationInfo`): two properties whose
  setters raise `PropertyChanged` only when the value changes. One of them
  is a C# `int` counter, which wraps around at 2^31.
- **The positioner** (`StandaloneNotificationPositioner`):
  - monitor lookup by device name, resolution and effective DPI;
  - the anchor formula;
  - the search for notification windows by class, size and localized title;
  - the `SetWindowPos` calls that move each window.

The state the model tracks:

- The manager is a value `Manager(applications, blockedWindows)`.
- Each operation returns a `Transition`: the new state, plus the ordered
  trace of what it made observable. The trace holds the `ApplicationDiscovered`
  and `NotificationBlocked` events, the `PropertyChanged` notifications, and
  the `ShowWindow` calls that show or hide a window.
- The positioner returns the list of `SetWindowPos` calls it would make.

The native queries become inputs:

- One window enumeration is a sequence of `WindowFacts`: class name, title
  length and text, owning process id, rectangle, and visibility.
- Process lookups are a table from process id to name and executable path.
  A missing entry stands for a lookup that throws.
- The monitors are a list plus the primary monitor.
- `FindWindow` answers are a map from title to handle.

Modules, in dependency order:

- `Common`: options, handles, the 32-bit `int` and duplicate-free sequences.
- `Text`: ordinal case-insensitive substring search.
- `Windows`: the window facts.
- `ApplicationModel`: the application record and its setters.
- `Classifier`: the window classifier.
- `Registry`: the registry and the reconciliation pass.
- `Policy`: the policy switch and the monitor tick.
- `Display`: monitors.
- `Positioner`: the anchor point, the window search and the moves.

Three points of the code's behaviour that the model keeps:

- A reconciliation pass that observes no application empties the registry
  (`Registry.RefreshWithoutCandidates`).
- The set of blocked windows is never pruned, neither by reconciliation nor
  by the monitor.
- A registered application keeps the process id and path of the first window
  it was registered from: within a pass (`Registry.RefreshNewEntry`) and
  across passes (`Registry.RefreshKeepsExisting`).

The one place where the model departs from the code is the size test of the
notification-window search (see "## Findings"). Both versions are defined;
the positioner moves the windows found with the corrected test.

## Model

| member | source | states |
|---|---|---|
| `Common.Increment` | SampleNotify/Win32NotificationManager.cs:144 | `NotificationCount++` on a C# `int` always changes the value and adds one modulo 2^32. |
| `Text.UpperChar` | SampleNotify/Win32NotificationManager.cs:217 | Upper-casing for `OrdinalIgnoreCase` maps `a`-`z` down by 32, fixes every other character and never yields a lower-case ASCII letter. |
| `Text.ContainsIgnoreCaseIffOccurs` | SampleNotify/Win32NotificationManager.cs:217 | The position-by-position search succeeds exactly when the pattern occurs at some index, up to ASCII case. |
| `Text.ContainsIgnoreCaseExample` | SampleNotify/Win32NotificationManager.cs:224-225 | The title "New ALERT" contains the keyword "alert" although the case differs. |
| `Windows.GetWindowTitle` | SampleNotify/Win32NotificationManager.cs:271-279 | The title is empty when the reported length is 0. Otherwise it is a prefix of the window text of at most the reported length: exactly that length when the text is longer, and the whole text when it fits. |
| `Windows.Handles` | SampleNotify/Win32NotificationManager.cs:125 | The handles of an enumeration, one per window, in enumeration order. |
| `ApplicationModel.NewApplicationInfo` | SampleNotify/Models/ApplicationInfo.cs:9-15 | A new record has notifications enabled, a zero count, empty strings and no windows. |
| `ApplicationModel.SetNotificationsEnabled` | SampleNotify/Models/ApplicationInfo.cs:17-28 | The setter stores the value and changes no other field. It raises one `NotificationsEnabled` change exactly when the value differs, and nothing otherwise. |
| `ApplicationModel.SetNotificationCount` | SampleNotify/Models/ApplicationInfo.cs:30-41 | The same contract for `NotificationCount`. |
| `ApplicationModel.AttachWindow` | SampleNotify/Win32NotificationManager.cs:140-145 | Attaching a window appends its handle and steps the counter once, modulo 2^32. It always raises one `NotificationCount` change and keeps name, process id, path and policy. |
| `ApplicationModel.SetNotificationsEnabledIdempotent` | SampleNotify/Models/ApplicationInfo.cs:17-28 | Assigning the same flag twice raises at most one event. The second assignment is silent and changes nothing. |
| `ApplicationModel.SetNotificationCountIdempotent` | SampleNotify/Models/ApplicationInfo.cs:30-41 | The same for the counter. |
| `ApplicationModel.SetNotificationsEnabledRoundTrip` | SampleNotify/Models/ApplicationInfo.cs:17-28 | Flipping the flag and flipping it back restores the record and raises exactly two events. |
| `ApplicationModel.SettersCommute` | SampleNotify/Models/ApplicationInfo.cs:17-41 | The two setters touch disjoint state, so either order gives the same record. |
| `Classifier.AnyContainedIgnoreCaseIff` | SampleNotify/Win32NotificationManager.cs:217 | The `Any(... Contains ...)` test holds exactly when some pattern of the list occurs. |
| `Classifier.ClassifyWithIff` | SampleNotify/Win32NotificationManager.cs:196-226 | Over any allowlists, an invisible window is never classified. A visible one is classified exactly when its class name contains a listed class or its title contains a listed keyword, up to ASCII case. |
| `Classifier.IsNotificationWindowIff` | SampleNotify/Win32NotificationManager.cs:196-226 | The same, with the seven class names and four keywords of the source. |
| `Classifier.ZeroLengthTitleIgnored` | SampleNotify/Win32NotificationManager.cs:219-225 | A window reporting a zero title length is judged by visibility and class name alone. |
| `Classifier.ClassNameExample` | SampleNotify/Win32NotificationManager.cs:198-217 | A visible window of class "toasthost" is classified in any letter case; the same window hidden is not. |
| `Classifier.TitleExample` | SampleNotify/Win32NotificationManager.cs:219-225 | A visible window of an unlisted class titled "New ALERT" is classified by its title. |
| `Registry.ApplicationInfoFromWindow` | SampleNotify/Win32NotificationManager.cs:228-248 | A record exists exactly when the owning process resolves. It is fresh, enabled, with zero count and no windows, and carries the process's name, id and path. |
| `Registry.RefreshApplicationList` | SampleNotify/Win32NotificationManager.cs:121-157 | After a pass, the registry holds exactly the names observed in that pass: the non-empty process names of the classified windows. The blocked set is untouched. |
| `Registry.RefreshWellFormed` | SampleNotify/Win32NotificationManager.cs:134-145 | A pass keeps every record filed under its own name and every window list free of duplicates. |
| `Registry.RefreshDiscoversNewNames` | SampleNotify/Win32NotificationManager.cs:134-138 | `ApplicationDiscovered` fires for a name exactly once if the pass observes it and it was not registered before, and never otherwise. |
| `Registry.RefreshDiscoveriesDistinct` | SampleNotify/Win32NotificationManager.cs:134-138 | The announced names are distinct and are exactly the newly observed names. |
| `Registry.RefreshKeepsExisting` | SampleNotify/Win32NotificationManager.cs:134-145 | A registered application seen again is kept, not replaced: its name, process id, path and policy stay, and its window list only grows at the end. |
| `Registry.RefreshNewEntry` | SampleNotify/Win32NotificationManager.cs:134-138 | An application registered by the pass is enabled and filed under its name. It carries the process id and path of the first window counted for it in enumeration order; later windows of that name only attach. |
| `Registry.RefreshWindows` | SampleNotify/Win32NotificationManager.cs:140-145 | After the pass, a record lists its earlier handles plus the handles of the windows counted for it. The counter stepped once per list entry added, modulo 2^32. |
| `Registry.AccountsExactCount` | SampleNotify/Win32NotificationManager.cs:140-145 | Without duplicates and without wrap-around, the counter rose by exactly the number of new handles. |
| `Registry.RefreshCountsNewHandles` | SampleNotify/Win32NotificationManager.cs:140-145 | Without wrap-around, `NotificationCount` rises by exactly the number of handles newly attached in the pass. |
| `Registry.RefreshWithoutCandidates` | SampleNotify/Win32NotificationManager.cs:151-156 | A pass that observes no application empties the registry and makes nothing observable. |
| `Registry.RefreshForgetsVanished` | SampleNotify/Win32NotificationManager.cs:151-156 | An application absent for one pass is dropped. When it reappears it is announced again and its notifications are enabled again, whatever its earlier policy. |
| `Registry.GetAllApplications` | SampleNotify/Win32NotificationManager.cs:92-96 | After one pass, the snapshot lists each registered record once, and nothing else. |
| `Policy.ApplyPolicy` | SampleNotify/Win32NotificationManager.cs:105-117 | The loop removes the listed windows from the blocked set (enabled) or adds them (disabled), and issues the show or hide calls in order. |
| `Policy.SetNotificationEnabled` | SampleNotify/Win32NotificationManager.cs:98-119 | An unknown name changes nothing and emits nothing. For a known name, only that record's flag changes, and the blocked set loses or gains exactly its listed windows. |
| `Policy.SetNotificationEnabledEvents` | SampleNotify/Win32NotificationManager.cs:98-119 | The trace is one `PropertyChanged` when the flag actually changes, then the show or hide of every listed window. |
| `Policy.PolicyEffectsProjections` | SampleNotify/Win32NotificationManager.cs:105-117 | The calls of a policy announce nothing. Enabled, they show exactly the listed windows in list order and hide none; disabled, they hide exactly the listed windows in list order and show none. |
| `Policy.SetNotificationEnabledCalls` | SampleNotify/Win32NotificationManager.cs:98-119 | A policy change on a registered application shows every listed window (enabled) or hides every listed window (disabled), in list order. It touches no other window and announces no block. |
| `Policy.SetNotificationEnabledLeavesOthers` | SampleNotify/Win32NotificationManager.cs:98-119 | Windows not listed by the application keep their blocked status, and every other record is unchanged. |
| `Policy.SetNotificationEnabledIdempotent` | SampleNotify/Win32NotificationManager.cs:98-119 | Applying the same policy twice gives the state of applying it once. The second call raises no `PropertyChanged` and only repeats the show or hide calls. |
| `Policy.DisableThenEnable` | SampleNotify/Win32NotificationManager.cs:98-119 | Disabling then enabling leaves the application enabled and none of its windows blocked; other blocked windows stay. |
| `Policy.MonitorNotifications` | SampleNotify/Win32NotificationManager.cs:163-194 | A tick leaves the registry as it is. The blocked set grows by exactly the classified windows of registered, disabled applications. |
| `Policy.MonitorFoldBlocked` | SampleNotify/Win32NotificationManager.cs:167-187 | Over any enumeration, the blocked set ends as the starting set plus the windows that must be blocked. |
| `Policy.StepBlocks` | SampleNotify/Win32NotificationManager.cs:175-182 | One callback announces a handle exactly when it blocks that handle now. |
| `Policy.MonitorFoldBlocks` | SampleNotify/Win32NotificationManager.cs:167-187 | Over an enumeration, a handle is announced once when it must be blocked and was not yet, and never otherwise. |
| `Policy.MonitorFoldHides` | SampleNotify/Win32NotificationManager.cs:177-182 | The hides and the announcements of a tick name the same handles, in the same order. |
| `Policy.MonitorBlocksOnce` | SampleNotify/Win32NotificationManager.cs:163-194 | The announcements of a tick are distinct. They are exactly the windows that had to be blocked and were not blocked before. |
| `Policy.MonitorHidesWhatItBlocks` | SampleNotify/Win32NotificationManager.cs:177-182 | Every announced window was hidden, and nothing else was hidden. |
| `Policy.MonitorFoldPairs` | SampleNotify/Win32NotificationManager.cs:167-187 | Over any enumeration, a tick only appends pairs: the hide of a window followed immediately by the announcement of the same window. |
| `Policy.MonitorHideThenAnnounce` | SampleNotify/Win32NotificationManager.cs:177-182 | Every `NotificationBlocked` of a tick comes right after the hide of the same window. |
| `Policy.MonitorFoldQuiet` | SampleNotify/Win32NotificationManager.cs:177 | When everything that must be blocked is already blocked, a tick changes nothing. |
| `Policy.MonitorIdempotent` | SampleNotify/Win32NotificationManager.cs:163-194 | A second tick over the same windows is silent and changes nothing. |
| `Policy.DisabledWindowsStaySilent` | SampleNotify/Win32NotificationManager.cs:105-117 | After an application is disabled, a tick never announces any of its listed windows. They were blocked, and thereby hidden, when the policy was applied. |
| `Policy.OperationsPreserveWellFormed` | SampleNotify/Win32NotificationManager.cs:98-194 | The empty manager is well formed: every record is filed under its own name and lists each handle once. Reconciliation, a policy change and a monitor tick all keep it so. |
| `Display.GetAvailableMonitors` | SampleNotify/Class1.cs:110-126 | At most one name per monitor, each the device name of a monitor whose information is available. |
| `Display.AvailableMonitorsIff` | SampleNotify/Class1.cs:110-126 | A name is listed exactly when some monitor with available information carries it. |
| `Display.LastMatch` | SampleNotify/Class1.cs:133-143 | The index of the last monitor whose device name equals the selector, or none when no monitor matches. |
| `Display.GetPreferredDisplay` | SampleNotify/Class1.cs:128-148 | "primary" gives the primary monitor without searching. Any other selector gives an enumerated monitor or the primary one. |
| `Display.PreferredDisplaySpec` | SampleNotify/Class1.cs:128-148 | With no monitor of that name, the primary monitor is used. Otherwise the last monitor of that name is used when its handle is non-null, and the primary monitor when it is null. |
| `Display.SelectPreferredDisplay` | SampleNotify/Class1.cs:128-148 | Walking the monitors and overwriting the remembered handle on each match, then falling back to the primary monitor, gives the declarative choice. |
| `Display.AvailableNameSelects` | SampleNotify/Class1.cs:110-148 | A listed name other than "primary" has a matching monitor. It selects that monitor whenever the monitor's handle is non-null. |
| `Display.Resolution` | SampleNotify/Class1.cs:150-158 | The resolution sits at the origin with the monitor rectangle's width and height, or 0 x 0 when the monitor information is unavailable. |
| `Display.GetRealResolution` | SampleNotify/Class1.cs:150-158 | The resolution of the preferred display, at the origin. |
| `Display.ResolutionIgnoresPlacement` | SampleNotify/Class1.cs:150-158 | Moving a monitor on the virtual desktop does not change its resolution. |
| `Display.ScaledExtentTruncates` | SampleNotify/Class1.cs:216-218 | A scaled extent is the exact `extent * dpi / 96` truncated: the exact value lies in `[r, r + 1)`. |
| `Display.ScaledExtentMonotone` | SampleNotify/Class1.cs:216-218 | Scaling is exact at 96 DPI. It never shrinks an extent above 96 DPI and never grows one below. |
| `Positioner.DefaultSettings` | SampleNotify/Class1.cs:97-100 | A new positioner anchors top-right, with custom offsets 0, on the primary monitor. |
| `Positioner.TruncHundredthsBounds` | SampleNotify/Class1.cs:245-246 | The float-to-int conversion truncates toward zero: the result's magnitude is at most the exact one and misses it by less than one. |
| `Positioner.Place` | SampleNotify/Class1.cs:222-253 | Corner anchors put the footprint flush with their two edges, and top-left is the origin. `Custom` takes the truncated percentages of the resolution. Any other value acts as top-right. |
| `Positioner.CalculateNotificationPosition` | SampleNotify/Class1.cs:213-256 | The top-left anchor always gives (0, 0), whatever the monitor. |
| `Positioner.CalculateNotificationPositionSpec` | SampleNotify/Class1.cs:213-256 | The point for each anchor, in terms of the preferred monitor's `W x H` and the DPI-scaled footprint `sw x sh`: (W - sw, 0), (0, H - sh), (W - sw, H - sh), or the truncated percentages of W and H. |
| `Positioner.ScaledFootprint` | SampleNotify/Class1.cs:160-165 | The footprint is 396 x 152 times the preferred display's DPI over 96, rounded down, and unchanged at 96 DPI. |
| `Positioner.UndeclaredIsTopRight` | SampleNotify/Class1.cs:249-252 | An enum value outside the five members behaves as top-right, which is also the default. |
| `Positioner.CornersIgnorePercentages` | SampleNotify/Class1.cs:222-253 | The custom percentages matter only to the `Custom` anchor. |
| `Positioner.CornerFootprintInside` | SampleNotify/Class1.cs:222-253 | When the footprint fits on the monitor, every non-custom anchor keeps the whole footprint on it. |
| `Positioner.PercentWithin` | SampleNotify/Class1.cs:245-246 | A percentage from 0 to 100 of an extent lies within it, and 0 and 100 give its two ends. |
| `Positioner.CustomPointInside` | SampleNotify/Class1.cs:244-247 | Custom percentages from 0 to 100 keep the point on the monitor, and 0 and 100 reach its edges. |
| `Positioner.FullHdResolution` | SampleNotify/Class1.cs:150-165 | That monitor reports 1920 x 1080 and the given DPI. |
| `Positioner.TopRightExample` | SampleNotify/Class1.cs:229-232 | With the default settings on a 1920 x 1080 monitor at 96 DPI, the point is (1524, 0). |
| `Positioner.BottomRightAt144` | SampleNotify/Class1.cs:216-242 | At 144 DPI the footprint is 594 x 228, so bottom-right is (W - 594, H - 228). |
| `Positioner.CustomCentreExample` | SampleNotify/Class1.cs:244-247 | Custom 50 % / 50 % on 1920 x 1080 is the centre (960, 540). |
| `Positioner.HalfOfFullHd` | SampleNotify/Class1.cs:245-246 | Truncated halves of 1920 and 1080 are 960 and 540. |
| `Positioner.MarshalledRectangle` | SampleNotify/Class1.cs:33 | Marshalling a native `RECT` into `System.Drawing.Rectangle` puts the right edge in `Width` and the bottom edge in `Height`. |
| `Positioner.SizeTestCounterexample` | SampleNotify/Class1.cs:183-187 | The size test as written misses a 396 x 152 window placed at (1524, 0). It accepts a 96-pixel-wide window whose right edge is at 396. |
| `Positioner.SizeTestsAgreeAtOrigin` | SampleNotify/Class1.cs:183-187 | The as-written and intended size tests agree exactly on windows whose top-left corner is the origin. |
| `Positioner.ClassScan` | SampleNotify/Class1.cs:176-194 | The class scan lists at most one handle per enumerated window, under either size test. |
| `Positioner.ClassScanIff` | SampleNotify/Class1.cs:176-194 | Under either size test, the class scan finds exactly the windows of class `Windows.UI.Core.CoreWindow`, compared case-sensitively, that pass the test. With the intended test these are the windows measuring 396 x 152. |
| `Positioner.ClassScanNoDup` | SampleNotify/Class1.cs:176-194 | When the system enumerates each window once, the class scan lists no handle twice, under either size test. |
| `Positioner.MergeTitleHits` | SampleNotify/Class1.cs:196-204 | The title lookups keep the earlier hits as a prefix and add at most one handle per title. |
| `Positioner.MergeTitleHitsSpec` | SampleNotify/Class1.cs:196-204 | The lookups add exactly the non-null answers and never list a handle twice. |
| `Positioner.FindNotificationWindows` | SampleNotify/Class1.cs:171-207 | With the intended size test, the class-scan hits come first, in enumeration order. |
| `Positioner.FindNotificationWindowsAsWritten` | SampleNotify/Class1.cs:171-207 | As the source runs it, with the size test applied to the marshalled rectangle: the as-written class-scan hits come first, in enumeration order. |
| `Positioner.ScanCounterexample` | SampleNotify/Class1.cs:171-207 | The enumeration [a 396 x 152 window at (1524, 0), a 96 x 152 window with its right edge at 396], with no title answering, yields only the narrow window as written and only the notification as intended. |
| `Positioner.FindNotificationWindowsSpec` | SampleNotify/Class1.cs:171-207 | The windows found are duplicate-free and are exactly the class-scan hits plus the non-null answers to the three localized titles. |
| `Positioner.MoveFlagsBits` | SampleNotify/Class1.cs:48-50 | The move flags are 0x45: exactly the no-size, no-z-order and show bits. |
| `Positioner.PositionNotification` | SampleNotify/Class1.cs:258-265 | One move of the given window to the computed point, keeping size and z-order, with the three flags. |
| `Positioner.PositionEach` | SampleNotify/Class1.cs:270-273 | One move per window, in order, each to the same point. The windows moved are exactly the windows given. |
| `Positioner.PositionAllNotifications` | SampleNotify/Class1.cs:267-274 | One `PositionNotification` per window found, in the order found, all to the computed point. |

## Left out

- Native calls are inputs, not modelled behaviour. This covers `EnumWindows`, `GetClassName`, `GetWindowText(Length)`, `IsWindowVisible`, `GetWindowThreadProcessId`, `Process.GetProcessById`, `OpenProcess`/`GetModuleFileNameEx`, `EnumDisplayMonitors`, `GetMonitorInfo`, `MonitorFromPoint`, `GetDpiForMonitor` and `FindWindow`. Each is given as facts, a process table, a monitor list or a title map. `ShowWindow` and `SetWindowPos` are recorded in the returned trace.
- Timers and their threads are left out because they are scheduling, not logic: the manager's 500 ms timer, `StartPositioning`'s 100 ms timer, `Dispose`, and the race between a timer tick and the UI thread. Each tick and each call is modelled as one atomic transition.
- `PositionCurrentNotifications` is a direct call of `PositionAllNotifications` and needs no model of its own.
- `MonitorNotifications`'s catch-all is not modelled. Lookups that throw are the missing process-table entries, and subscribers are assumed not to throw (below).
- `GetProcessExecutablePath` is not modelled; its result (the path, or empty on failure) is a field of the process table.
- Float arithmetic is replaced by exact integers. `GetScale` is `dpi / 96` as a rational, and the custom position uses whole percentages, with C#'s truncation toward zero. Single-precision rounding (for a non-integer percentage, say) is not modelled.
- Case folding covers ASCII letters only. `OrdinalIgnoreCase` folds further Unicode letters.
- Coordinates are unbounded integers. The 32-bit overflow of `Right - Left` or `W - sw` on absurd monitor sizes is not modelled.
- `GetClassName`'s 256-character buffer and the 32-character `DeviceName` field are not modelled: the facts are taken as the strings the calls produce.
- `Positioner.PositionNotification` omits the boolean result of `SetWindowPos`, which no caller reads.
- `Positioner.PositionAllNotifications`: the source recomputes the position for each window. The model computes it once from one snapshot of the monitors, the same point when nothing changes in between. Its contract does not restate membership; that is stated by `Positioner.PositionEach` and `Positioner.FindNotificationWindowsSpec`.
- `Positioner.FindNotificationWindows` and `Positioner.PositionAllNotifications` use the corrected size test, not the source's. What the source computes is `Positioner.FindNotificationWindowsAsWritten`; see "## Findings".
- Event subscribers are assumed not to throw. In the source, a throwing `NotificationBlocked` subscriber ends the monitor tick after its first hide, and the catch-all swallows the exception. A throwing `ApplicationDiscovered` subscriber, which nothing catches, leaves the registry part-way through a pass.
- Application records are values, not shared references. In the source, `GetAllApplications` and both events hand out the registry's own `ApplicationInfo` objects, which a caller can mutate outside the manager's operations. The model has no such aliasing.
- The UI (`MainWindow`, view models, the application list binding) is not part of this model.

## Findings

| source | as written | input that shows it | evidently intended | confidence | as-written member | corrected member |
|---|---|---|---|---|---|---|
| SampleNotify/Class1.cs:183-187 | `GetWindowRect` writes the native `RECT` (left, top, right, bottom) into a `System.Drawing.Rectangle`, whose fields are (X, Y, Width, Height). The size test therefore compares the window's right and bottom edges with 396 and 152. | A 396 x 152 window at (1524, 0), i.e. `RECT(1524, 0, 1920, 152)`, is missed. A 96 x 152 window `RECT(300, 0, 396, 152)` is accepted. | The window's own width and height are compared with 396 and 152. | medium; not executed | `Positioner.ScanCounterexample` | `Positioner.ClassScanIff` |
