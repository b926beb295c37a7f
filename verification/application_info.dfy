/** The per-application record with its change notifications: a setter of
    `NotificationsEnabled` or `NotificationCount` stores the value and raises
    `PropertyChanged` only when the value actually differs. */
module ApplicationModel {
  import opened Common

  datatype ApplicationInfo = ApplicationInfo(
    name: string,
    executablePath: string,
    processId: nat,
    notificationWindows: seq<Handle>,
    notificationsEnabled: bool,
    notificationCount: int32)

  /** The property names carried by `PropertyChanged` (`nameof(...)`). */
  const NotificationsEnabledProperty: string := "NotificationsEnabled"
  const NotificationCountProperty: string := "NotificationCount"

  /** The result of an assignment: the new record and the names of the
      `PropertyChanged` events raised, in order. */
  datatype Assignment = Assignment(app: ApplicationInfo, raised: seq<string>)

  /** `new ApplicationInfo()`: notifications enabled, no count, empty
      strings, no windows. */
  function NewApplicationInfo(): (a: ApplicationInfo)
    ensures a.notificationsEnabled
    ensures a.notificationCount == 0
    ensures a.name == "" && a.executablePath == ""
    ensures a.notificationWindows == []
  {
    ApplicationInfo("", "", 0, [], true, 0)
  }

  /** The `NotificationsEnabled` setter. */
  function SetNotificationsEnabled(a: ApplicationInfo, value: bool): (r: Assignment)
    ensures r.app.notificationsEnabled == value
    ensures r.app.(notificationsEnabled := a.notificationsEnabled) == a
    ensures value == a.notificationsEnabled ==> r.app == a && r.raised == []
    ensures value != a.notificationsEnabled ==> r.raised == [NotificationsEnabledProperty]
  {
    if a.notificationsEnabled != value then
      Assignment(a.(notificationsEnabled := value), [NotificationsEnabledProperty])
    else
      Assignment(a, [])
  }

  /** The `NotificationCount` setter. */
  function SetNotificationCount(a: ApplicationInfo, value: int32): (r: Assignment)
    ensures r.app.notificationCount == value
    ensures r.app.(notificationCount := a.notificationCount) == a
    ensures value == a.notificationCount ==> r.app == a && r.raised == []
    ensures value != a.notificationCount ==> r.raised == [NotificationCountProperty]
  {
    if a.notificationCount != value then
      Assignment(a.(notificationCount := value), [NotificationCountProperty])
    else
      Assignment(a, [])
  }

  /** `NotificationWindows.Add(h)` followed by `NotificationCount++`: the
      handle is appended and the counter steps once (wrapping at the 32-bit
      boundary), which always raises one `NotificationCount` change. */
  function AttachWindow(a: ApplicationInfo, h: Handle): (r: Assignment)
    ensures r.app.notificationWindows == a.notificationWindows + [h]
    ensures (r.app.notificationCount as int - a.notificationCount as int - 1) % Int32Modulus == 0
    ensures r.raised == [NotificationCountProperty]
    ensures r.app.name == a.name && r.app.processId == a.processId
    ensures r.app.executablePath == a.executablePath
    ensures r.app.notificationsEnabled == a.notificationsEnabled
  {
    var added := a.(notificationWindows := a.notificationWindows + [h]);
    SetNotificationCount(added, Increment(added.notificationCount))
  }

  /** Assigning the same value twice raises the event at most once: the second
      assignment is silent and changes nothing. */
  lemma SetNotificationsEnabledIdempotent(a: ApplicationInfo, value: bool)
    ensures var first := SetNotificationsEnabled(a, value);
            SetNotificationsEnabled(first.app, value) == Assignment(first.app, [])
  {
  }

  lemma SetNotificationCountIdempotent(a: ApplicationInfo, value: int32)
    ensures var first := SetNotificationCount(a, value);
            SetNotificationCount(first.app, value) == Assignment(first.app, [])
  {
  }

  /** Flipping the flag and flipping it back restores the record and raises
      exactly two events. */
  lemma SetNotificationsEnabledRoundTrip(a: ApplicationInfo)
    ensures var there := SetNotificationsEnabled(a, !a.notificationsEnabled);
            var back := SetNotificationsEnabled(there.app, a.notificationsEnabled);
            back.app == a && there.raised + back.raised == [NotificationsEnabledProperty, NotificationsEnabledProperty]
  {
  }

  /** The two setters touch disjoint fields, so their order does not matter for
      the final record. */
  lemma SettersCommute(a: ApplicationInfo, enabled: bool, count: int32)
    ensures SetNotificationCount(SetNotificationsEnabled(a, enabled).app, count).app
         == SetNotificationsEnabled(SetNotificationCount(a, count).app, enabled).app
  {
  }
}
