/** Per-application notification policy of the notification manager:
    `SetNotificationEnabled`, which applies a new policy to an application's
    windows at once, and one tick of `MonitorNotifications`, which hides the
    classified windows of disabled applications that are not hidden yet. */
module Policy {
  import opened Common
  import opened Windows
  import opened ApplicationModel
  import opened Registry

  // ---------------------------------------------------------------------
  // SetNotificationEnabled
  // ---------------------------------------------------------------------

  /** The effect of a policy on one window: shown when enabled, hidden when
      disabled. */
  function PolicyEffect(w: Handle, enabled: bool): Event
  {
    if enabled then ShowWindow(w) else HideWindow(w)
  }

  /** The show or hide calls of a policy over a list of windows, one per
      window, in list order. */
  function PolicyEffects(windows: seq<Handle>, enabled: bool): (effects: seq<Event>)
    ensures |effects| == |windows|
    ensures forall i :: 0 <= i < |windows| ==> effects[i] == PolicyEffect(windows[i], enabled)
  {
    seq(|windows|, i requires 0 <= i < |windows| => PolicyEffect(windows[i], enabled))
  }

  /** The loop over a snapshot of an application's windows: each is shown and
      un-blocked, or hidden and blocked. */
  function ApplyPolicy(blocked: set<Handle>, windows: seq<Handle>, enabled: bool): (r: (set<Handle>, seq<Event>))
    ensures r.0 == if enabled then blocked - Elements(windows) else blocked + Elements(windows)
    ensures r.1 == PolicyEffects(windows, enabled)
  {
    if |windows| == 0 then (blocked, [])
    else
      var (b, effects) := ApplyPolicy(blocked, windows[..|windows| - 1], enabled);
      var w := windows[|windows| - 1];
      assert Elements(windows) == Elements(windows[..|windows| - 1]) + {w};
      assert PolicyEffects(windows, enabled) == PolicyEffects(windows[..|windows| - 1], enabled) + [PolicyEffect(w, enabled)];
      (if enabled then b - {w} else b + {w}, effects + [PolicyEffect(w, enabled)])
  }

  /** `SetNotificationEnabled`: for a registered application, assign its
      flag (raising `PropertyChanged` only on a change) and apply the policy
      to every window it lists; for an unknown name, do nothing. */
  function SetNotificationEnabled(m: Manager, name: string, enabled: bool): (r: Transition)
    ensures name !in m.applications ==> r == Transition(m, [])
    ensures name in m.applications ==>
      var app := m.applications[name];
      && r.manager.applications == m.applications[name := app.(notificationsEnabled := enabled)]
      && r.manager.blockedWindows ==
           (if enabled then m.blockedWindows - Elements(app.notificationWindows)
            else m.blockedWindows + Elements(app.notificationWindows))
  {
    if name !in m.applications then Transition(m, [])
    else
      var app := m.applications[name];
      var assignment := SetNotificationsEnabled(app, enabled);
      var applied := ApplyPolicy(m.blockedWindows, app.notificationWindows, enabled);
      Transition(Manager(m.applications[name := assignment.app], applied.0), Raised(name, assignment.raised) + applied.1)
  }

  /** The calls a policy change makes: one `PropertyChanged` when the flag
      actually changes, then one show (enabled) or hide (disabled) per
      listed window, in list order. */
  lemma SetNotificationEnabledEvents(m: Manager, name: string, enabled: bool)
    requires name in m.applications
    ensures var app := m.applications[name];
            SetNotificationEnabled(m, name, enabled).events ==
              (if app.notificationsEnabled == enabled then [] else [PropertyChanged(name, NotificationsEnabledProperty)])
              + PolicyEffects(app.notificationWindows, enabled)
  {
  }

  /** Blocked handles of other applications are untouched. */
  lemma SetNotificationEnabledLeavesOthers(m: Manager, name: string, enabled: bool, h: Handle)
    requires name in m.applications ==> h !in m.applications[name].notificationWindows
    ensures h in SetNotificationEnabled(m, name, enabled).manager.blockedWindows <==> h in m.blockedWindows
    ensures forall n :: n in m.applications && n != name ==>
              n in SetNotificationEnabled(m, name, enabled).manager.applications &&
              SetNotificationEnabled(m, name, enabled).manager.applications[n] == m.applications[n]
  {
  }

  /** Applying the same policy twice ends in the same state as applying it
      once, and the second call raises no `PropertyChanged`: it only repeats
      the show or hide calls. */
  lemma SetNotificationEnabledIdempotent(m: Manager, name: string, enabled: bool)
    ensures var once := SetNotificationEnabled(m, name, enabled);
            var twice := SetNotificationEnabled(once.manager, name, enabled);
            && twice.manager == once.manager
            && (name in m.applications ==> twice.events == PolicyEffects(m.applications[name].notificationWindows, enabled))
            && (name !in m.applications ==> twice.events == [])
  {
    var once := SetNotificationEnabled(m, name, enabled);
    if name in m.applications {
      var app := m.applications[name];
      var updated := app.(notificationsEnabled := enabled);
      assert once.manager.applications == m.applications[name := updated];
      assert once.manager.applications[name] == updated;
      var twice := SetNotificationEnabled(once.manager, name, enabled);
      assert twice.manager.applications == once.manager.applications[name := updated];
      assert twice.manager.blockedWindows == once.manager.blockedWindows;
      SetNotificationEnabledEvents(once.manager, name, enabled);
    }
  }

  /** Disabling and then enabling an application leaves none of its windows
      blocked and its notifications enabled. */
  lemma DisableThenEnable(m: Manager, name: string)
    requires name in m.applications
    ensures var r := SetNotificationEnabled(SetNotificationEnabled(m, name, false).manager, name, true).manager;
            && r.applications[name].notificationsEnabled
            && r.blockedWindows == m.blockedWindows - Elements(m.applications[name].notificationWindows)
  {
  }

  // ---------------------------------------------------------------------
  // One tick of MonitorNotifications
  // ---------------------------------------------------------------------

  /** The window counts for a registered application whose notifications are
      disabled. */
  predicate ShouldBlock(apps: map<string, ApplicationInfo>, w: WindowFacts, processes: ProcessTable)
  {
    Candidate(w, processes).Some? && Candidate(w, processes).value.name in apps
    && !apps[Candidate(w, processes).value.name].notificationsEnabled
  }

  /** The handles a tick over `facts` must see blocked. */
  ghost function BlockTargets(apps: map<string, ApplicationInfo>, facts: seq<WindowFacts>, processes: ProcessTable): set<Handle>
  {
    set w | w in facts && ShouldBlock(apps, w, processes) :: w.handle
  }

  /** The blocked set and the events of a tick in progress. */
  datatype Tick = Tick(blocked: set<Handle>, events: seq<Event>)

  /** The enumeration callback of `MonitorNotifications` for one window: hide
      it, block it and announce it, unless it is already blocked. */
  function MonitorStep(apps: map<string, ApplicationInfo>, t: Tick, w: WindowFacts, processes: ProcessTable): Tick
  {
    if ShouldBlock(apps, w, processes) && w.handle !in t.blocked then
      var app := apps[Candidate(w, processes).value.name];
      Tick(t.blocked + {w.handle}, t.events + [HideWindow(w.handle), NotificationBlocked(app, w.handle)])
    else
      t
  }

  function MonitorFold(apps: map<string, ApplicationInfo>, t: Tick, facts: seq<WindowFacts>, processes: ProcessTable): Tick
  {
    if |facts| == 0 then t
    else MonitorStep(apps, MonitorFold(apps, t, facts[..|facts| - 1], processes), facts[|facts| - 1], processes)
  }

  /** One tick of `MonitorNotifications`. The registry is only read; the
      blocked set only grows, by exactly the handles that must be blocked. */
  function MonitorNotifications(m: Manager, facts: seq<WindowFacts>, processes: ProcessTable): (r: Transition)
    ensures r.manager.applications == m.applications
    ensures m.blockedWindows <= r.manager.blockedWindows
    ensures r.manager.blockedWindows == m.blockedWindows + BlockTargets(m.applications, facts, processes)
  {
    var t := MonitorFold(m.applications, Tick(m.blockedWindows, []), facts, processes);
    MonitorFoldBlocked(m.applications, Tick(m.blockedWindows, []), facts, processes);
    Transition(Manager(m.applications, t.blocked), t.events)
  }

  /** The handles named by `NotificationBlocked` events, in order. */
  function Blocks(events: seq<Event>): seq<Handle>
  {
    if |events| == 0 then []
    else
      var last := events[|events| - 1];
      Blocks(events[..|events| - 1]) + (if last.NotificationBlocked? then [last.window] else [])
  }

  /** The handles named by hide calls, in order. */
  function Hides(events: seq<Event>): seq<Handle>
  {
    if |events| == 0 then []
    else
      var last := events[|events| - 1];
      Hides(events[..|events| - 1]) + (if last.HideWindow? then [last.window] else [])
  }

  /** The handles named by show calls, in order. */
  function Shows(events: seq<Event>): seq<Handle>
  {
    if |events| == 0 then []
    else
      var last := events[|events| - 1];
      Shows(events[..|events| - 1]) + (if last.ShowWindow? then [last.window] else [])
  }

  lemma {:induction false} BlocksAppend(a: seq<Event>, b: seq<Event>)
    ensures Blocks(a + b) == Blocks(a) + Blocks(b)
    decreases |b|
  {
    if |b| > 0 {
      var b' := b[..|b| - 1];
      assert (a + b)[..|a + b| - 1] == a + b';
      BlocksAppend(a, b');
    } else {
      assert a + b == a;
    }
  }

  lemma {:induction false} HidesAppend(a: seq<Event>, b: seq<Event>)
    ensures Hides(a + b) == Hides(a) + Hides(b)
    decreases |b|
  {
    if |b| > 0 {
      var b' := b[..|b| - 1];
      assert (a + b)[..|a + b| - 1] == a + b';
      HidesAppend(a, b');
    } else {
      assert a + b == a;
    }
  }

  lemma {:induction false} ShowsAppend(a: seq<Event>, b: seq<Event>)
    ensures Shows(a + b) == Shows(a) + Shows(b)
    decreases |b|
  {
    if |b| > 0 {
      var b' := b[..|b| - 1];
      assert (a + b)[..|a + b| - 1] == a + b';
      ShowsAppend(a, b');
    } else {
      assert a + b == a;
    }
  }

  /** The three projections distribute over concatenation. */
  lemma BlocksHidesAppend(a: seq<Event>, b: seq<Event>)
    ensures Blocks(a + b) == Blocks(a) + Blocks(b)
    ensures Hides(a + b) == Hides(a) + Hides(b)
    ensures Shows(a + b) == Shows(a) + Shows(b)
  {
    BlocksAppend(a, b);
    HidesAppend(a, b);
    ShowsAppend(a, b);
  }

  /** The events of blocking one window: its hide, then its announcement. */
  lemma BlockingPair(app: ApplicationInfo, h: Handle)
    ensures Blocks([HideWindow(h), NotificationBlocked(app, h)]) == [h]
    ensures Hides([HideWindow(h), NotificationBlocked(app, h)]) == [h]
  {
    var pair := [HideWindow(h), NotificationBlocked(app, h)];
    var first := [HideWindow(h)];
    assert pair[..|pair| - 1] == first;
    assert first[..|first| - 1] == [];
    assert Blocks(first) == [] && Hides(first) == [h];
  }

  lemma BlockTargetsSnoc(apps: map<string, ApplicationInfo>, init: seq<WindowFacts>, w: WindowFacts, processes: ProcessTable)
    ensures BlockTargets(apps, init + [w], processes) ==
            BlockTargets(apps, init, processes) + (if ShouldBlock(apps, w, processes) then {w.handle} else {})
  {
    var facts := init + [w];
    assert forall x :: x in facts <==> x in init || x == w;
  }

  lemma {:induction false} MonitorFoldBlocked(apps: map<string, ApplicationInfo>, t: Tick, facts: seq<WindowFacts>, processes: ProcessTable)
    ensures MonitorFold(apps, t, facts, processes).blocked == t.blocked + BlockTargets(apps, facts, processes)
    decreases |facts|
  {
    if |facts| > 0 {
      var init, w := facts[..|facts| - 1], facts[|facts| - 1];
      assert facts == init + [w];
      MonitorFoldBlocked(apps, t, init, processes);
      BlockTargetsSnoc(apps, init, w, processes);
    }
  }

  /** One step of a tick announces `h` exactly when it blocks `h` now. */
  lemma StepBlocks(apps: map<string, ApplicationInfo>, q: Tick, w: WindowFacts, processes: ProcessTable, h: Handle)
    ensures multiset(Blocks(MonitorStep(apps, q, w, processes).events))[h] ==
            multiset(Blocks(q.events))[h] + (if ShouldBlock(apps, w, processes) && w.handle !in q.blocked && w.handle == h then 1 else 0)
  {
    if ShouldBlock(apps, w, processes) && w.handle !in q.blocked {
      var app := apps[Candidate(w, processes).value.name];
      var added := [HideWindow(w.handle), NotificationBlocked(app, w.handle)];
      BlocksHidesAppend(q.events, added);
      BlockingPair(app, w.handle);
      assert Blocks(q.events + added) == Blocks(q.events) + [w.handle];
      assert multiset(Blocks(q.events) + [w.handle]) == multiset(Blocks(q.events)) + multiset{w.handle};
    }
  }

  /** A tick announces a handle once when it must be blocked and was not yet,
      and never otherwise. */
  lemma {:induction false} MonitorFoldBlocks(apps: map<string, ApplicationInfo>, t: Tick, facts: seq<WindowFacts>,
                                             processes: ProcessTable, h: Handle)
    ensures multiset(Blocks(MonitorFold(apps, t, facts, processes).events))[h] == multiset(Blocks(t.events))[h] +
              (if h in BlockTargets(apps, facts, processes) && h !in t.blocked then 1 else 0)
    decreases |facts|
  {
    if |facts| > 0 {
      var init, w := facts[..|facts| - 1], facts[|facts| - 1];
      assert facts == init + [w];
      var q := MonitorFold(apps, t, init, processes);
      assert MonitorFold(apps, t, facts, processes) == MonitorStep(apps, q, w, processes);
      MonitorFoldBlocks(apps, t, init, processes, h);
      MonitorFoldBlocked(apps, t, init, processes);
      BlockTargetsSnoc(apps, init, w, processes);
      StepBlocks(apps, q, w, processes, h);
    }
  }

  /** Over a tick, the hides and the announcements name the same handles in
      the same order. */
  lemma {:induction false} MonitorFoldHides(apps: map<string, ApplicationInfo>, t: Tick, facts: seq<WindowFacts>,
                                            processes: ProcessTable)
    requires Hides(t.events) == Blocks(t.events)
    ensures Hides(MonitorFold(apps, t, facts, processes).events) == Blocks(MonitorFold(apps, t, facts, processes).events)
    decreases |facts|
  {
    if |facts| > 0 {
      var init, w := facts[..|facts| - 1], facts[|facts| - 1];
      var q := MonitorFold(apps, t, init, processes);
      MonitorFoldHides(apps, t, init, processes);
      if ShouldBlock(apps, w, processes) && w.handle !in q.blocked {
        var app := apps[Candidate(w, processes).value.name];
        var added := [HideWindow(w.handle), NotificationBlocked(app, w.handle)];
        BlocksHidesAppend(q.events, added);
        BlockingPair(app, w.handle);
      }
    }
  }

  /** A tick announces each handle it blocks exactly once: its
      `NotificationBlocked` handles are distinct and are exactly the handles
      that had to be blocked and were not blocked before. */
  lemma MonitorBlocksOnce(m: Manager, facts: seq<WindowFacts>, processes: ProcessTable)
    ensures var b := Blocks(MonitorNotifications(m, facts, processes).events);
      && NoDup(b)
      && Elements(b) == BlockTargets(m.applications, facts, processes) - m.blockedWindows
  {
    var t0 := Tick(m.blockedWindows, []);
    var b := Blocks(MonitorNotifications(m, facts, processes).events);
    forall i | 0 <= i < |b|
      ensures multiset(b)[b[i]] <= 1
    {
      MonitorFoldBlocks(m.applications, t0, facts, processes, b[i]);
    }
    NoDupFromCounts(b);
    forall h | h in BlockTargets(m.applications, facts, processes) - m.blockedWindows
      ensures h in b
    {
      MonitorFoldBlocks(m.applications, t0, facts, processes, h);
    }
    forall h | h in b
      ensures h in BlockTargets(m.applications, facts, processes) - m.blockedWindows
    {
      MonitorFoldBlocks(m.applications, t0, facts, processes, h);
    }
  }

  /** A tick hides exactly the windows it announces, in the same order. */
  lemma MonitorHidesWhatItBlocks(m: Manager, facts: seq<WindowFacts>, processes: ProcessTable)
    ensures var events := MonitorNotifications(m, facts, processes).events;
            Hides(events) == Blocks(events)
  {
    MonitorFoldHides(m.applications, Tick(m.blockedWindows, []), facts, processes);
  }

  /** A tick with nothing new to block is silent and changes nothing. */
  lemma {:induction false} MonitorFoldQuiet(apps: map<string, ApplicationInfo>, t: Tick, facts: seq<WindowFacts>, processes: ProcessTable)
    requires BlockTargets(apps, facts, processes) <= t.blocked
    ensures MonitorFold(apps, t, facts, processes) == t
    decreases |facts|
  {
    if |facts| > 0 {
      var init, w := facts[..|facts| - 1], facts[|facts| - 1];
      assert facts == init + [w];
      BlockTargetsSnoc(apps, init, w, processes);
      MonitorFoldQuiet(apps, t, init, processes);
    }
  }

  /** Running the same tick again on the same facts blocks nothing more and
      emits no event at all. */
  lemma MonitorIdempotent(m: Manager, facts: seq<WindowFacts>, processes: ProcessTable)
    ensures var once := MonitorNotifications(m, facts, processes).manager;
            MonitorNotifications(once, facts, processes) == Transition(once, [])
  {
    var once := MonitorNotifications(m, facts, processes).manager;
    MonitorFoldQuiet(once.applications, Tick(once.blockedWindows, []), facts, processes);
  }

  /** Once an application has been disabled, a tick never announces any of
      its listed windows again. */
  lemma DisabledWindowsStaySilent(m: Manager, name: string, facts: seq<WindowFacts>, processes: ProcessTable)
    requires name in m.applications
    ensures var disabled := SetNotificationEnabled(m, name, false).manager;
            forall h :: h in m.applications[name].notificationWindows ==>
              h !in Blocks(MonitorNotifications(disabled, facts, processes).events)
  {
    var disabled := SetNotificationEnabled(m, name, false).manager;
    var b := Blocks(MonitorNotifications(disabled, facts, processes).events);
    MonitorBlocksOnce(disabled, facts, processes);
    forall h | h in m.applications[name].notificationWindows
      ensures h !in b
    {
      assert h in disabled.blockedWindows;
      assert h in b ==> h in Elements(b);
    }
  }

  // ---------------------------------------------------------------------
  // The order of the calls
  // ---------------------------------------------------------------------

  /** The show and hide calls of a policy: all shows of the listed windows
      in list order when enabled, all hides when disabled, and never an
      announcement. */
  lemma {:induction false} PolicyEffectsProjections(windows: seq<Handle>, enabled: bool)
    ensures Blocks(PolicyEffects(windows, enabled)) == []
    ensures Hides(PolicyEffects(windows, enabled)) == (if enabled then [] else windows)
    ensures Shows(PolicyEffects(windows, enabled)) == (if enabled then windows else [])
    decreases |windows|
  {
    if |windows| > 0 {
      var init := windows[..|windows| - 1];
      var effects := PolicyEffects(windows, enabled);
      assert effects[..|effects| - 1] == PolicyEffects(init, enabled);
      PolicyEffectsProjections(init, enabled);
      assert windows == init + [windows[|windows| - 1]];
    }
  }

  /** Property notifications neither show, hide nor announce a window. */
  lemma {:induction false} RaisedProjections(name: string, properties: seq<string>)
    ensures Blocks(Raised(name, properties)) == []
    ensures Hides(Raised(name, properties)) == []
    ensures Shows(Raised(name, properties)) == []
    decreases |properties|
  {
    if |properties| > 0 {
      var r := Raised(name, properties);
      assert r[..|r| - 1] == Raised(name, properties[..|properties| - 1]);
      RaisedProjections(name, properties[..|properties| - 1]);
    }
  }

  /** A policy change on a registered application shows every listed window
      (enabled) or hides every listed window (disabled), in list order, does
      nothing else to windows and announces no block. */
  lemma SetNotificationEnabledCalls(m: Manager, name: string, enabled: bool)
    requires name in m.applications
    ensures var events := SetNotificationEnabled(m, name, enabled).events;
            var windows := m.applications[name].notificationWindows;
            && Blocks(events) == []
            && Hides(events) == (if enabled then [] else windows)
            && Shows(events) == (if enabled then windows else [])
  {
    var app := m.applications[name];
    var raised := SetNotificationsEnabled(app, enabled).raised;
    assert SetNotificationEnabled(m, name, enabled).events ==
           Raised(name, raised) + PolicyEffects(app.notificationWindows, enabled);
    BlocksHidesAppend(Raised(name, raised), PolicyEffects(app.notificationWindows, enabled));
    RaisedProjections(name, raised);
    PolicyEffectsProjections(app.notificationWindows, enabled);
  }

  /** A trace made of pairs: the hide of a window immediately followed by
      the announcement of the same window. */
  predicate HideAnnouncePairs(events: seq<Event>)
    decreases |events|
  {
    if |events| == 0 then true
    else
      && |events| >= 2
      && events[|events| - 2].HideWindow?
      && events[|events| - 1].NotificationBlocked?
      && events[|events| - 1].window == events[|events| - 2].window
      && HideAnnouncePairs(events[..|events| - 2])
  }

  lemma {:induction false} MonitorFoldPairs(apps: map<string, ApplicationInfo>, t: Tick, facts: seq<WindowFacts>,
                                            processes: ProcessTable)
    requires HideAnnouncePairs(t.events)
    ensures HideAnnouncePairs(MonitorFold(apps, t, facts, processes).events)
    decreases |facts|
  {
    if |facts| > 0 {
      var init, w := facts[..|facts| - 1], facts[|facts| - 1];
      var q := MonitorFold(apps, t, init, processes);
      MonitorFoldPairs(apps, t, init, processes);
      if ShouldBlock(apps, w, processes) && w.handle !in q.blocked {
        var app := apps[Candidate(w, processes).value.name];
        var e := q.events + [HideWindow(w.handle), NotificationBlocked(app, w.handle)];
        assert e[..|e| - 2] == q.events;
      }
    }
  }

  /** In a paired trace every announcement comes right after the hide of
      the same window. */
  lemma {:induction false} PairsAdjacent(events: seq<Event>)
    requires HideAnnouncePairs(events)
    ensures forall i :: 0 <= i < |events| && events[i].NotificationBlocked? ==>
              0 < i && events[i - 1] == HideWindow(events[i].window)
    decreases |events|
  {
    if |events| > 0 {
      var init := events[..|events| - 2];
      PairsAdjacent(init);
      forall i | 0 <= i < |events| && events[i].NotificationBlocked?
        ensures 0 < i && events[i - 1] == HideWindow(events[i].window)
      {
        if i < |init| {
          assert events[i] == init[i];
          assert events[i - 1] == init[i - 1];
        }
      }
    }
  }

  /** A tick makes only hide-then-announce pairs: each `NotificationBlocked`
      comes right after the hide of the same window. */
  lemma MonitorHideThenAnnounce(m: Manager, facts: seq<WindowFacts>, processes: ProcessTable)
    ensures var events := MonitorNotifications(m, facts, processes).events;
            && HideAnnouncePairs(events)
            && forall i :: 0 <= i < |events| && events[i].NotificationBlocked? ==>
                 0 < i && events[i - 1] == HideWindow(events[i].window)
  {
    MonitorFoldPairs(m.applications, Tick(m.blockedWindows, []), facts, processes);
    PairsAdjacent(MonitorNotifications(m, facts, processes).events);
  }

  // ---------------------------------------------------------------------
  // The registry invariant across all operations
  // ---------------------------------------------------------------------

  /** The empty manager is well formed, and every operation keeps the
      registry well formed. */
  lemma OperationsPreserveWellFormed(m: Manager, facts: seq<WindowFacts>, processes: ProcessTable,
                                     name: string, enabled: bool)
    requires WellFormed(m.applications)
    ensures WellFormed(InitialManager.applications)
    ensures WellFormed(RefreshApplicationList(m, facts, processes).manager.applications)
    ensures WellFormed(SetNotificationEnabled(m, name, enabled).manager.applications)
    ensures WellFormed(MonitorNotifications(m, facts, processes).manager.applications)
  {
    RefreshWellFormed(m, facts, processes);
  }
}
