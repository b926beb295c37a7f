/** The application registry of the notification manager and its
    reconciliation pass (`RefreshApplicationList`): one enumeration of the
    top-level windows adds the applications not seen before, attaches their
    notification windows without duplicates, and drops every application that
    the pass did not observe. */
module Registry {
  import opened Common
  import opened Windows
  import opened ApplicationModel
  import opened Classifier

  /** What the manager learns about a process id: the process name from
      `Process.GetProcessById` and the best-effort executable path (empty when
      it cannot be read). A pid missing from the table is one whose lookup
      throws, which the source turns into `null`. */
  datatype ProcessRecord = ProcessRecord(processName: string, executablePath: string)

  type ProcessTable = map<nat, ProcessRecord>

  /** Everything the manager makes observable, in order: its two events, the
      `PropertyChanged` notifications of the records it mutates, and the
      `ShowWindow` calls it issues. */
  datatype Event =
    | ApplicationDiscovered(app: ApplicationInfo)
    | NotificationBlocked(app: ApplicationInfo, window: Handle)
    | PropertyChanged(appName: string, property: string)
    | HideWindow(window: Handle)
    | ShowWindow(window: Handle)

  /** The manager's state: applications keyed by process name, and the
      handles it has hidden. */
  datatype Manager = Manager(applications: map<string, ApplicationInfo>, blockedWindows: set<Handle>)

  const InitialManager: Manager := Manager(map[], {})

  /** The new state after an operation, with what the operation made
      observable. */
  datatype Transition = Transition(manager: Manager, events: seq<Event>)

  /** Each registered record is filed under its own name and lists every
      window handle once. */
  ghost predicate WellFormed(apps: map<string, ApplicationInfo>)
  {
    forall n :: n in apps ==> apps[n].name == n && NoDup(apps[n].notificationWindows)
  }

  /** `GetApplicationInfoFromWindow`: a fresh record for the window's owning
      process, or nothing when the process cannot be resolved. */
  function ApplicationInfoFromWindow(w: WindowFacts, processes: ProcessTable): (r: Option<ApplicationInfo>)
    ensures r.Some? <==> w.processId in processes
    ensures r.Some? ==>
      && r.value.name == processes[w.processId].processName
      && r.value.processId == w.processId
      && r.value.executablePath == processes[w.processId].executablePath
      && r.value.notificationsEnabled
      && r.value.notificationCount == 0
      && r.value.notificationWindows == []
  {
    if w.processId in processes then
      var p := processes[w.processId];
      Some(NewApplicationInfo().(name := p.processName, processId := w.processId, executablePath := p.executablePath))
    else
      None
  }

  /** The record a window contributes to a pass: it must be classified as a
      notification, and its process must resolve to a non-empty name. */
  function Candidate(w: WindowFacts, processes: ProcessTable): Option<ApplicationInfo>
  {
    if !IsNotificationWindow(w) then None
    else match ApplicationInfoFromWindow(w, processes)
      case None => None
      case Some(info) => if info.name == "" then None else Some(info)
  }

  /** The window counts for application `name` in a pass. */
  predicate CountsFor(w: WindowFacts, processes: ProcessTable, name: string)
  {
    Candidate(w, processes).Some? && Candidate(w, processes).value.name == name
  }

  /** The names observed by a pass: the non-empty process names of the
      classified windows. */
  ghost function ObservedNames(facts: seq<WindowFacts>, processes: ProcessTable): set<string>
  {
    set w | w in facts && Candidate(w, processes).Some? :: Candidate(w, processes).value.name
  }

  /** The handles of the windows a pass attributes to `name`. */
  ghost function HandlesFor(facts: seq<WindowFacts>, processes: ProcessTable, name: string): set<Handle>
  {
    set w | w in facts && CountsFor(w, processes, name) :: w.handle
  }

  /** The `PropertyChanged` notifications a record named `name` raised. */
  function Raised(name: string, properties: seq<string>): (r: seq<Event>)
    ensures |r| == |properties|
    ensures forall i :: 0 <= i < |r| ==> r[i] == PropertyChanged(name, properties[i])
  {
    seq(|properties|, i requires 0 <= i < |properties| => PropertyChanged(name, properties[i]))
  }

  /** The names of the applications announced by `ApplicationDiscovered`
      events, in order. */
  function Discoveries(events: seq<Event>): seq<string>
  {
    if |events| == 0 then []
    else
      var last := events[|events| - 1];
      Discoveries(events[..|events| - 1]) + (if last.ApplicationDiscovered? then [last.app.name] else [])
  }

  lemma {:induction false} DiscoveriesAppend(a: seq<Event>, b: seq<Event>)
    ensures Discoveries(a + b) == Discoveries(a) + Discoveries(b)
    decreases |b|
  {
    if |b| > 0 {
      var b' := b[..|b| - 1];
      assert (a + b)[..|a + b| - 1] == a + b';
      DiscoveriesAppend(a, b');
    } else {
      assert a + b == a;
    }
  }

  lemma NoDiscoveries(name: string, properties: seq<string>)
    ensures Discoveries(Raised(name, properties)) == []
    decreases |properties|
  {
    if |properties| > 0 {
      var r := Raised(name, properties);
      assert r[..|r| - 1] == Raised(name, properties[..|properties| - 1]);
      NoDiscoveries(name, properties[..|properties| - 1]);
    }
  }

  // ---------------------------------------------------------------------
  // One reconciliation pass
  // ---------------------------------------------------------------------

  /** The state of a pass in progress: the registry as mutated so far, the
      names observed so far (`discoveredApps`), and the events so far. */
  datatype Pass = Pass(applications: map<string, ApplicationInfo>, discovered: set<string>, events: seq<Event>)

  /** The enumeration callback of `RefreshApplicationList` for one window. */
  function RefreshStep(p: Pass, w: WindowFacts, processes: ProcessTable): Pass
  {
    match Candidate(w, processes)
    case None => p
    case Some(info) =>
      var n := info.name;
      var isNew := n !in p.applications;
      var apps := if isNew then p.applications[n := info] else p.applications;
      var announced := if isNew then [ApplicationDiscovered(info)] else [];
      var existing := apps[n];
      if w.handle in existing.notificationWindows then
        Pass(apps, p.discovered + {n}, p.events + announced)
      else
        var attached := AttachWindow(existing, w.handle);
        Pass(apps[n := attached.app], p.discovered + {n}, p.events + announced + Raised(n, attached.raised))
  }

  /** The callback applied to every window, in enumeration order. */
  function RefreshFold(p: Pass, facts: seq<WindowFacts>, processes: ProcessTable): Pass
  {
    if |facts| == 0 then p
    else RefreshStep(RefreshFold(p, facts[..|facts| - 1], processes), facts[|facts| - 1], processes)
  }

  /** `RefreshApplicationList`: run the callback over the enumeration, then
      remove every application whose name the pass did not observe. The
      blocked set is not touched. */
  function RefreshApplicationList(m: Manager, facts: seq<WindowFacts>, processes: ProcessTable): (r: Transition)
    ensures r.manager.blockedWindows == m.blockedWindows
    ensures r.manager.applications.Keys == ObservedNames(facts, processes)
  {
    var p := RefreshFold(Pass(m.applications, {}, []), facts, processes);
    FoldDomain(Pass(m.applications, {}, []), facts, processes);
    Transition(
      Manager(map n | n in p.applications && n in p.discovered :: p.applications[n], m.blockedWindows),
      p.events)
  }

  // ---------------------------------------------------------------------
  // Facts about the sets a pass observes
  // ---------------------------------------------------------------------

  lemma ObservedSnoc(init: seq<WindowFacts>, w: WindowFacts, processes: ProcessTable)
    ensures ObservedNames(init + [w], processes) ==
            ObservedNames(init, processes) + (if Candidate(w, processes).Some? then {Candidate(w, processes).value.name} else {})
  {
    var facts := init + [w];
    assert forall x :: x in facts <==> x in init || x == w;
  }

  lemma HandlesForSnoc(init: seq<WindowFacts>, w: WindowFacts, processes: ProcessTable, name: string)
    ensures HandlesFor(init + [w], processes, name) ==
            HandlesFor(init, processes, name) + (if CountsFor(w, processes, name) then {w.handle} else {})
  {
    var facts := init + [w];
    assert forall x :: x in facts <==> x in init || x == w;
  }

  lemma HandlesForUnobserved(facts: seq<WindowFacts>, processes: ProcessTable, name: string)
    requires name !in ObservedNames(facts, processes)
    ensures HandlesFor(facts, processes, name) == {}
  {
  }

  // ---------------------------------------------------------------------
  // Invariants of the callback, by induction over the enumeration
  // ---------------------------------------------------------------------

  /** The registry grows by exactly the observed names, and every observed
      name is registered. */
  lemma {:induction false} FoldDomain(p: Pass, facts: seq<WindowFacts>, processes: ProcessTable)
    ensures RefreshFold(p, facts, processes).discovered == p.discovered + ObservedNames(facts, processes)
    ensures RefreshFold(p, facts, processes).applications.Keys == p.applications.Keys + ObservedNames(facts, processes)
    decreases |facts|
  {
    if |facts| > 0 {
      var init, w := facts[..|facts| - 1], facts[|facts| - 1];
      assert facts == init + [w];
      FoldDomain(p, init, processes);
      ObservedSnoc(init, w, processes);
    }
  }

  /** The callback keeps every record filed under its name and free of
      duplicate handles. */
  lemma {:induction false} FoldWellFormed(p: Pass, facts: seq<WindowFacts>, processes: ProcessTable)
    requires WellFormed(p.applications)
    ensures WellFormed(RefreshFold(p, facts, processes).applications)
    decreases |facts|
  {
    if |facts| > 0 {
      var init, w := facts[..|facts| - 1], facts[|facts| - 1];
      FoldWellFormed(p, init, processes);
      var q := RefreshFold(p, init, processes);
      if Candidate(w, processes).Some? {
        var n := Candidate(w, processes).value.name;
        var apps := if n !in q.applications then q.applications[n := Candidate(w, processes).value] else q.applications;
        assert WellFormed(apps);
        if w.handle !in apps[n].notificationWindows {
          NoDupAppend(apps[n].notificationWindows, w.handle);
        }
      }
    }
  }

  /** A record registered before the pass keeps its name, process id, path
      and policy flag; its window list only grows at the end. */
  lemma {:induction false} FoldKeepsExisting(p: Pass, facts: seq<WindowFacts>, processes: ProcessTable, n: string)
    requires n in p.applications
    ensures n in RefreshFold(p, facts, processes).applications
    ensures var before, after := p.applications[n], RefreshFold(p, facts, processes).applications[n];
      && after.name == before.name
      && after.processId == before.processId
      && after.executablePath == before.executablePath
      && after.notificationsEnabled == before.notificationsEnabled
      && before.notificationWindows <= after.notificationWindows
    decreases |facts|
  {
    if |facts| > 0 {
      FoldKeepsExisting(p, facts[..|facts| - 1], processes, n);
    }
  }

  /** `k` is the first position of the enumeration whose window counts for
      `n`. */
  ghost predicate FirstCountedAt(facts: seq<WindowFacts>, processes: ProcessTable, n: string, k: int)
  {
    && 0 <= k < |facts|
    && CountsFor(facts[k], processes, n)
    && forall j :: 0 <= j < k ==> !CountsFor(facts[j], processes, n)
  }

  /** A record created during the pass is filed under its name, starts with
      notifications enabled, and carries the process id and path of the first
      window counted for it; later windows only attach. */
  lemma {:induction false} FoldNewEntries(p: Pass, facts: seq<WindowFacts>, processes: ProcessTable, n: string)
    requires n !in p.applications
    requires n in RefreshFold(p, facts, processes).applications
    ensures var after := RefreshFold(p, facts, processes).applications[n];
      && after.name == n
      && after.notificationsEnabled
      && exists k :: FirstCountedAt(facts, processes, n, k)
           && after.processId == facts[k].processId
           && after.executablePath == processes[facts[k].processId].executablePath
    decreases |facts|
  {
    var init, w := facts[..|facts| - 1], facts[|facts| - 1];
    var q := RefreshFold(p, init, processes);
    if n in q.applications {
      FoldNewEntries(p, init, processes, n);
      var before := q.applications[n];
      var k :| FirstCountedAt(init, processes, n, k)
           && before.processId == init[k].processId
           && before.executablePath == processes[init[k].processId].executablePath;
      assert init[k] == facts[k];
      assert forall j :: 0 <= j < k ==> init[j] == facts[j];
      assert FirstCountedAt(facts, processes, n, k);
    } else {
      FoldDomain(p, init, processes);
      forall j | 0 <= j < |init|
        ensures !CountsFor(facts[j], processes, n)
      {
        assert facts[j] == init[j] && init[j] in init;
      }
      assert CountsFor(w, processes, n);
      assert FirstCountedAt(facts, processes, n, |init|);
    }
  }

  /** The windows a record had before (none when it did not exist). */
  ghost function BaseWindows(apps: map<string, ApplicationInfo>, n: string): seq<Handle>
  {
    if n in apps then apps[n].notificationWindows else []
  }

  /** The counter a record had before (zero when it did not exist). */
  ghost function BaseCount(apps: map<string, ApplicationInfo>, n: string): int
  {
    if n in apps then apps[n].notificationCount as int else 0
  }

  /** Between `before` and `after`, record `n` gained exactly the handles
      `added` on top of the ones it had, at the end of its list, and its
      counter stepped once per list entry added, modulo 2^32. */
  ghost predicate Accounts(before: map<string, ApplicationInfo>, after: map<string, ApplicationInfo>, n: string, added: set<Handle>)
  {
    && n in after
    && Elements(after[n].notificationWindows) == Elements(BaseWindows(before, n)) + added
    && |BaseWindows(before, n)| <= |after[n].notificationWindows|
    && (after[n].notificationCount as int - BaseCount(before, n)
        - (|after[n].notificationWindows| - |BaseWindows(before, n)|)) % Int32Modulus == 0
  }

  lemma AccountsCompose(a: map<string, ApplicationInfo>, b: map<string, ApplicationInfo>, c: map<string, ApplicationInfo>,
                        n: string, first: set<Handle>, second: set<Handle>)
    requires Accounts(a, b, n, first) && Accounts(b, c, n, second)
    ensures Accounts(a, c, n, first + second)
  {
    var wa, wb, wc := BaseWindows(a, n), b[n].notificationWindows, c[n].notificationWindows;
    CongruenceAdd(b[n].notificationCount as int - BaseCount(a, n) - (|wb| - |wa|),
                  c[n].notificationCount as int - b[n].notificationCount as int - (|wc| - |wb|));
  }

  /** Two registries that agree on record `n` account for the same change. */
  lemma AccountsRebase(a: map<string, ApplicationInfo>, b: map<string, ApplicationInfo>, c: map<string, ApplicationInfo>,
                       n: string, added: set<Handle>)
    requires BaseWindows(a, n) == BaseWindows(b, n) && BaseCount(a, n) == BaseCount(b, n)
    requires Accounts(b, c, n, added)
    ensures Accounts(a, c, n, added)
  {
  }

  /** One callback adds the window's handle to the record it counts for,
      unless the record lists it already, and steps that record's counter once
      per handle added. */
  lemma StepWindows(q: Pass, w: WindowFacts, processes: ProcessTable, n: string)
    requires n in RefreshStep(q, w, processes).applications
    ensures Accounts(q.applications, RefreshStep(q, w, processes).applications, n,
                     if CountsFor(w, processes, n) then {w.handle} else {})
  {
    match Candidate(w, processes)
    case None =>
    case Some(info) =>
      if info.name == n {
        var apps := if n !in q.applications then q.applications[n := info] else q.applications;
        var existing := apps[n];
        if w.handle !in existing.notificationWindows {
          var attached := AttachWindow(existing, w.handle);
          assert Elements(attached.app.notificationWindows) == Elements(existing.notificationWindows) + {w.handle};
        }
      }
  }

  /** The first callback that counts a window for `n` creates the record
      with exactly that window's handle, when `n` was unknown before. */
  lemma FreshRecordAccounts(p: Pass, init: seq<WindowFacts>, w: WindowFacts, processes: ProcessTable, n: string)
    requires n !in RefreshFold(p, init, processes).applications
    requires n in RefreshStep(RefreshFold(p, init, processes), w, processes).applications
    ensures Accounts(p.applications, RefreshStep(RefreshFold(p, init, processes), w, processes).applications, n,
                     HandlesFor(init + [w], processes, n))
  {
    var q := RefreshFold(p, init, processes);
    StepWindows(q, w, processes, n);
    HandlesForSnoc(init, w, processes, n);
    FoldDomain(p, init, processes);
    HandlesForUnobserved(init, processes, n);
    assert HandlesFor(init + [w], processes, n) == if CountsFor(w, processes, n) then {w.handle} else {};
    AccountsRebase(p.applications, q.applications, RefreshStep(q, w, processes).applications, n,
                   HandlesFor(init + [w], processes, n));
  }

  /** The windows of a record after the pass are the ones it had (none for a
      record the pass created) plus the handles of the windows counted for it,
      and its counter has stepped once per handle added, modulo 2^32. */
  lemma {:induction false} FoldWindows(p: Pass, facts: seq<WindowFacts>, processes: ProcessTable, n: string)
    requires n in RefreshFold(p, facts, processes).applications
    ensures Accounts(p.applications, RefreshFold(p, facts, processes).applications, n, HandlesFor(facts, processes, n))
    decreases |facts|
  {
    if |facts| == 0 {
      return;
    }
    var init, w := facts[..|facts| - 1], facts[|facts| - 1];
    assert facts == init + [w];
    var q := RefreshFold(p, init, processes);
    if n in q.applications {
      HandlesForSnoc(init, w, processes, n);
      StepWindows(q, w, processes, n);
      FoldWindows(p, init, processes, n);
      AccountsCompose(p.applications, q.applications, RefreshStep(q, w, processes).applications, n,
                      HandlesFor(init, processes, n), if CountsFor(w, processes, n) then {w.handle} else {});
    } else {
      FreshRecordAccounts(p, init, w, processes, n);
    }
  }

  /** One callback announces `n` exactly when the window counts for `n` and
      `n` is not registered yet. */
  lemma StepDiscoveries(q: Pass, w: WindowFacts, processes: ProcessTable, n: string)
    ensures multiset(Discoveries(RefreshStep(q, w, processes).events))[n] ==
            multiset(Discoveries(q.events))[n] +
            (if CountsFor(w, processes, n) && n !in q.applications then 1 else 0)
  {
    match Candidate(w, processes)
    case None =>
    case Some(info) =>
      var isNew := info.name !in q.applications;
      var apps := if isNew then q.applications[info.name := info] else q.applications;
      var announced := if isNew then [ApplicationDiscovered(info)] else [];
      DiscoveriesAppend(q.events, announced);
      assert Discoveries(announced) == if isNew then [info.name] else [];
      if w.handle !in apps[info.name].notificationWindows {
        var attached := AttachWindow(apps[info.name], w.handle);
        DiscoveriesAppend(q.events + announced, Raised(info.name, attached.raised));
        NoDiscoveries(info.name, attached.raised);
      }
  }

  /** Discovery happens at most once per name per pass, and exactly for the
      observed names that were not registered before the pass. */
  lemma {:induction false} FoldDiscoveries(p: Pass, facts: seq<WindowFacts>, processes: ProcessTable, n: string)
    ensures multiset(Discoveries(RefreshFold(p, facts, processes).events))[n] ==
            multiset(Discoveries(p.events))[n] +
            (if n in ObservedNames(facts, processes) && n !in p.applications then 1 else 0)
    decreases |facts|
  {
    if |facts| > 0 {
      var init, w := facts[..|facts| - 1], facts[|facts| - 1];
      assert facts == init + [w];
      FoldDiscoveries(p, init, processes, n);
      FoldDomain(p, init, processes);
      ObservedSnoc(init, w, processes);
      StepDiscoveries(RefreshFold(p, init, processes), w, processes, n);
    }
  }

  /** A window that no pass attributes to any application leaves the pass
      state as it was. */
  lemma {:induction false} FoldWithoutCandidates(p: Pass, facts: seq<WindowFacts>, processes: ProcessTable)
    requires forall w :: w in facts ==> Candidate(w, processes).None?
    ensures RefreshFold(p, facts, processes) == p
    decreases |facts|
  {
    if |facts| > 0 {
      FoldWithoutCandidates(p, facts[..|facts| - 1], processes);
    }
  }

  // ---------------------------------------------------------------------
  // Properties of a whole reconciliation pass
  // ---------------------------------------------------------------------

  /** The pass keeps every record filed under its name and free of duplicate
      handles. */
  lemma RefreshWellFormed(m: Manager, facts: seq<WindowFacts>, processes: ProcessTable)
    requires WellFormed(m.applications)
    ensures WellFormed(RefreshApplicationList(m, facts, processes).manager.applications)
  {
    FoldWellFormed(Pass(m.applications, {}, []), facts, processes);
  }

  /** `ApplicationDiscovered` fires for `n` once when the pass observes `n`
      and `n` was not registered before, and never otherwise. */
  lemma RefreshDiscoversNewNames(m: Manager, facts: seq<WindowFacts>, processes: ProcessTable, n: string)
    ensures multiset(Discoveries(RefreshApplicationList(m, facts, processes).events))[n] ==
            if n in ObservedNames(facts, processes) && n !in m.applications then 1 else 0
  {
    FoldDiscoveries(Pass(m.applications, {}, []), facts, processes, n);
  }

  /** The discovery events of a pass name each newly observed application
      exactly once and nothing else. */
  lemma RefreshDiscoveriesDistinct(m: Manager, facts: seq<WindowFacts>, processes: ProcessTable)
    ensures var d := Discoveries(RefreshApplicationList(m, facts, processes).events);
            NoDup(d) && Elements(d) == ObservedNames(facts, processes) - m.applications.Keys
  {
    var d := Discoveries(RefreshApplicationList(m, facts, processes).events);
    forall i | 0 <= i < |d|
      ensures multiset(d)[d[i]] <= 1
    {
      RefreshDiscoversNewNames(m, facts, processes, d[i]);
    }
    NoDupFromCounts(d);
    forall n | n in ObservedNames(facts, processes) - m.applications.Keys
      ensures n in d
    {
      RefreshDiscoversNewNames(m, facts, processes, n);
    }
    forall n | n in d
      ensures n in ObservedNames(facts, processes) - m.applications.Keys
    {
      RefreshDiscoversNewNames(m, facts, processes, n);
    }
  }

  /** A registered application that the pass observes again is kept, not
      replaced: its name, process id, path and policy flag are unchanged and
      its window list only grows at the end. */
  lemma RefreshKeepsExisting(m: Manager, facts: seq<WindowFacts>, processes: ProcessTable, n: string)
    requires n in m.applications && n in ObservedNames(facts, processes)
    ensures n in RefreshApplicationList(m, facts, processes).manager.applications
    ensures var before, after := m.applications[n], RefreshApplicationList(m, facts, processes).manager.applications[n];
      && after.name == before.name
      && after.processId == before.processId
      && after.executablePath == before.executablePath
      && after.notificationsEnabled == before.notificationsEnabled
      && before.notificationWindows <= after.notificationWindows
  {
    FoldKeepsExisting(Pass(m.applications, {}, []), facts, processes, n);
  }

  /** An application the pass registers for the first time starts with
      notifications enabled, is filed under its name, and carries the process
      id and path of the first window, in enumeration order, counted for it. */
  lemma RefreshNewEntry(m: Manager, facts: seq<WindowFacts>, processes: ProcessTable, n: string)
    requires n !in m.applications && n in ObservedNames(facts, processes)
    ensures n in RefreshApplicationList(m, facts, processes).manager.applications
    ensures var after := RefreshApplicationList(m, facts, processes).manager.applications[n];
      && after.name == n
      && after.notificationsEnabled
      && exists k :: FirstCountedAt(facts, processes, n, k)
           && after.processId == facts[k].processId
           && after.executablePath == processes[facts[k].processId].executablePath
  {
    var p0 := Pass(m.applications, {}, []);
    FoldDomain(p0, facts, processes);
    FoldNewEntries(p0, facts, processes, n);
  }

  /** After the pass, every registered application lists the handles it had
      before plus those of the windows counted for it, and its counter has
      stepped once per handle added (modulo 2^32). */
  lemma RefreshWindows(m: Manager, facts: seq<WindowFacts>, processes: ProcessTable, n: string)
    requires n in RefreshApplicationList(m, facts, processes).manager.applications
    ensures Accounts(m.applications, RefreshApplicationList(m, facts, processes).manager.applications, n,
                     HandlesFor(facts, processes, n))
  {
    var p0 := Pass(m.applications, {}, []);
    FoldDomain(p0, facts, processes);
    FoldWindows(p0, facts, processes, n);
  }

  /** When both windows lists are free of duplicates and no wrap-around
      occurs, the counter rose by exactly the number of handles that were new
      to the record. */
  lemma AccountsExactCount(before: map<string, ApplicationInfo>, after: map<string, ApplicationInfo>,
                           n: string, added: set<Handle>)
    requires Accounts(before, after, n, added)
    requires NoDup(BaseWindows(before, n)) && NoDup(after[n].notificationWindows)
    requires BaseCount(before, n) + |added - Elements(BaseWindows(before, n))| <= Int32Max
    ensures after[n].notificationCount as int == BaseCount(before, n) + |added - Elements(BaseWindows(before, n))|
  {
    var base := BaseWindows(before, n);
    var newHandles := added - Elements(base);
    NoDupCardinality(base);
    NoDupCardinality(after[n].notificationWindows);
    assert Elements(after[n].notificationWindows) == Elements(base) + newHandles;
    assert |Elements(after[n].notificationWindows)| == |Elements(base)| + |newHandles|;
    CongruentInRangeAreEqual(after[n].notificationCount as int, BaseCount(before, n) + |newHandles|);
  }

  /** Without wrap-around, `NotificationCount` rises by exactly the number of
      handles newly attached in the pass. */
  lemma RefreshCountsNewHandles(m: Manager, facts: seq<WindowFacts>, processes: ProcessTable, n: string)
    requires WellFormed(m.applications)
    requires n in ObservedNames(facts, processes)
    requires BaseCount(m.applications, n)
             + |HandlesFor(facts, processes, n) - Elements(BaseWindows(m.applications, n))| <= Int32Max
    ensures RefreshApplicationList(m, facts, processes).manager.applications[n].notificationCount as int ==
            BaseCount(m.applications, n) + |HandlesFor(facts, processes, n) - Elements(BaseWindows(m.applications, n))|
  {
    var after := RefreshApplicationList(m, facts, processes).manager.applications;
    RefreshWindows(m, facts, processes, n);
    RefreshWellFormed(m, facts, processes);
    assert NoDup(BaseWindows(m.applications, n));
    assert NoDup(after[n].notificationWindows);
    AccountsExactCount(m.applications, after, n, HandlesFor(facts, processes, n));
  }

  /** A pass in which no window counts for any application empties the
      registry and makes nothing observable. */
  lemma RefreshWithoutCandidates(m: Manager, facts: seq<WindowFacts>, processes: ProcessTable)
    requires forall w :: w in facts ==> Candidate(w, processes).None?
    ensures RefreshApplicationList(m, facts, processes) == Transition(Manager(map[], m.blockedWindows), [])
  {
    FoldWithoutCandidates(Pass(m.applications, {}, []), facts, processes);
  }

  /** An application that vanishes for one pass is forgotten: when it shows up
      again it is announced afresh and its notifications are enabled again,
      whatever its policy was. */
  lemma RefreshForgetsVanished(m: Manager, first: seq<WindowFacts>, second: seq<WindowFacts>,
                               processes: ProcessTable, n: string)
    requires n !in ObservedNames(first, processes) && n in ObservedNames(second, processes)
    ensures var m1 := RefreshApplicationList(m, first, processes).manager;
            var r2 := RefreshApplicationList(m1, second, processes);
            && n !in m1.applications
            && multiset(Discoveries(r2.events))[n] == 1
            && n in r2.manager.applications
            && r2.manager.applications[n].notificationsEnabled
  {
    var m1 := RefreshApplicationList(m, first, processes).manager;
    RefreshDiscoversNewNames(m1, second, processes, n);
    RefreshNewEntry(m1, second, processes, n);
  }

  /** `GetAllApplications`: one reconciliation pass, then a snapshot of the
      registered records, one per registry entry, in no particular order. */
  method GetAllApplications(m: Manager, facts: seq<WindowFacts>, processes: ProcessTable)
    returns (next: Manager, events: seq<Event>, snapshot: seq<ApplicationInfo>)
    ensures Transition(next, events) == RefreshApplicationList(m, facts, processes)
    ensures |snapshot| == |next.applications|
    ensures forall a :: a in snapshot <==> a in next.applications.Values
  {
    var r := RefreshApplicationList(m, facts, processes);
    next, events := r.manager, r.events;
    var remaining := next.applications.Keys;
    snapshot := [];
    while remaining != {}
      invariant remaining <= next.applications.Keys
      invariant |snapshot| + |remaining| == |next.applications|
      invariant forall a :: a in snapshot ==> a in next.applications.Values
      invariant forall k :: k in next.applications && k !in remaining ==> next.applications[k] in snapshot
      decreases remaining
    {
      var k :| k in remaining;
      snapshot := snapshot + [next.applications[k]];
      remaining := remaining - {k};
    }
  }
}
