/** What every run of the scheduler keeps, through any crashes and resumes. */
module ScheduleLaws {
  import opened Words
  import opened Schedule

  // ----- accounting -----

  predicate ProjectAccounts(m: Manifest, s: Snapshot, p: Project) {
    && p.id in s.projects
    && s.projects[p.id].dispatched == Total(m.campaigns, s.campaigns, AttemptsIn(p.id))
    && s.projects[p.id].reservedCases == Total(m.campaigns, s.campaigns, ReservedIn(p.id))
    && (p.caseBudget.Some? ==> s.projects[p.id].reservedCases <= p.caseBudget.value)
    && Total(m.campaigns, s.campaigns, RunningIn(p.id)) <= p.maxConcurrent
  }

  ghost predicate EventsAccount(s: Snapshot) {
    forall id :: id in s.campaigns ==> multiset(s.events)[Event(Started, id)] == s.campaigns[id].attempts
  }

  /** The invariant of every persisted state. */
  ghost predicate Accounted(m: Manifest, s: Snapshot) {
    && Covers(m, s)
    && (forall i :: 0 <= i < |m.projects| ==> ProjectAccounts(m, s, m.projects[i]))
    && Total(m.campaigns, s.campaigns, RunningAny()) <= m.globalMax
    && EventsAccount(s)
  }

  ghost predicate NoRepeats(xs: seq<string>) {
    forall i, j :: 0 <= i < j < |xs| ==> xs[i] != xs[j]
  }

  /** The children of a live scheduler are the campaigns marked running, counted the same both ways. */
  ghost predicate Tracks(m: Manifest, l: Live) {
    && NoRepeats(l.running)
    && (forall id :: id in l.running <==> id in l.s.campaigns && l.s.campaigns[id].status == Running)
    && |l.running| == Total(m.campaigns, l.s.campaigns, RunningAny())
    && forall p :: RunningCount(m, l.running, p) == Total(m.campaigns, l.s.campaigns, RunningIn(p))
  }

  ghost predicate Invariant(m: Manifest, l: Live) {
    ValidManifest(m) && Accounted(m, l.s) && Tracks(m, l)
  }

  lemma CampaignWithId(m: Manifest, s: Snapshot, id: string) returns (c: Campaign)
    requires ValidManifest(m) && Covers(m, s) && id in s.campaigns
    ensures c in m.campaigns && c.id == id && ProjectOf(m, id) == Some(c.project) && c.project in s.projects
  {
    var i :| 0 <= i < |m.campaigns| && m.campaigns[i].id == id;
    c := m.campaigns[i];
    FindsProject(m.campaigns, i);
    Covered(m, s, c);
  }

  lemma {:induction false} FindsProject(cs: seq<Campaign>, i: nat)
    requires Distinct(cs) && i < |cs|
    ensures FindProject(cs, cs[i].id) == Some(cs[i].project)
  {
    if i > 0 {
      assert cs[0].id != cs[i].id;
      assert Distinct(cs[1..]) by { assert forall j :: 0 <= j < |cs[1..]| ==> cs[1..][j] == cs[j + 1]; }
      FindsProject(cs[1..], i - 1);
    }
  }

  /** The sums of a project after one campaign's record changed. */
  lemma SumsAfterUpdate(m: Manifest, s: Snapshot, c: Campaign, v: CampaignState, p: string)
    requires ValidManifest(m) && c in m.campaigns && c.id in s.campaigns
    ensures var st, st', was := s.campaigns, s.campaigns[c.id := v], s.campaigns[c.id];
            && Total(m.campaigns, st', AttemptsIn(p)) + Attempts(c.project == p, was, 1)
               == Total(m.campaigns, st, AttemptsIn(p)) + Attempts(c.project == p, v, 1)
            && Total(m.campaigns, st', ReservedIn(p)) + Attempts(c.project == p, was, c.reserveCases)
               == Total(m.campaigns, st, ReservedIn(p)) + Attempts(c.project == p, v, c.reserveCases)
            && Total(m.campaigns, st', RunningIn(p)) + One(c.project == p && was.status == Running)
               == Total(m.campaigns, st, RunningIn(p)) + One(c.project == p && v.status == Running)
            && Total(m.campaigns, st', RunningAny()) + One(was.status == Running)
               == Total(m.campaigns, st, RunningAny()) + One(v.status == Running)
  {
    hide Total, Attempts, One;
    TotalUpdate(m.campaigns, s.campaigns, AttemptsIn(p), c, v);
    TotalUpdate(m.campaigns, s.campaigns, ReservedIn(p), c, v);
    TotalUpdate(m.campaigns, s.campaigns, RunningIn(p), c, v);
    TotalUpdate(m.campaigns, s.campaigns, RunningAny(), c, v);
  }

  lemma CoversSameKeys(m: Manifest, s: Snapshot, s': Snapshot)
    requires Covers(m, s) && s'.projects.Keys == s.projects.Keys && s'.campaigns.Keys == s.campaigns.Keys
    ensures Covers(m, s')
  {
    assert forall id :: id in s'.projects <==> id in s'.projects.Keys;
    assert forall id :: id in s'.campaigns <==> id in s'.campaigns.Keys;
    assert forall id :: id in s.projects <==> id in s.projects.Keys;
    assert forall id :: id in s.campaigns <==> id in s.campaigns.Keys;
  }

  lemma StartedCount(events: seq<Event>, e: Event, id: string)
    ensures multiset(events + [e])[Event(Started, id)]
            == multiset(events)[Event(Started, id)] + One(e == Event(Started, id))
  {
  }

  // ----- leaving the pending or running state -----

  lemma EventsAfterStatus(s: Snapshot, id: string, status: Status, kind: Kind)
    requires EventsAccount(s) && id in s.campaigns && kind != Started
    ensures EventsAccount(SetStatus(s, id, status, kind))
  {
    var s' := SetStatus(s, id, status, kind);
    forall x | x in s'.campaigns ensures multiset(s'.events)[Event(Started, x)] == s'.campaigns[x].attempts {
      StartedCount(s.events, Event(kind, id), x);
    }
  }

  lemma SumsAfterStatus(m: Manifest, s: Snapshot, c: Campaign, status: Status, kind: Kind, p: string)
    requires ValidManifest(m) && c in m.campaigns && c.id in s.campaigns && status != Running
    ensures var s', was := SetStatus(s, c.id, status, kind), s.campaigns[c.id].status == Running;
            && Total(m.campaigns, s'.campaigns, AttemptsIn(p)) == Total(m.campaigns, s.campaigns, AttemptsIn(p))
            && Total(m.campaigns, s'.campaigns, ReservedIn(p)) == Total(m.campaigns, s.campaigns, ReservedIn(p))
            && Total(m.campaigns, s'.campaigns, RunningIn(p)) + One(c.project == p && was)
                == Total(m.campaigns, s.campaigns, RunningIn(p))
            && Total(m.campaigns, s'.campaigns, RunningAny()) + One(was)
                == Total(m.campaigns, s.campaigns, RunningAny())
  {
    hide Total, ValidManifest;
    SumsAfterUpdate(m, s, c, s.campaigns[c.id].(status := status), p);
  }

  lemma StatusKeepsProject(m: Manifest, s: Snapshot, c: Campaign, status: Status, kind: Kind, p: Project)
    requires ValidManifest(m) && c in m.campaigns && c.id in s.campaigns && status != Running
    requires ProjectAccounts(m, s, p)
    ensures ProjectAccounts(m, SetStatus(s, c.id, status, kind), p)
  {
    hide Total, ValidManifest;
    SumsAfterStatus(m, s, c, status, kind, p.id);
  }

  lemma StatusKeepsCovers(m: Manifest, s: Snapshot, id: string, status: Status, kind: Kind)
    requires Covers(m, s) && id in s.campaigns
    ensures Covers(m, SetStatus(s, id, status, kind))
  {
    hide Covers;
    CoversSameKeys(m, s, SetStatus(s, id, status, kind));
  }

  /** A campaign gets a status other than running; no attempt is added. */
  lemma SetStatusKeepsAccounts(m: Manifest, s: Snapshot, id: string, status: Status, kind: Kind)
    requires ValidManifest(m) && Accounted(m, s) && id in s.campaigns && status != Running && kind != Started
    ensures Accounted(m, SetStatus(s, id, status, kind))
  {
    hide Total, ValidManifest, Covers, EventsAccount, SetStatus, ProjectAccounts;
    var c := CampaignWithId(m, s, id);
    StatusKeepsCovers(m, s, id, status, kind);
    EventsAfterStatus(s, id, status, kind);
    SumsAfterStatus(m, s, c, status, kind, c.project);
    forall i | 0 <= i < |m.projects| ensures ProjectAccounts(m, SetStatus(s, id, status, kind), m.projects[i]) {
      StatusKeepsProject(m, s, c, status, kind, m.projects[i]);
    }
  }

  lemma AddElapsedKeepsAccounts(m: Manifest, s: Snapshot, p: string, elapsed: real)
    requires Accounted(m, s)
    ensures Accounted(m, AddElapsed(s, p, elapsed)) && AddElapsed(s, p, elapsed).campaigns == s.campaigns
  {
    var s' := AddElapsed(s, p, elapsed);
    CoversSameKeys(m, s, s');
    hide Total, Covers;
    forall i | 0 <= i < |m.projects| ensures ProjectAccounts(m, s', m.projects[i]) {
      assert ProjectAccounts(m, s, m.projects[i]);
    }
  }

  // ----- the children -----

  lemma TailNoRepeats(running: seq<string>)
    requires NoRepeats(running) && |running| > 0
    ensures NoRepeats(running[1..]) && running[0] !in running[1..]
    ensures forall x :: x in running <==> x == running[0] || x in running[1..]
  {
    var tail := running[1..];
    assert forall i :: 0 <= i < |tail| ==> tail[i] == running[i + 1];
    assert running == [running[0]] + tail;
  }

  lemma ConsNoRepeats(x: string, r: seq<string>)
    requires NoRepeats(r) && x !in r
    ensures NoRepeats([x] + r)
  {
    var s := [x] + r;
    assert forall i :: 1 <= i < |s| ==> s[i] == r[i - 1];
  }

  lemma {:induction false} WithoutOnce(running: seq<string>, id: string)
    requires NoRepeats(running) && id in running
    ensures var r := Without(running, id);
            |r| == |running| - 1 && NoRepeats(r) && forall x :: x in r <==> x in running && x != id
  {
    TailNoRepeats(running);
    if running[0] == id {
      WithoutNone(running[1..], id);
    } else {
      WithoutOnce(running[1..], id);
      ConsNoRepeats(running[0], Without(running[1..], id));
    }
  }

  lemma {:induction false} WithoutNone(running: seq<string>, id: string)
    requires id !in running
    ensures Without(running, id) == running
  {
    if |running| > 0 {
      assert running == [running[0]] + running[1..];
      WithoutNone(running[1..], id);
    }
  }

  lemma {:induction false} CountFromFront(m: Manifest, running: seq<string>, p: string)
    requires |running| > 0
    ensures RunningCount(m, running, p) == One(ProjectOf(m, running[0]) == Some(p)) + RunningCount(m, running[1..], p)
  {
    if |running| > 1 {
      var n := |running| - 1;
      CountFromFront(m, running[..n], p);
      assert running[..n][1..] == running[1..][..n - 1];
    }
  }

  lemma {:induction false} CountWithout(m: Manifest, running: seq<string>, id: string, p: string)
    requires NoRepeats(running) && id in running
    ensures RunningCount(m, Without(running, id), p) + One(ProjectOf(m, id) == Some(p)) == RunningCount(m, running, p)
  {
    hide ProjectOf;
    TailNoRepeats(running);
    var tail := running[1..];
    CountFromFront(m, running, p);
    if running[0] == id {
      WithoutNone(tail, id);
    } else {
      CountWithout(m, tail, id, p);
      CountFromFront(m, [running[0]] + Without(tail, id), p);
      assert ([running[0]] + Without(tail, id))[1..] == Without(tail, id);
    }
  }

  /** A child leaves the running set with a terminal status. */
  lemma LeaveKeepsInvariant(m: Manifest, l: Live, id: string, s1: Snapshot, status: Status, kind: Kind)
    requires ValidManifest(m) && Accounted(m, s1) && s1.campaigns == l.s.campaigns && Tracks(m, l)
    requires id in l.running && status != Running && kind != Started
    ensures Invariant(m, Live(SetStatus(s1, id, status, kind), Without(l.running, id), l.drained))
  {
    hide Total, ValidManifest, Accounted, Without, RunningCount, ProjectOf, SetStatus, NoRepeats;
    SetStatusKeepsAccounts(m, s1, id, status, kind);
    AccountedCovers(m, s1);
    var c := CampaignWithId(m, s1, id);
    WithoutOnce(l.running, id);
    SumsAfterStatus(m, s1, c, status, kind, c.project);
    StatusesAfter(s1, id, status, kind);
    forall p
      ensures RunningCount(m, Without(l.running, id), p)
              == Total(m.campaigns, SetStatus(s1, id, status, kind).campaigns, RunningIn(p))
    {
      SumsAfterStatus(m, s1, c, status, kind, p);
      CountWithout(m, l.running, id, p);
    }
  }

  lemma AccountedCovers(m: Manifest, s: Snapshot)
    requires Accounted(m, s)
    ensures Covers(m, s)
  {
  }

  lemma StatusesAfter(s: Snapshot, id: string, status: Status, kind: Kind)
    requires id in s.campaigns
    ensures forall x :: x in SetStatus(s, id, status, kind).campaigns <==> x in s.campaigns
    ensures forall x :: x in s.campaigns ==>
              SetStatus(s, id, status, kind).campaigns[x].status == if x == id then status else s.campaigns[x].status
  {
  }

  lemma ReapKeepsInvariant(m: Manifest, l: Live, id: string, o: Observation)
    requires Invariant(m, l)
    ensures Invariant(m, DoReap(m, l, id, o))
  {
    hide Accounted, ValidManifest, SetStatus, AddElapsed, Without, OverWall, ProjectOf;
    var l' := DoReap(m, l, id, o);
    if id in l.running {
      var p := ProjectOf(m, id);
      var s1 := if p.Some? then AddElapsed(l.s, p.value, o.elapsed) else l.s;
      if p.Some? { AddElapsedKeepsAccounts(m, l.s, p.value, o.elapsed); }
      if o.marker || OverWall(m, id, o.elapsed) {
        LeaveKeepsInvariant(m, l, id, s1, Cancelled, WasCancelled);
      } else if o.exit.Some? {
        LeaveKeepsInvariant(m, l, id, s1, if o.exit.value == 0 then Complete else Failed, Finished);
      }
    }
  }

  // ----- cancelling everything, and resuming -----

  lemma {:induction false} CancelRunningKeeps(m: Manifest, s: Snapshot, running: seq<string>,
      elapsed: map<string, real>)
    requires ValidManifest(m) && Accounted(m, s) && forall i :: 0 <= i < |running| ==> running[i] in s.campaigns
    ensures var s' := CancelRunning(m, s, running, elapsed);
            && Accounted(m, s')
            && (forall id :: id in s'.campaigns <==> id in s.campaigns)
            && forall id :: id in s.campaigns ==> s'.campaigns[id].status == if id in running then Cancelled
                else s.campaigns[id].status
    decreases |running|
  {
    hide Accounted, ValidManifest, AddElapsed, SetStatus, ProjectOf;
    if |running| > 0 {
      var id := running[0];
      var p, t := ProjectOf(m, id), if id in elapsed then elapsed[id] else 0.0;
      var s1 := if p.Some? then AddElapsed(s, p.value, t) else s;
      if p.Some? { AddElapsedKeepsAccounts(m, s, p.value, t); }
      SetStatusKeepsAccounts(m, s1, id, Cancelled, WasCancelled);
      StatusesAfter(s1, id, Cancelled, WasCancelled);
      CancelRunningKeeps(m, SetStatus(s1, id, Cancelled, WasCancelled), running[1..], elapsed);
      assert running == [id] + running[1..];
    }
  }

  lemma {:induction false} CancelPendingKeeps(m: Manifest, s: Snapshot, cs: seq<Campaign>)
    requires ValidManifest(m) && Accounted(m, s)
    ensures var s' := CancelPending(s, cs);
            && Accounted(m, s')
            && (forall id :: id in s'.campaigns <==> id in s.campaigns)
            && forall id :: id in s.campaigns ==>
                 s'.campaigns[id].status == s.campaigns[id].status
                     || (s.campaigns[id].status == Pending && s'.campaigns[id].status == Cancelled)
    decreases |cs|
  {
    hide Accounted, ValidManifest, SetStatus;
    if |cs| > 0 {
      var id := cs[0].id;
      if id in s.campaigns && s.campaigns[id].status == Pending {
        SetStatusKeepsAccounts(m, s, id, Cancelled, WasCancelled);
        StatusesAfter(s, id, Cancelled, WasCancelled);
        CancelPendingKeeps(m, SetStatus(s, id, Cancelled, WasCancelled), cs[1..]);
      } else {
        CancelPendingKeeps(m, s, cs[1..]);
      }
    }
  }

  /** With nothing marked running, a scheduler without children keeps track. */
  lemma NothingRunning(m: Manifest, s: Snapshot, drained: bool)
    requires forall id :: id in s.campaigns ==> s.campaigns[id].status != Running
    ensures Tracks(m, Live(s, [], drained))
    ensures forall p :: Total(m.campaigns, s.campaigns, RunningIn(p)) == 0
    ensures Total(m.campaigns, s.campaigns, RunningAny()) == 0
  {
    TotalZero(m.campaigns, s.campaigns, RunningAny());
    forall p
      ensures Total(m.campaigns, s.campaigns, RunningIn(p)) == 0
    {
      TotalZero(m.campaigns, s.campaigns, RunningIn(p));
    }
  }

  lemma CancelAllKeepsInvariant(m: Manifest, l: Live, elapsed: map<string, real>)
    requires Invariant(m, l)
    ensures Invariant(m, Act(m, l, CancelAll(elapsed)))
    ensures forall id :: id in l.s.campaigns ==> Act(m, l, CancelAll(elapsed)).s.campaigns[id].status != Running
  {
    hide Accounted, ValidManifest, CancelRunning, CancelPending;
    assert forall i :: 0 <= i < |l.running| ==> l.running[i] in l.running;
    CancelRunningKeeps(m, l.s, l.running, elapsed);
    var s1 := CancelRunning(m, l.s, l.running, elapsed);
    CancelPendingKeeps(m, s1, m.campaigns);
    NothingRunning(m, CancelPending(s1, m.campaigns), l.drained);
  }

  lemma ResumedKeepsProject(m: Manifest, s: Snapshot, p: Project)
    requires ProjectAccounts(m, s, p)
    ensures ProjectAccounts(m, Resumed(s), p)
  {
    var s' := Resumed(s);
    TotalSame(m.campaigns, s.campaigns, s'.campaigns, AttemptsIn(p.id));
    TotalSame(m.campaigns, s.campaigns, s'.campaigns, ReservedIn(p.id));
    TotalZero(m.campaigns, s'.campaigns, RunningIn(p.id));
    hide Total;
  }

  lemma ResumedStatuses(m: Manifest, s: Snapshot)
    ensures forall id :: id in Resumed(s).campaigns <==> id in s.campaigns
    ensures forall id :: id in s.campaigns ==> Resumed(s).campaigns[id].status != Running
    ensures Covers(m, s) ==> Covers(m, Resumed(s))
    ensures EventsAccount(s) ==> EventsAccount(Resumed(s))
  {
    if Covers(m, s) { CoversSameKeys(m, s, Resumed(s)); }
  }

  lemma ResumedKeepsAccounts(m: Manifest, s: Snapshot)
    requires ValidManifest(m) && Accounted(m, s)
    ensures Accounted(m, Resumed(s))
  {
    hide Total, Covers, EventsAccount, ProjectAccounts, ValidManifest, Resumed;
    ResumedStatuses(m, s);
    NothingRunning(m, Resumed(s), false);
    forall i | 0 <= i < |m.projects| ensures ProjectAccounts(m, Resumed(s), m.projects[i]) {
      ResumedKeepsProject(m, s, m.projects[i]);
    }
  }

  lemma RestartKeepsInvariant(m: Manifest, l: Live)
    requires Invariant(m, l)
    ensures Invariant(m, Act(m, l, Restart))
  {
    hide Accounted, ValidManifest, Tracks, Resumed;
    ResumedStatuses(m, l.s);
    ResumedKeepsAccounts(m, l.s);
    NothingRunning(m, Resumed(l.s), false);
  }

  lemma FreshProject(m: Manifest, p: Project)
    requires ValidManifest(m) && p in m.projects
    ensures ProjectAccounts(m, Fresh(m), p)
  {
    var s := Fresh(m);
    FreshCampaigns(m);
    FreshProjectRecord(m, p);
    hide Fresh, ValidManifest, Total;
    forall i | 0 <= i < |m.campaigns|
      ensures Term(s.campaigns, AttemptsIn(p.id), m.campaigns[i]) == 0
      ensures Term(s.campaigns, ReservedIn(p.id), m.campaigns[i]) == 0
      ensures Term(s.campaigns, RunningIn(p.id), m.campaigns[i]) == 0
    {
      FreshTerms(s.campaigns, m.campaigns[i], p.id);
    }
    TotalZero(m.campaigns, s.campaigns, AttemptsIn(p.id));
    TotalZero(m.campaigns, s.campaigns, ReservedIn(p.id));
    TotalZero(m.campaigns, s.campaigns, RunningIn(p.id));
  }

  lemma FreshCampaigns(m: Manifest)
    ensures forall id :: id in Fresh(m).campaigns ==> Fresh(m).campaigns[id] == CampaignState(Pending, 0)
  {
  }

  lemma FreshProjectRecord(m: Manifest, p: Project)
    requires p in m.projects
    ensures p.id in Fresh(m).projects && Fresh(m).projects[p.id] == ProjectState(0, 0.0, 0)
  {
  }

  lemma FreshTerms(st: map<string, CampaignState>, c: Campaign, p: string)
    requires c.id in st ==> st[c.id] == CampaignState(Pending, 0)
    ensures Term(st, AttemptsIn(p), c) == 0 && Term(st, ReservedIn(p), c) == 0 && Term(st, RunningIn(p), c) == 0
  {
  }

  lemma FreshCovers(m: Manifest)
    ensures Covers(m, Fresh(m)) && EventsAccount(Fresh(m))
    ensures forall id :: id in Fresh(m).campaigns ==> Fresh(m).campaigns[id].status != Running
  {
  }

  /** A new state satisfies the invariant. */
  lemma FreshInvariant(m: Manifest)
    requires ValidManifest(m)
    ensures Invariant(m, Live(Fresh(m), [], false))
  {
    hide Fresh, Covers, EventsAccount, ProjectAccounts, ValidManifest, Tracks;
    FreshCovers(m);
    NothingRunning(m, Fresh(m), false);
    forall i | 0 <= i < |m.projects| ensures ProjectAccounts(m, Fresh(m), m.projects[i]) {
      FreshProject(m, m.projects[i]);
    }
  }

  // ----- launching -----

  /** The chosen campaign belongs to an eligible project of least service. */
  lemma Chosen(m: Manifest, s: Snapshot, running: seq<string>) returns (k: nat)
    requires ChooseNext(m, s, running).Some?
    ensures k < |m.projects| && BestProject(m, s, running, |m.projects|) == Some(k) && Eligible(m, s, running, k)
    ensures m.projects[k].id == ChooseNext(m, s, running).value.project
  {
    hide BestCampaign, BestProject, Eligible;
    k := BestProject(m, s, running, |m.projects|).value;
  }

  lemma {:induction false} NamedProject(m: Manifest, k: nat)
    requires ValidManifest(m) && k < |m.projects|
    ensures ProjectNamed(m, m.projects[k].id) == Some(m.projects[k])
  {
    var r := ProjectNamed(m, m.projects[k].id);
    assert m.projects[k] in m.projects;
    var j :| 0 <= j < |m.projects| && m.projects[j] == r.value;
  }

  /** A pending campaign that does not start leaves the children as they were. */
  lemma RefusalKeepsInvariant(m: Manifest, l: Live, id: string, status: Status, kind: Kind)
    requires Invariant(m, l) && id in l.s.campaigns && l.s.campaigns[id].status == Pending
    requires status != Running && kind != Started
    ensures Invariant(m, l.(s := SetStatus(l.s, id, status, kind)))
  {
    hide Total, ValidManifest, Accounted, RunningCount, ProjectOf, SetStatus, NoRepeats;
    SetStatusKeepsAccounts(m, l.s, id, status, kind);
    AccountedCovers(m, l.s);
    var c := CampaignWithId(m, l.s, id);
    SumsAfterStatus(m, l.s, c, status, kind, c.project);
    StatusesAfter(l.s, id, status, kind);
    forall p
      ensures RunningCount(m, l.running, p) == Total(m.campaigns, SetStatus(l.s, id, status, kind).campaigns,
              RunningIn(p))
    {
      SumsAfterStatus(m, l.s, c, status, kind, p);
    }
  }

  lemma SumsAfterStart(m: Manifest, s: Snapshot, c: Campaign, p: string)
    requires ValidManifest(m) && c in m.campaigns && c.id in s.campaigns && c.project in s.projects
            && s.campaigns[c.id].status == Pending
    ensures var s' := Start(s, c);
            && Total(m.campaigns, s'.campaigns, AttemptsIn(p))
                == Total(m.campaigns, s.campaigns, AttemptsIn(p)) + One(c.project == p)
            && Total(m.campaigns, s'.campaigns, ReservedIn(p))
                == Total(m.campaigns, s.campaigns, ReservedIn(p)) + (if c.project == p then c.reserveCases else 0)
            && Total(m.campaigns, s'.campaigns, RunningIn(p))
                == Total(m.campaigns, s.campaigns, RunningIn(p)) + One(c.project == p)
            && Total(m.campaigns, s'.campaigns, RunningAny()) == Total(m.campaigns, s.campaigns, RunningAny()) + 1
  {
    hide Total, ValidManifest;
    var n := s.campaigns[c.id].attempts;
    SumsAfterUpdate(m, s, c, CampaignState(Running, n + 1), p);
    assert (n + 1) * c.reserveCases == n * c.reserveCases + c.reserveCases;
  }

  lemma EventsAfterStart(s: Snapshot, c: Campaign)
    requires EventsAccount(s) && c.id in s.campaigns && c.project in s.projects
    ensures EventsAccount(Start(s, c))
  {
    var s' := Start(s, c);
    forall x | x in s'.campaigns ensures multiset(s'.events)[Event(Started, x)] == s'.campaigns[x].attempts {
      StartedCount(s.events, Event(Started, c.id), x);
    }
  }

  lemma StartKeepsProject(m: Manifest, s: Snapshot, c: Campaign, p: Project)
    requires ValidManifest(m) && c in m.campaigns && c.id in s.campaigns && c.project in s.projects
            && s.campaigns[c.id].status == Pending
    requires ProjectAccounts(m, s, p)
    requires c.project == p.id ==>
              QuotaAllows(p, s.projects[p.id], c)
              && Total(m.campaigns, s.campaigns, RunningIn(p.id)) < p.maxConcurrent
    ensures ProjectAccounts(m, Start(s, c), p)
  {
    hide Total, ValidManifest;
    SumsAfterStart(m, s, c, p.id);
  }

  lemma StartKeepsCovers(m: Manifest, s: Snapshot, c: Campaign)
    requires Covers(m, s) && c.id in s.campaigns && c.project in s.projects
    ensures Covers(m, Start(s, c))
  {
    hide Covers;
    CoversSameKeys(m, s, Start(s, c));
  }

  lemma OnlyProject(m: Manifest, i: nat, k: nat)
    requires ValidManifest(m) && i < |m.projects| && k < |m.projects|
    ensures m.projects[i].id == m.projects[k].id ==> i == k
  {
  }

  lemma StartKeepsAccounts(m: Manifest, s: Snapshot, c: Campaign, k: nat)
    requires ValidManifest(m) && Accounted(m, s) && c in m.campaigns && c.id in s.campaigns
            && s.campaigns[c.id].status == Pending
    requires k < |m.projects| && m.projects[k].id == c.project && c.project in s.projects
    requires QuotaAllows(m.projects[k], s.projects[c.project], c)
    requires Total(m.campaigns, s.campaigns, RunningIn(c.project)) < m.projects[k].maxConcurrent
    requires Total(m.campaigns, s.campaigns, RunningAny()) < m.globalMax
    ensures Accounted(m, Start(s, c))
  {
    hide Total, Covers, EventsAccount, Start, QuotaAllows, ProjectAccounts, ValidManifest;
    StartKeepsCovers(m, s, c);
    EventsAfterStart(s, c);
    SumsAfterStart(m, s, c, c.project);
    forall i | 0 <= i < |m.projects| ensures ProjectAccounts(m, Start(s, c), m.projects[i]) {
      OnlyProject(m, i, k);
      StartKeepsProject(m, s, c, m.projects[i]);
    }
  }

  lemma StartStatuses(s: Snapshot, c: Campaign)
    requires c.id in s.campaigns && c.project in s.projects
    ensures forall x :: x in Start(s, c).campaigns <==> x in s.campaigns
    ensures forall x :: x in s.campaigns ==> Start(s, c).campaigns[x].status == if x == c.id then Running
            else s.campaigns[x].status
  {
  }

  lemma SnocNoRepeats(r: seq<string>, x: string)
    requires NoRepeats(r) && x !in r
    ensures NoRepeats(r + [x]) && forall y :: y in r + [x] <==> y in r || y == x
  {
  }

  lemma SnocCount(m: Manifest, r: seq<string>, x: string, p: string)
    ensures RunningCount(m, r + [x], p) == RunningCount(m, r, p) + One(ProjectOf(m, x) == Some(p))
  {
    assert (r + [x])[..|r|] == r;
  }

  lemma StartKeepsInvariant(m: Manifest, l: Live, c: Campaign, k: nat)
    requires Invariant(m, l) && c in m.campaigns && c.id in l.s.campaigns && l.s.campaigns[c.id].status == Pending
    requires k < |m.projects| && m.projects[k].id == c.project && c.project in l.s.projects
    requires QuotaAllows(m.projects[k], l.s.projects[c.project], c)
    requires RunningCount(m, l.running, c.project) < m.projects[k].maxConcurrent && |l.running| < m.globalMax
    ensures Invariant(m, l.(s := Start(l.s, c), running := l.running + [c.id]))
  {
    hide Total, ValidManifest, Accounted, RunningCount, ProjectOf, Start, NoRepeats, QuotaAllows;
    StartKeepsAccounts(m, l.s, c, k);
    AccountedCovers(m, l.s);
    var c' := CampaignWithId(m, l.s, c.id);
    SameId(m, c, c');
    StartStatuses(l.s, c);
    SnocNoRepeats(l.running, c.id);
    SumsAfterStart(m, l.s, c, c.project);
    forall p
      ensures RunningCount(m, l.running + [c.id], p) == Total(m.campaigns, Start(l.s, c).campaigns, RunningIn(p))
    {
      SumsAfterStart(m, l.s, c, p);
      SnocCount(m, l.running, c.id, p);
    }
  }

  lemma SameId(m: Manifest, c: Campaign, d: Campaign)
    requires ValidManifest(m) && c in m.campaigns && d in m.campaigns && c.id == d.id
    ensures c == d
  {
    var i :| 0 <= i < |m.campaigns| && m.campaigns[i] == c;
    var j :| 0 <= j < |m.campaigns| && m.campaigns[j] == d;
  }

  lemma LaunchKeepsInvariant(m: Manifest, l: Live, marker: bool)
    requires Invariant(m, l)
    ensures Invariant(m, DoLaunch(m, l, marker))
  {
    hide Accounted, Tracks, ValidManifest, SetStatus, Start, QuotaAllows, ProjectNamed, BestProject;
    if MayLaunch(m, l) {
      var c := ChooseNext(m, l.s, l.running).value;
      var k := Chosen(m, l.s, l.running);
      hide ChooseNext;
      AccountedCovers(m, l.s);
      NamedProject(m, k);
      if marker {
        RefusalKeepsInvariant(m, l, c.id, Cancelled, WasCancelled);
      } else if c.project in l.s.projects {
        if QuotaAllows(m.projects[k], l.s.projects[c.project], c) {
          StartKeepsInvariant(m, l, c, k);
        } else {
          RefusalKeepsInvariant(m, l, c.id, QuotaBlocked, WasQuotaBlocked);
        }
      }
    }
  }

  lemma ActKeepsInvariant(m: Manifest, l: Live, a: Action)
    requires Invariant(m, l)
    ensures Invariant(m, Act(m, l, a))
  {
    hide Accounted, ValidManifest, DoReap, DoLaunch, CancelRunning, CancelPending, Resumed, RunningCount, Total;
    match a
    case CancelAll(elapsed) => CancelAllKeepsInvariant(m, l, elapsed);
    case Reap(id, o) => ReapKeepsInvariant(m, l, id, o);
    case Drain =>
    case Launch(marker) => LaunchKeepsInvariant(m, l, marker);
    case Restart => RestartKeepsInvariant(m, l);
  }

  /** Whatever happens, crashes and resumes included, the accounts of every state written are right. */
  lemma {:induction false} AccountsHoldThroughout(m: Manifest, l: Live, actions: seq<Action>)
    requires Invariant(m, l)
    ensures Invariant(m, Acts(m, l, actions))
    decreases |actions|
  {
    hide Invariant, Act;
    if |actions| > 0 {
      ActKeepsInvariant(m, l, actions[0]);
      AccountsHoldThroughout(m, Act(m, l, actions[0]), actions[1..]);
    }
  }
}
