/**
  What each decision of the scheduler does to the persisted records, field by
  field, and what the clock of a project adds up to (scripts/ppc_lab_schedule.py).
 */
module ScheduleAdmission {
  import opened Words
  import opened Numbers
  import opened Schedule
  import opened ScheduleLaws
  import opened ScheduleFairness
  import opened SchedulerLoop

  // ----- the campaign that is next -----

  /** Project j could take a slot: it is below its cap of children and one of its campaigns is pending. */
  ghost predicate Waiting(m: Manifest, l: Live, j: nat)
    requires j < |m.projects|
  {
    && RunningCount(m, l.running, m.projects[j].id) < m.projects[j].maxConcurrent
    && exists c :: c in m.campaigns && IsPendingIn(l.s, c, m.projects[j].id)
  }

  lemma WaitingIsEligible(m: Manifest, l: Live, j: nat)
    requires j < |m.projects|
    ensures Waiting(m, l, j) <==> Eligible(m, l.s, l.running, j)
  {
    if Waiting(m, l, j) {
      var c :| c in m.campaigns && IsPendingIn(l.s, c, m.projects[j].id);
      var i :| 0 <= i < |m.campaigns| && m.campaigns[i] == c;
      assert IsPendingIn(l.s, m.campaigns[i], m.projects[j].id);
    }
  }

  /** Project k has had no more dispatches per weight than project j, and fewer if j comes first. */
  predicate GoesBefore(m: Manifest, s: Snapshot, k: nat, j: nat)
    requires k < |m.projects| && j < |m.projects|
    requires m.projects[k].id in s.projects && m.projects[j].id in s.projects
  {
    var mine := s.projects[m.projects[k].id].dispatched * m.projects[j].weight;
    var other := s.projects[m.projects[j].id].dispatched * m.projects[k].weight;
    if j < k then mine < other else mine <= other
  }

  lemma {:induction false} BestGoesFirst(m: Manifest, s: Snapshot, running: seq<string>, n: nat, j: nat)
    requires ValidManifest(m) && n <= |m.projects| && j < n && Eligible(m, s, running, j)
    requires BestProject(m, s, running, n).Some?
    ensures var k := BestProject(m, s, running, n).value;
            !LessService(m, s, j, k) && (j < k ==> LessService(m, s, k, j))
  {
    hide Eligible, Dispatched;
    var best := BestProject(m, s, running, n - 1);
    if j < n - 1 {
      assert best.Some?;
      BestGoesFirst(m, s, running, n - 1, j);
      var k, b := BestProject(m, s, running, n).value, best.value;
      if k != b {
        ServiceTransitive(Dispatched(m, s, k), m.projects[k].weight, Dispatched(m, s, b), m.projects[b].weight,
            Dispatched(m, s, j), m.projects[j].weight);
        StrictlyBefore(Dispatched(m, s, k), m.projects[k].weight, Dispatched(m, s, b), m.projects[b].weight,
            Dispatched(m, s, j), m.projects[j].weight);
      }
    }
  }

  /** Less service than one that has had no more than a third is less service than the third. */
  lemma StrictlyBefore(a: nat, wa: nat, b: nat, wb: nat, c: nat, wc: nat)
    requires wa >= 1 && wb >= 1 && wc >= 1
    requires a * wb < b * wa && b * wc <= c * wb
    ensures a * wc < c * wa
  {
    StrictlyScaled(a * wb, b * wa, wc);
    Scaled(b * wc, c * wb, wa);
    Rearranged(a, wb, wc);
    Rearranged(b, wa, wc);
    Rearranged(c, wb, wa);
    if a * wc >= c * wa { Scaled(c * wa, a * wc, wb); }
  }

  lemma Rearranged(x: int, y: int, z: int)
    ensures x * y * z == x * z * y
  {
  }

  /**
    The campaign chosen is pending, of a project that goes before every other
    that could take the slot, and in its project the first of the highest priority.
   */
  lemma ChosenIsNext(m: Manifest, l: Live, c: Campaign) returns (k: nat, i: nat)
    requires Invariant(m, l) && ChooseNext(m, l.s, l.running) == Some(c)
    ensures k < |m.projects| && m.projects[k].id == c.project && Waiting(m, l, k)
    ensures forall j: nat :: j < |m.projects| ==> m.projects[j].id in l.s.projects
    ensures forall j: nat :: j < |m.projects| && Waiting(m, l, j) ==> GoesBefore(m, l.s, k, j)
    ensures i < |m.campaigns| && m.campaigns[i] == c && IsPendingIn(l.s, c, c.project)
    ensures forall j: nat :: j < |m.campaigns| && IsPendingIn(l.s, m.campaigns[j], c.project) ==>
              m.campaigns[j].priority < c.priority || (m.campaigns[j].priority == c.priority && i <= j)
  {
    hide *;
    ProjectsRecorded(m, l);
    k, i := ChoiceIs(m, l, c);
    WaitingIsEligible(m, l, k);
    forall j: nat | j < |m.projects| && Waiting(m, l, j) ensures GoesBefore(m, l.s, k, j) {
      WaitingIsEligible(m, l, j);
      GoesFirst(m, l, k, j);
    }
  }

  lemma GoesFirst(m: Manifest, l: Live, k: nat, j: nat)
    requires ValidManifest(m) && j < |m.projects| && Eligible(m, l.s, l.running, j)
    requires BestProject(m, l.s, l.running, |m.projects|) == Some(k)
    requires forall i: nat :: i < |m.projects| ==> m.projects[i].id in l.s.projects
    ensures GoesBefore(m, l.s, k, j)
  {
    hide Eligible, BestProject, ValidManifest;
    BestGoesFirst(m, l.s, l.running, |m.projects|, j);
  }

  lemma ProjectsRecorded(m: Manifest, l: Live)
    requires Invariant(m, l)
    ensures ValidManifest(m) && forall j: nat :: j < |m.projects| ==> m.projects[j].id in l.s.projects
  {
    hide ValidManifest, Tracks, EventsAccount, Total;
  }

  lemma ChoiceIs(m: Manifest, l: Live, c: Campaign) returns (k: nat, i: nat)
    requires ChooseNext(m, l.s, l.running) == Some(c)
    ensures k < |m.projects| && m.projects[k].id == c.project && Eligible(m, l.s, l.running, k)
    ensures BestProject(m, l.s, l.running, |m.projects|) == Some(k)
    ensures i < |m.campaigns| && m.campaigns[i] == c && IsPendingIn(l.s, c, c.project)
    ensures forall j: nat :: j < |m.campaigns| && IsPendingIn(l.s, m.campaigns[j], c.project) ==>
              m.campaigns[j].priority < c.priority || (m.campaigns[j].priority == c.priority && i <= j)
  {
    k := Chosen(m, l.s, l.running);
    i := BestCampaign(m, l.s, c.project, |m.campaigns|).value;
    hide Eligible, IsPendingIn;
  }

  lemma ManifestIsValid(m: Manifest, l: Live)
    requires Invariant(m, l)
    ensures ValidManifest(m)
  {
  }

  // ----- admission -----

  /**
    A launch without a marker starts the chosen campaign exactly when its cases
    fit the project's budget and the project's clock has not run out. Otherwise
    the campaign ends blocked by quota; either way nothing else changes.
   */
  lemma Admission(m: Manifest, l: Live, c: Campaign, p: Project)
    requires Invariant(m, l) && !l.drained && |l.running| < m.globalMax
    requires ChooseNext(m, l.s, l.running) == Some(c) && p in m.projects && p.id == c.project
    ensures c.id in l.s.campaigns && c.project in l.s.projects
    ensures var l', cs, ps := Act(m, l, Launch(false)), l.s.campaigns[c.id], l.s.projects[c.project];
            var budget := p.caseBudget.Some? ==> ps.reservedCases + c.reserveCases <= p.caseBudget.value;
            var clock := p.wallSeconds.Some? ==> ps.elapsed < p.wallSeconds.value;
            if budget && clock then
              && l'.running == l.running + [c.id] && !l'.drained
              && l'.s.campaigns == l.s.campaigns[c.id := CampaignState(Running, cs.attempts + 1)]
              && l'.s.projects == l.s.projects[c.project :=
                   ProjectState(ps.reservedCases + c.reserveCases, ps.elapsed, ps.dispatched + 1)]
              && l'.s.events == l.s.events + [Event(Started, c.id)]
            else
              && l'.running == l.running && !l'.drained
              && l'.s.campaigns == l.s.campaigns[c.id := CampaignState(QuotaBlocked, cs.attempts)]
              && l'.s.projects == l.s.projects
              && l'.s.events == l.s.events + [Event(WasQuotaBlocked, c.id)]
  {
    hide *;
    KnownChoice(m, l, c);
    NamedIs(m, p) by { ManifestIsValid(m, l); }
    LaunchIs(m, l, c, p, false);
    StartIs(l.s, c);
    StatusIs(l.s, c.id, QuotaBlocked, WasQuotaBlocked);
  }

  lemma KnownChoice(m: Manifest, l: Live, c: Campaign)
    requires Invariant(m, l) && ChooseNext(m, l.s, l.running) == Some(c)
    ensures c.id in l.s.campaigns && c.project in l.s.projects
  {
    hide Invariant, ChooseNext;
    ChosenIsKnown(m, l, c);
  }

  /** The three outcomes of a launch. */
  lemma LaunchIs(m: Manifest, l: Live, c: Campaign, p: Project, marker: bool)
    requires !l.drained && |l.running| < m.globalMax && ChooseNext(m, l.s, l.running) == Some(c)
    requires ProjectNamed(m, c.project) == Some(p) && c.id in l.s.campaigns && c.project in l.s.projects
    ensures var ps := l.s.projects[c.project];
            var budget := p.caseBudget.Some? ==> ps.reservedCases + c.reserveCases <= p.caseBudget.value;
            var clock := p.wallSeconds.Some? ==> ps.elapsed < p.wallSeconds.value;
            Act(m, l, Launch(marker))
            == if marker then l.(s := SetStatus(l.s, c.id, Cancelled, WasCancelled))
               else if budget && clock then l.(s := Start(l.s, c), running := l.running + [c.id])
               else l.(s := SetStatus(l.s, c.id, QuotaBlocked, WasQuotaBlocked))
  {
    hide Start, SetStatus, ProjectNamed, ChooseNext;
  }

  lemma StartIs(s: Snapshot, c: Campaign)
    requires c.id in s.campaigns && c.project in s.projects
    ensures var ps, s' := s.projects[c.project], Start(s, c);
            && s'.campaigns == s.campaigns[c.id := CampaignState(Running, s.campaigns[c.id].attempts + 1)]
            && s'.projects == s.projects[c.project :=
                 ProjectState(ps.reservedCases + c.reserveCases, ps.elapsed, ps.dispatched + 1)]
            && s'.events == s.events + [Event(Started, c.id)]
  {
  }

  lemma StatusIs(s: Snapshot, id: string, status: Status, kind: Kind)
    requires id in s.campaigns
    ensures var s' := SetStatus(s, id, status, kind);
            && s'.campaigns == s.campaigns[id := CampaignState(status, s.campaigns[id].attempts)]
            && s'.projects == s.projects && s'.events == s.events + [Event(kind, id)]
  {
  }

  lemma NamedIs(m: Manifest, p: Project)
    requires ValidManifest(m) && p in m.projects
    ensures ProjectNamed(m, p.id) == Some(p)
  {
    var k :| 0 <= k < |m.projects| && m.projects[k] == p;
    NamedProject(m, k);
  }

  /** With its marker there the chosen campaign is cancelled before it starts, whatever the quota. */
  lemma MarkedLaunch(m: Manifest, l: Live, c: Campaign)
    requires Invariant(m, l) && !l.drained && |l.running| < m.globalMax
    requires ChooseNext(m, l.s, l.running) == Some(c)
    ensures c.id in l.s.campaigns
    ensures var l' := Act(m, l, Launch(true));
            && l'.running == l.running && !l'.drained && l'.s.projects == l.s.projects
            && l'.s.campaigns == l.s.campaigns[c.id := CampaignState(Cancelled, l.s.campaigns[c.id].attempts)]
            && l'.s.events == l.s.events + [Event(WasCancelled, c.id)]
  {
    hide *;
    KnownChoice(m, l, c);
    MarkedIs(m, l, c);
    StatusIs(l.s, c.id, Cancelled, WasCancelled);
  }

  lemma MarkedIs(m: Manifest, l: Live, c: Campaign)
    requires !l.drained && |l.running| < m.globalMax && ChooseNext(m, l.s, l.running) == Some(c)
    ensures Act(m, l, Launch(true)) == l.(s := SetStatus(l.s, c.id, Cancelled, WasCancelled))
  {
    hide Start, SetStatus, ProjectNamed, ChooseNext, QuotaAllows;
  }

  /** When drained, without a free slot or without a candidate, nothing is launched. */
  lemma NoLaunch(m: Manifest, l: Live, marker: bool)
    requires l.drained || |l.running| >= m.globalMax
          || (forall k: nat :: k < |m.projects| ==> !Waiting(m, l, k))
    ensures Act(m, l, Launch(marker)) == l
  {
    if MayLaunch(m, l) {
      var k := Chosen(m, l.s, l.running);
      WaitingIsEligible(m, l, k);
    }
  }

  // ----- what becomes of a child -----

  /** How a child seen this way ends, if it does: a marker and its own time limit come before its exit code. */
  predicate Decides(c: Campaign, o: Observation, final: Option<Status>) {
    if o.marker || (c.wallSeconds.Some? && o.elapsed >= c.wallSeconds.value) then final == Some(Cancelled)
    else if o.exit == Some(0) then final == Some(Complete)
    else if o.exit.Some? then final == Some(Failed)
    else final == None
  }

  /** A running child is given its end, its time is charged to its project and nothing else changes; or it goes on. */
  lemma ReapDecides(m: Manifest, l: Live, c: Campaign, o: Observation, final: Option<Status>)
    requires Invariant(m, l) && c in m.campaigns && c.id in l.running && Decides(c, o, final)
    ensures c.id in l.s.campaigns && c.project in l.s.projects
    ensures var l', cs, ps := Act(m, l, Reap(c.id, o)), l.s.campaigns[c.id], l.s.projects[c.project];
            if final.None? then l' == l
            else
              && l'.drained == l.drained && NoRepeats(l'.running) && |l'.running| == |l.running| - 1
              && (forall id :: id in l'.running <==> id in l.running && id != c.id)
              && l'.s.campaigns == l.s.campaigns[c.id := CampaignState(final.value, cs.attempts)]
              && l'.s.projects == l.s.projects[c.project :=
                   ProjectState(ps.reservedCases, ps.elapsed + o.elapsed, ps.dispatched)]
              && l'.s.events == l.s.events
                   + [Event(if final == Some(Cancelled) then WasCancelled else Finished, c.id)]
  {
    hide Act, Invariant, Without, NoRepeats, SetStatus, AddElapsed;
    ChildIs(m, l, c);
    ReapIs(m, l, c, o, final);
    WithoutOnce(l.running, c.id);
    if final.Some? {
      var s1 := AddElapsed(l.s, c.project, o.elapsed);
      AddElapsedIs(l.s, c.project, o.elapsed);
      StatusIs(s1, c.id, final.value, if final == Some(Cancelled) then WasCancelled else Finished);
    }
  }

  lemma AddElapsedIs(s: Snapshot, p: string, elapsed: real)
    requires p in s.projects
    ensures var ps, s' := s.projects[p], AddElapsed(s, p, elapsed);
            && s'.projects == s.projects[p := ProjectState(ps.reservedCases, ps.elapsed + elapsed, ps.dispatched)]
            && s'.campaigns == s.campaigns && s'.events == s.events
  {
  }

  lemma ReapIs(m: Manifest, l: Live, c: Campaign, o: Observation, final: Option<Status>)
    requires c.id in l.running && c.id in l.s.campaigns && ProjectOf(m, c.id) == Some(c.project)
    requires ValidManifest(m) && c in m.campaigns && Decides(c, o, final)
    ensures AddElapsed(l.s, c.project, o.elapsed).campaigns == l.s.campaigns
    ensures Act(m, l, Reap(c.id, o))
         == if final.None? then l
            else Live(SetStatus(AddElapsed(l.s, c.project, o.elapsed), c.id, final.value,
                          if final == Some(Cancelled) then WasCancelled else Finished),
                      Without(l.running, c.id), l.drained)
  {
    OwnLimit(m, c, o.elapsed);
    hide ValidManifest, Without, SetStatus, OverWall, ProjectOf;
  }

  lemma ChildIs(m: Manifest, l: Live, c: Campaign)
    requires Invariant(m, l) && c in m.campaigns && c.id in l.running
    ensures c.id in l.s.campaigns && c.project in l.s.projects && ProjectOf(m, c.id) == Some(c.project)
    ensures ValidManifest(m) && NoRepeats(l.running)
  {
    hide ProjectOf, ValidManifest, NoRepeats, Accounted;
    ChildIsRecorded(m, l, c.id);
    AccountedCovers(m, l.s);
    var owner := CampaignWithId(m, l.s, c.id);
    SameId(m, c, owner);
  }

  lemma OwnLimit(m: Manifest, c: Campaign, elapsed: real)
    requires ValidManifest(m) && c in m.campaigns
    ensures OverWall(m, c.id, elapsed) <==> c.wallSeconds.Some? && elapsed >= c.wallSeconds.value
  {
    var i :| 0 <= i < |m.campaigns| && m.campaigns[i] == c;
    assert forall j :: 0 <= j < |m.campaigns| && m.campaigns[j].id == c.id ==> j == i;
  }

  /** What is not a running child cannot be reaped. */
  lemma NothingToReap(m: Manifest, l: Live, id: string, o: Observation)
    requires id !in l.running
    ensures Act(m, l, Reap(id, o)) == l
  {
  }

  // ----- cancelling everything, and resuming -----

  /** The record after a global cancellation: running and pending campaigns are cancelled. */
  predicate CancelledFrom(was: CampaignState, now: CampaignState) {
    && now.attempts == was.attempts
    && now.status == if was.status == Running || was.status == Pending then Cancelled else was.status
  }

  lemma {:induction false} CancelRunningRecords(m: Manifest, s: Snapshot, running: seq<string>,
      elapsed: map<string, real>, id: string)
    requires NoRepeats(running) && (forall x :: x in running ==> x in s.campaigns) && id in s.campaigns
    ensures var s' := CancelRunning(m, s, running, elapsed);
            && id in s'.campaigns && s'.campaigns[id].attempts == s.campaigns[id].attempts
            && s'.campaigns[id].status == if id in running then Cancelled else s.campaigns[id].status
    decreases |running|
  {
    hide ProjectOf;
    if |running| > 0 {
      TailNoRepeats(running);
      hide NoRepeats;
      var p, t := ProjectOf(m, running[0]), if running[0] in elapsed then elapsed[running[0]] else 0.0;
      var s1 := if p.Some? then AddElapsed(s, p.value, t) else s;
      CancelRunningRecords(m, SetStatus(s1, running[0], Cancelled, WasCancelled), running[1..], elapsed, id);
    }
  }

  lemma {:induction false} CancelPendingRecords(s: Snapshot, cs: seq<Campaign>, id: string)
    requires id in s.campaigns
    ensures var s' := CancelPending(s, cs);
            && s'.projects == s.projects
            && id in s'.campaigns && s'.campaigns[id].attempts == s.campaigns[id].attempts
            && s'.campaigns[id].status == if s.campaigns[id].status == Pending && (exists c :: c in cs && c.id == id)
                 then Cancelled else s.campaigns[id].status
    decreases |cs|
  {
    if |cs| > 0 {
      var s1 := if cs[0].id in s.campaigns && s.campaigns[cs[0].id].status == Pending
                then SetStatus(s, cs[0].id, Cancelled, WasCancelled) else s;
      CancelPendingRecords(s1, cs[1..], id);
      assert forall c :: c in cs <==> c == cs[0] || c in cs[1..];
    }
  }

  lemma CancelAllDecides(m: Manifest, l: Live, elapsed: map<string, real>, id: string)
    requires Invariant(m, l) && id in l.s.campaigns
    ensures var l' := Act(m, l, CancelAll(elapsed));
            && l'.running == [] && l'.drained == l.drained
            && id in l'.s.campaigns && CancelledFrom(l.s.campaigns[id], l'.s.campaigns[id])
  {
    AccountedCovers(m, l.s);
    var c := CampaignWithId(m, l.s, id);
    hide CancelRunning, CancelPending, Accounted, NoRepeats;
    CancelRunningRecords(m, l.s, l.running, elapsed, id);
    CancelPendingRecords(CancelRunning(m, l.s, l.running, elapsed), m.campaigns, id);
  }

  /** Resuming makes the running campaigns pending again and changes nothing else that is recorded. */
  lemma RestartDecides(m: Manifest, l: Live, id: string)
    requires id in l.s.campaigns
    ensures var l' := Act(m, l, Restart);
            && l'.running == [] && !l'.drained && l'.s.projects == l.s.projects && l'.s.events == l.s.events
            && id in l'.s.campaigns && l'.s.campaigns[id].attempts == l.s.campaigns[id].attempts
            && l'.s.campaigns[id].status == if l.s.campaigns[id].status == Running then Pending
                 else l.s.campaigns[id].status
  {
  }

  // ----- the clock -----

  /** The time an action reports for a child; a restart reports none. */
  function Reported(a: Action, id: string): real {
    match a
    case Reap(child, o) => if id == child then o.elapsed else 0.0
    case CancelAll(elapsed) => if id in elapsed then elapsed[id] else 0.0
    case _ => 0.0
  }

  /** The times reported for the children of a project that were running and are not running any more. */
  function Charge(m: Manifest, before: seq<string>, after: seq<string>, a: Action, p: string): real {
    if |before| == 0 then 0.0
    else
      var ends := before[0] !in after && ProjectOf(m, before[0]) == Some(p);
      (if ends then Reported(a, before[0]) else 0.0) + Charge(m, before[1..], after, a, p)
  }

  /** All that is charged to a project in the course of some actions. */
  function Charged(m: Manifest, l: Live, actions: seq<Action>, p: string): real
    decreases |actions|
  {
    if |actions| == 0 then 0.0
    else
      var l' := Act(m, l, actions[0]);
      Charge(m, l.running, l'.running, actions[0], p) + Charged(m, l', actions[1..], p)
  }

  lemma {:induction false} ChargeOfNone(m: Manifest, before: seq<string>, after: seq<string>, a: Action, p: string)
    requires forall id :: id in before ==> id in after || ProjectOf(m, id) != Some(p) || Reported(a, id) == 0.0
    ensures Charge(m, before, after, a, p) == 0.0
  {
    hide ProjectOf, Reported;
    if |before| > 0 { ChargeOfNone(m, before[1..], after, a, p); }
  }

  /** Only one child ends. */
  lemma {:induction false} ChargeOfOne(m: Manifest, before: seq<string>, after: seq<string>, a: Action, p: string,
      one: string)
    requires NoRepeats(before) && one in before && one !in after
    requires forall id :: id in before && id != one ==> id in after
    ensures Charge(m, before, after, a, p) == if ProjectOf(m, one) == Some(p) then Reported(a, one) else 0.0
  {
    hide ProjectOf, Reported;
    TailNoRepeats(before);
    hide NoRepeats;
    if before[0] == one {
      ChargeOfNone(m, before[1..], after, a, p);
    } else {
      ChargeOfOne(m, before[1..], after, a, p, one);
    }
  }

  lemma {:induction false} CancelRunningCharges(m: Manifest, s: Snapshot, running: seq<string>,
      elapsed: map<string, real>, p: string)
    requires (forall x :: x in running ==> x in s.campaigns) && p in s.projects
    ensures var s' := CancelRunning(m, s, running, elapsed);
            && p in s'.projects
            && s'.projects[p].elapsed == s.projects[p].elapsed + Charge(m, running, [], CancelAll(elapsed), p)
    decreases |running|
  {
    hide ProjectOf;
    if |running| > 0 {
      var owner, t := ProjectOf(m, running[0]), Reported(CancelAll(elapsed), running[0]);
      var s1 := if owner.Some? then AddElapsed(s, owner.value, t) else s;
      CancelRunningCharges(m, SetStatus(s1, running[0], Cancelled, WasCancelled), running[1..], elapsed, p);
    }
  }

  lemma {:induction false} CancelPendingProjects(s: Snapshot, cs: seq<Campaign>)
    ensures CancelPending(s, cs).projects == s.projects
    decreases |cs|
  {
    if |cs| > 0 {
      CancelPendingProjects(if cs[0].id in s.campaigns && s.campaigns[cs[0].id].status == Pending
          then SetStatus(s, cs[0].id, Cancelled, WasCancelled) else s, cs[1..]);
    }
  }

  lemma ReapCharges(m: Manifest, l: Live, id: string, o: Observation, p: string)
    requires Invariant(m, l) && p in l.s.projects
    ensures var l', a := Act(m, l, Reap(id, o)), Reap(id, o);
            && p in l'.s.projects
            && l'.s.projects[p].elapsed == l.s.projects[p].elapsed + Charge(m, l.running, l'.running, a, p)
  {
    hide ProjectOf, Charge, OverWall, Accounted, Total, RunningCount;
    var l' := Act(m, l, Reap(id, o));
    if l' == l {
      ChargeOfNone(m, l.running, l'.running, Reap(id, o), p);
    } else {
      WithoutOnce(l.running, id);
      hide NoRepeats, Without;
      assert l'.running == Without(l.running, id);
      ChargeOfOne(m, l.running, l'.running, Reap(id, o), p, id);
    }
  }

  lemma LaunchCharges(m: Manifest, l: Live, a: Action, p: string)
    requires (a.Launch? || a.Drain? || a.Restart?) && p in l.s.projects
    ensures var l' := Act(m, l, a);
            && p in l'.s.projects && l'.s.projects[p].elapsed == l.s.projects[p].elapsed
            && Charge(m, l.running, l'.running, a, p) == 0.0
  {
    hide ProjectOf, Charge, MayLaunch, ChooseNext, QuotaAllows, ProjectNamed;
    ChargeOfNone(m, l.running, Act(m, l, a).running, a, p);
  }

  lemma ActCharges(m: Manifest, l: Live, a: Action, p: string)
    requires Invariant(m, l) && p in l.s.projects
    ensures var l' := Act(m, l, a);
            && p in l'.s.projects
            && l'.s.projects[p].elapsed == l.s.projects[p].elapsed + Charge(m, l.running, l'.running, a, p)
  {
    match a
    case CancelAll(elapsed) =>
      hide CancelRunning, CancelPending, Accounted, NoRepeats, Charge;
      CancelRunningCharges(m, l.s, l.running, elapsed, p);
      CancelPendingProjects(CancelRunning(m, l.s, l.running, elapsed), m.campaigns);
    case Reap(id, o) =>
      hide Act, Invariant, Charge;
      ReapCharges(m, l, id, o, p);
    case Drain | Launch(_) | Restart =>
      hide Act, Invariant, Charge;
      LaunchCharges(m, l, a, p);
  }

  /** The clock the quota reads is the time of the project's children that were reaped or cancelled, and no other. */
  lemma {:induction false} ClockAddsUp(m: Manifest, l: Live, actions: seq<Action>, p: string)
    requires Invariant(m, l) && p in l.s.projects
    ensures var l' := Acts(m, l, actions);
            && p in l'.s.projects
            && l'.s.projects[p].elapsed == l.s.projects[p].elapsed + Charged(m, l, actions, p)
    decreases |actions|
  {
    hide Act, Invariant, Charge;
    if |actions| > 0 {
      ActCharges(m, l, actions[0], p);
      ActKeepsInvariant(m, l, actions[0]);
      ClockAddsUp(m, Act(m, l, actions[0]), actions[1..], p);
    }
  }
}
