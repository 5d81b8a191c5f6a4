/**
  The scheduler object and its polling loop, proved to take only the actions
  of the state machine (scripts/ppc_lab_schedule.py).
 */
module SchedulerLoop {
  import opened Words
  import opened Schedule
  import opened ScheduleLaws
  import opened ScheduleFairness

  /** What one round of the polling loop sees: markers, clocks and exit codes are the environment's. */
  datatype Inputs = Inputs(cancelAll: bool, drain: bool, elapsed: map<string, real>,
      observations: map<string, Observation>, markers: set<string>)

  datatype Outcome = Continue | AllCancelled | DrainedOut | AllDone

  lemma {:induction false} ActsSnoc(m: Manifest, l: Live, actions: seq<Action>, a: Action)
    ensures Acts(m, l, actions + [a]) == Act(m, Acts(m, l, actions), a)
    decreases |actions|
  {
    hide Act;
    if |actions| == 0 {
      assert ([] + [a])[1..] == [];
    } else {
      assert (actions + [a])[1..] == actions[1..] + [a];
      ActsSnoc(m, Act(m, l, actions[0]), actions[1..], a);
    }
  }

  // ----- what one round does -----

  /** One reap for every child that was seen. */
  function ReapsFor(children: seq<string>, observations: map<string, Observation>): seq<Action> {
    if |children| == 0 then []
    else ReapsFor(children[..|children| - 1], observations)
         + var id := children[|children| - 1]; if id in observations then [Reap(id, observations[id])] else []
  }

  /** Launching until no slot or no candidate is left. */
  ghost function Launched(m: Manifest, l: Live, markers: set<string>): (r: Live)
    requires Invariant(m, l)
    ensures Invariant(m, r) && !MayLaunch(m, r)
    decreases PendingCount(m, l.s)
  {
    if !MayLaunch(m, l) then l
    else
      var marker := ChooseNext(m, l.s, l.running).value.id in markers;
      LaunchKeepsInvariant(m, l, marker);
      LaunchShrinksPending(m, l, marker);
      Launched(m, DoLaunch(m, l, marker), markers)
  }

  /** Cancellation first, then the children, the drain marker, and the launches. */
  ghost function Round(m: Manifest, l: Live, inputs: Inputs): (r: (Live, Outcome))
    requires Invariant(m, l)
    ensures Invariant(m, r.0)
  {
    if inputs.cancelAll then
      CancelAllKeepsInvariant(m, l, inputs.elapsed);
      (Act(m, l, CancelAll(inputs.elapsed)), AllCancelled)
    else
      AccountsHoldThroughout(m, l, ReapsFor(l.running, inputs.observations));
      var reaped := Acts(m, l, ReapsFor(l.running, inputs.observations));
      DrainKeeps(m, reaped);
      var d := if inputs.drain then reaped.(drained := true) else reaped;
      if d.drained && d.running == [] then (d, DrainedOut)
      else
        var n := Launched(m, d, inputs.markers);
        (n, if n.running == [] && !AnyPending(m, n.s) then AllDone else Continue)
  }

  /** Rounds until one of them ends the loop. */
  ghost function Rounds(m: Manifest, l: Live, rounds: seq<Inputs>): (r: (Live, Outcome))
    requires Invariant(m, l)
    ensures Invariant(m, r.0)
  {
    if |rounds| == 0 then (l, Continue)
    else
      var before := Rounds(m, l, rounds[..|rounds| - 1]);
      if before.1 != Continue then before else Round(m, before.0, rounds[|rounds| - 1])
  }

  /** Once ended, the loop stays ended. */
  lemma {:induction false} RoundsEnd(m: Manifest, l: Live, rounds: seq<Inputs>, i: nat)
    requires Invariant(m, l) && i <= |rounds| && Rounds(m, l, rounds[..i]).1 != Continue
    ensures Rounds(m, l, rounds) == Rounds(m, l, rounds[..i])
    decreases |rounds|
  {
    hide Invariant, Round;
    if i == |rounds| {
      assert rounds[..i] == rounds;
    } else {
      var shorter := rounds[..|rounds| - 1];
      assert shorter[..i] == rounds[..i];
      RoundsEnd(m, l, shorter, i);
    }
  }

  lemma NotRunningIsNotReaped(m: Manifest, l: Live, id: string, o: Observation)
    requires id !in l.running
    ensures Act(m, l, Reap(id, o)) == l
  {
  }

  lemma NextChild(children: seq<string>, i: nat, observations: map<string, Observation>)
    requires i < |children|
    ensures ReapsFor(children[..i + 1], observations)
         == ReapsFor(children[..i], observations) + if children[i] in observations
             then [Reap(children[i], observations[children[i]])] else []
  {
    assert children[..i + 1][..i] == children[..i];
  }

  class Scheduler {
    const m: Manifest
    var projects: map<string, ProjectState>
    var campaigns: map<string, CampaignState>
    var events: seq<Event>
    var running: seq<string>
    var drained: bool
    /** The state file. */
    var disk: Snapshot

    function State(): Snapshot
      reads this
    {
      Snapshot(projects, campaigns, events)
    }

    function Now(): Live
      reads this
    {
      Live(State(), running, drained)
    }

    ghost predicate Valid()
      reads this
    {
      Invariant(m, Now()) && disk == State()
    }

    constructor Start(m: Manifest)
      requires ValidManifest(m)
      ensures this.m == m && Valid() && Now() == Live(Fresh(m), [], false)
    {
      var s := Fresh(m);
      this.m, projects, campaigns, events := m, s.projects, s.campaigns, s.events;
      running, drained, disk := [], false, s;
      FreshInvariant(m);
    }

    /** Resuming from a state file: only interrupted work becomes pending again. */
    constructor Resume(m: Manifest, persisted: Snapshot)
      requires ValidManifest(m) && Accounted(m, persisted)
      ensures this.m == m && Valid() && Now() == Live(Resumed(persisted), [], false)
    {
      var s := Resumed(persisted);
      this.m, projects, campaigns, events := m, s.projects, s.campaigns, s.events;
      running, drained, disk := [], false, s;
      ResumedStatuses(m, persisted);
      ResumedKeepsAccounts(m, persisted);
      NothingRunning(m, s, false);
    }

    method Write()
      modifies `disk
      ensures disk == State()
    {
      disk := State();
    }

    method Become(s: Snapshot)
      modifies `projects, `campaigns, `events
      ensures State() == s
    {
      projects, campaigns, events := s.projects, s.campaigns, s.events;
    }

    method SetStatusOf(id: string, status: Status, kind: Kind)
      requires id in campaigns
      modifies `campaigns, `events
      ensures State() == SetStatus(old(State()), id, status, kind)
    {
      campaigns := campaigns[id := campaigns[id].(status := status)];
      events := events + [Event(kind, id)];
    }

    method AddElapsedTo(p: Option<string>, elapsed: real)
      modifies `projects
      ensures State() == if p.Some? then AddElapsed(old(State()), p.value, elapsed) else old(State())
    {
      if p.Some? && p.value in projects {
        projects := projects[p.value := projects[p.value].(elapsed := projects[p.value].elapsed + elapsed)];
      }
    }

    method CancelEverything(elapsed: map<string, real>)
      requires Valid()
      modifies this
      ensures Valid() && Now() == Act(m, old(Now()), CancelAll(elapsed))
    {
      hide Invariant, SetStatus, AddElapsed, ProjectOf;
      CancelAllKeepsInvariant(m, Now(), elapsed);
      ghost var start := State();
      ghost var target := CancelRunning(m, start, running, elapsed);
      for i := 0 to |running|
        invariant running == old(running) && drained == old(drained)
        invariant target == CancelRunning(m, State(), running[i..], elapsed)
      {
        assert running[i..][0] == running[i] && running[i..][1..] == running[i + 1..];
        var id := running[i];
        if id in campaigns {
          AddElapsedTo(ProjectOf(m, id), if id in elapsed then elapsed[id] else 0.0);
          SetStatusOf(id, Cancelled, WasCancelled);
        }
      }
      running := [];
      assert State() == target;
      for i := 0 to |m.campaigns|
        invariant running == [] && drained == old(drained)
        invariant CancelPending(target, m.campaigns) == CancelPending(State(), m.campaigns[i..])
      {
        assert m.campaigns[i..][0] == m.campaigns[i] && m.campaigns[i..][1..] == m.campaigns[i + 1..];
        var id := m.campaigns[i].id;
        if id in campaigns && campaigns[id].status == Pending { SetStatusOf(id, Cancelled, WasCancelled); }
      }
      Write();
    }

    method ReapOne(id: string, o: Observation)
      requires Valid() && id in running
      modifies this
      ensures Valid() && Now() == Act(m, old(Now()), Reap(id, o))
    {
      hide Invariant, SetStatus, AddElapsed, ProjectOf, OverWall, Without;
      ReapKeepsInvariant(m, Now(), id, o);
      ChildIsRecorded(m, Now(), id);
      if o.marker || OverWall(m, id, o.elapsed) {
        AddElapsedTo(ProjectOf(m, id), o.elapsed);
        SetStatusOf(id, Cancelled, WasCancelled);
        running := Without(running, id);
        Write();
      } else if o.exit.Some? {
        AddElapsedTo(ProjectOf(m, id), o.elapsed);
        SetStatusOf(id, if o.exit.value == 0 then Complete else Failed, Finished);
        running := Without(running, id);
        Write();
      }
    }

    /** Counting the children by project. */
    method CountRunning() returns (counts: map<string, nat>)
      ensures forall p :: (if p in counts then counts[p] else 0) == RunningCount(m, running, p)
    {
      hide ProjectOf;
      counts := map[];
      for i := 0 to |running|
        invariant forall p :: (if p in counts then counts[p] else 0) == RunningCount(m, running[..i], p)
      {
        var p := ProjectOf(m, running[i]);
        assert running[..i + 1] == running[..i] + [running[i]];
        forall q ensures RunningCount(m, running[..i + 1], q) == RunningCount(m, running[..i], q) + One(p == Some(q)) {
          SnocCount(m, running[..i], running[i], q);
        }
        if p.Some? { counts := counts[p.value := (if p.value in counts then counts[p.value] else 0) + 1]; }
      }
      assert running[..|running|] == running;
    }

    method PendingIn(p: string) returns (found: bool)
      ensures found == HasPending(m, State(), p)
    {
      for i := 0 to |m.campaigns|
        invariant forall k :: 0 <= k < i ==> !IsPendingIn(State(), m.campaigns[k], p)
      {
        if IsPendingIn(State(), m.campaigns[i], p) { return true; }
      }
      return false;
    }

    /** Scan the projects for the least service, then the project's campaigns for the highest priority. */
    method ChooseCampaign(counts: map<string, nat>) returns (c: Option<Campaign>)
      requires forall p :: (if p in counts then counts[p] else 0) == RunningCount(m, running, p)
      ensures c == ChooseNext(m, State(), running)
    {
      hide RunningCount, HasPending, LessService, IsPendingIn;
      var best: Option<nat> := None;
      for n := 0 to |m.projects|
        invariant best == BestProject(m, State(), running, n)
      {
        var p := m.projects[n];
        var pending := PendingIn(p.id);
        if (if p.id in counts then counts[p.id] else 0) < p.maxConcurrent && pending {
          if best.None? || LessService(m, State(), n, best.value) { best := Some(n); }
        }
      }
      if best.None? { return None; }
      var pid := m.projects[best.value].id;
      var first: Option<nat> := None;
      for n := 0 to |m.campaigns|
        invariant first == BestCampaign(m, State(), pid, n)
      {
        if IsPendingIn(State(), m.campaigns[n], pid) {
          if first.None? || m.campaigns[n].priority > m.campaigns[first.value].priority { first := Some(n); }
        }
      }
      return if first.None? then None else Some(m.campaigns[first.value]);
    }

    /** One round of the launch loop for the chosen campaign. */
    method LaunchChosen(c: Campaign, marker: bool, counts: map<string, nat>)
      returns (launched: bool, counts': map<string, nat>)
      requires Valid() && MayLaunch(m, Now()) && ChooseNext(m, State(), running) == Some(c)
      requires forall p :: (if p in counts then counts[p] else 0) == RunningCount(m, running, p)
      modifies this
      ensures Valid() && Now() == Act(m, old(Now()), Launch(marker)) && drained == old(drained)
      ensures forall p :: (if p in counts' then counts'[p] else 0) == RunningCount(m, running, p)
      ensures launched ==> running != []
      ensures PendingCount(m, State()) < PendingCount(m, old(State()))
    {
      hide Invariant, SetStatus, ChooseNext, QuotaAllows, ProjectNamed, RunningCount, ProjectOf, PendingCount;
      hide Schedule.Start;
      LaunchKeepsInvariant(m, Now(), marker);
      LaunchShrinksPending(m, Now(), marker);
      ChosenIsKnown(m, Now(), c);
      counts' := counts;
      if marker {
        SetStatusOf(c.id, Cancelled, WasCancelled);
        Write();
        return false, counts';
      }
      if !QuotaAllows(ProjectNamed(m, c.project).value, projects[c.project], c) {
        SetStatusOf(c.id, QuotaBlocked, WasQuotaBlocked);
        Write();
        return false, counts';
      }
      Become(Schedule.Start(State(), c));
      forall p ensures RunningCount(m, running + [c.id], p) == RunningCount(m, running, p) + One(c.project == p) {
        SnocCount(m, running, c.id, p);
      }
      running := running + [c.id];
      counts' := counts'[c.project := (if c.project in counts' then counts'[c.project] else 0) + 1];
      Write();
      return true, counts';
    }

    /** Launch until no slot or no candidate is left. */
    method LaunchAll(markers: set<string>) returns (launched: bool, ghost actions: seq<Action>)
      requires Valid()
      modifies this
      ensures Valid() && Now() == Acts(m, old(Now()), actions) && drained == old(drained)
      ensures Now() == Launched(m, old(Now()), markers)
      ensures !MayLaunch(m, Now())
      ensures launched ==> running != []
      ensures drained ==> running == old(running)
    {
      hide Invariant, Act, ChooseNext, RunningCount, PendingCount;
      var counts := CountRunning();
      launched, actions := false, [];
      while !drained && |running| < m.globalMax
        invariant Valid() && drained == old(drained)
        invariant forall p :: (if p in counts then counts[p] else 0) == RunningCount(m, running, p)
        invariant Now() == Acts(m, old(Now()), actions)
        invariant Launched(m, Now(), markers) == Launched(m, old(Now()), markers)
        invariant launched ==> running != []
        invariant drained ==> running == old(running)
        decreases PendingCount(m, State())
      {
        var c := ChooseCampaign(counts);
        if c.None? { return; }
        ActsSnoc(m, old(Now()), actions, Launch(c.value.id in markers));
        actions := actions + [Launch(c.value.id in markers)];
        var now;
        LaunchOnlyAdds(m, Now(), c.value.id in markers);
        LaunchIsAct(m, Now(), c.value.id in markers);
        now, counts := LaunchChosen(c.value, c.value.id in markers, counts);
        launched := launched || now;
      }
    }

    method AnyCampaignPending() returns (pending: bool)
      ensures pending == AnyPending(m, State())
    {
      hide IsPendingIn;
      for i := 0 to |m.campaigns|
        invariant forall k :: 0 <= k < i ==> !IsPendingIn(State(), m.campaigns[k], m.campaigns[k].project)
      {
        if IsPendingIn(State(), m.campaigns[i], m.campaigns[i].project) { return true; }
      }
      return false;
    }

    method ReapAll(observations: map<string, Observation>) returns (ghost actions: seq<Action>)
      requires Valid()
      modifies this
      ensures Valid() && actions == ReapsFor(old(running), observations) && Now() == Acts(m, old(Now()), actions)
    {
      hide Invariant, Act;
      actions := [];
      var children := running;
      for i := 0 to |children|
        invariant Valid() && actions == ReapsFor(children[..i], observations) && Now() == Acts(m, old(Now()), actions)
      {
        var id := children[i];
        NextChild(children, i, observations);
        if id in observations {
          ActsSnoc(m, old(Now()), actions, Reap(id, observations[id]));
          actions := actions + [Reap(id, observations[id])];
          if id in running {
            ReapOne(id, observations[id]);
          } else {
            NotRunningIsNotReaped(m, Now(), id, observations[id]);
          }
        }
      }
      assert children[..|children|] == children;
    }

    /** One round of the polling loop. There is no deadlock to report. */
    method Tick(inputs: Inputs) returns (outcome: Outcome, ghost actions: seq<Action>)
      requires Valid()
      modifies this
      ensures (Now(), outcome) == Round(m, old(Now()), inputs)
      ensures Valid() && Now() == Acts(m, old(Now()), actions)
      ensures outcome == AllDone ==> running == [] && !AnyPending(m, State())
      ensures outcome == DrainedOut ==> running == [] && drained
      ensures outcome == AllCancelled ==> running == []
      ensures outcome == Continue ==> running != []
    {
      hide Invariant, Act, ChooseNext, RunningCount, AnyPending;
      if inputs.cancelAll {
        actions := [CancelAll(inputs.elapsed)];
        OneAct(m, Now(), CancelAll(inputs.elapsed));
        CancelAllRunning(m, Now(), inputs.elapsed);
        CancelEverything(inputs.elapsed);
        return AllCancelled, actions;
      }
      actions := ReapAll(inputs.observations);
      if inputs.drain {
        ActsSnoc(m, old(Now()), actions, Drain);
        DrainKeeps(m, Now());
        actions := actions + [Drain];
        drained := true;
      }
      if drained && running == [] { return DrainedOut, actions; }
      var launched;
      ghost var more;
      launched, more := LaunchAll(inputs.markers);
      ActsConcat(m, old(Now()), actions, more);
      actions := actions + more;
      var pending := AnyCampaignPending();
      if running == [] && !pending { return AllDone, actions; }
      if running == [] && pending && !launched {
        // The scheduler would report a deadlock here.
        NoDeadlock(m, Now());
        assert false;
      }
      return Continue, actions;
    }
  }

  /** The polling loop, for as long as the environment is observed or until it ends. */
  method Poll(scheduler: Scheduler, rounds: seq<Inputs>) returns (outcome: Outcome, ghost actions: seq<Action>)
    requires scheduler.Valid()
    modifies scheduler
    ensures (scheduler.Now(), outcome) == Rounds(scheduler.m, old(scheduler.Now()), rounds)
    ensures scheduler.Valid() && scheduler.Now() == Acts(scheduler.m, old(scheduler.Now()), actions)
    ensures outcome == AllDone ==> scheduler.running == [] && !AnyPending(scheduler.m, scheduler.State())
    ensures outcome == DrainedOut ==> scheduler.running == [] && scheduler.drained
  {
    hide Invariant, Act, Round;
    outcome, actions := Continue, [];
    for i := 0 to |rounds|
      invariant scheduler.Valid() && scheduler.Now() == Acts(scheduler.m, old(scheduler.Now()), actions)
      invariant (scheduler.Now(), Continue) == Rounds(scheduler.m, old(scheduler.Now()), rounds[..i])
      invariant outcome == Continue
    {
      ghost var more;
      assert rounds[..i + 1][..i] == rounds[..i];
      outcome, more := scheduler.Tick(rounds[i]);
      ActsConcat(scheduler.m, old(scheduler.Now()), actions, more);
      actions := actions + more;
      if outcome != Continue {
        RoundsEnd(scheduler.m, old(scheduler.Now()), rounds, i + 1);
        return;
      }
    }
    assert rounds[..|rounds|] == rounds;
  }

  datatype Verdict = Drained | Incomplete | CompleteWithFailures | Completed

  predicate AnyIn(s: Snapshot, statuses: set<Status>) {
    exists id :: id in s.campaigns && s.campaigns[id].status in statuses
  }

  /** The verdict of the summary file. */
  function Summary(s: Snapshot, drained: bool): Verdict {
    if drained && AnyIn(s, {Pending}) then Drained
    else if AnyIn(s, {Running, Pending}) then Incomplete
    else if AnyIn(s, {Failed, Cancelled}) then CompleteWithFailures
    else Completed
  }

  /**
    When the loop ends with nothing left, the summary is complete exactly when
    every campaign finished well or was never admitted.
   */
  lemma SummaryWhenDone(m: Manifest, l: Live)
    requires Invariant(m, l) && l.running == [] && !AnyPending(m, l.s)
    ensures Summary(l.s, l.drained) == Completed || Summary(l.s, l.drained) == CompleteWithFailures
    ensures Summary(l.s, l.drained) == Completed <==> forall id ::
              id in l.s.campaigns ==> l.s.campaigns[id].status in {Complete, QuotaBlocked}
  {
    hide RunningCount, Total, ProjectAccounts, EventsAccount;
    forall id | id in l.s.campaigns ensures l.s.campaigns[id].status != Pending && l.s.campaigns[id].status != Running {
      var i :| 0 <= i < |m.campaigns| && m.campaigns[i].id == id;
      assert !IsPendingIn(l.s, m.campaigns[i], m.campaigns[i].project);
      assert id !in l.running;
    }
  }

  lemma ChildIsRecorded(m: Manifest, l: Live, id: string)
    requires Invariant(m, l) && id in l.running
    ensures id in l.s.campaigns
  {
    hide Accounted, ValidManifest, RunningCount, Total, NoRepeats;
  }

  lemma ChosenIsKnown(m: Manifest, l: Live, c: Campaign)
    requires Invariant(m, l) && ChooseNext(m, l.s, l.running) == Some(c)
    ensures c.id in l.s.campaigns && c.project in l.s.projects
    ensures ProjectOf(m, c.id) == Some(c.project) && ProjectNamed(m, c.project).Some?
  {
    hide Tracks, ProjectOf, BestProject, BestCampaign, Eligible;
    AccountedCovers(m, l.s);
    var k := Chosen(m, l.s, l.running);
    ChosenProjectKnown(m, l.s, c);
    var owner := CampaignWithId(m, l.s, c.id);
    SameId(m, c, owner);
    NamedProject(m, k);
  }

  lemma OneAct(m: Manifest, l: Live, a: Action)
    ensures Acts(m, l, [a]) == Act(m, l, a)
  {
    hide Act;
    assert [a][1..] == [];
  }

  lemma {:induction false} ActsConcat(m: Manifest, l: Live, xs: seq<Action>, ys: seq<Action>)
    ensures Acts(m, l, xs + ys) == Acts(m, Acts(m, l, xs), ys)
    decreases |xs|
  {
    hide Act;
    if |xs| == 0 {
      assert xs + ys == ys;
    } else {
      assert (xs + ys)[1..] == xs[1..] + ys;
      ActsConcat(m, Act(m, l, xs[0]), xs[1..], ys);
    }
  }

  lemma CancelAllRunning(m: Manifest, l: Live, elapsed: map<string, real>)
    ensures Act(m, l, CancelAll(elapsed)).running == []
  {
  }

  lemma DrainKeeps(m: Manifest, l: Live)
    ensures Act(m, l, Drain) == l.(drained := true)
    ensures Invariant(m, l) ==> Invariant(m, l.(drained := true))
  {
    hide Accounted, ValidManifest, RunningCount, Total;
  }

  lemma LaunchIsAct(m: Manifest, l: Live, marker: bool)
    ensures Act(m, l, Launch(marker)) == DoLaunch(m, l, marker)
  {
  }

  lemma LaunchOnlyAdds(m: Manifest, l: Live, marker: bool)
    ensures l.running != [] ==> Act(m, l, Launch(marker)).running != []
  {
    hide MayLaunch, ChooseNext, QuotaAllows, ProjectNamed;
  }
}
