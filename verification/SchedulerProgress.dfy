/** The polling loop ends: a bound on its rounds, as long as running children finish (scripts/ppc_lab_schedule.py). */
module SchedulerProgress {
  import opened Words
  import opened Schedule
  import opened ScheduleLaws
  import opened ScheduleFairness
  import opened SchedulerLoop

  /** Work left: a pending campaign is still to be started and to be finished. */
  function Work(m: Manifest, l: Live): nat { 2 * PendingCount(m, l.s) + |l.running| }

  /** The observation takes the child out of the running ones. */
  predicate Finishes(m: Manifest, id: string, o: Observation) {
    o.marker || OverWall(m, id, o.elapsed) || o.exit.Some?
  }

  /** While children run, the round sees at least one of them finished, cancelled or over its limit. */
  ghost predicate Observing(m: Manifest, l: Live, inputs: Inputs) {
    l.running != [] ==>
      exists id :: id in l.running && id in inputs.observations && Finishes(m, id, inputs.observations[id])
  }

  /** Nothing was added to the work, and some was done if the running children changed. */
  ghost predicate NoMoreWork(m: Manifest, l: Live, l': Live) {
    Work(m, l') <= Work(m, l) && (l'.running != l.running ==> Work(m, l') < Work(m, l))
  }

  lemma NoMoreWorkThen(m: Manifest, a: Live, b: Live, c: Live)
    requires NoMoreWork(m, a, b) && NoMoreWork(m, b, c)
    ensures NoMoreWork(m, a, c)
  {
    hide PendingCount;
  }

  lemma PendingKept(m: Manifest, s: Snapshot, c: Campaign, v: CampaignState)
    requires ValidManifest(m) && c in m.campaigns && c.id in s.campaigns
    requires s.campaigns[c.id].status != Pending && v.status != Pending
    ensures Total(m.campaigns, s.campaigns[c.id := v], PendingAny()) == Total(m.campaigns, s.campaigns, PendingAny())
  {
    TotalUpdate(m.campaigns, s.campaigns, PendingAny(), c, v);
  }

  lemma RunningIsNotPending(m: Manifest, l: Live, id: string)
    requires Invariant(m, l) && id in l.running
    ensures id in l.s.campaigns && l.s.campaigns[id].status == Running
    ensures NoRepeats(l.running) && ValidManifest(m) && Covers(m, l.s)
  {
    hide RunningCount, Total, ProjectAccounts, EventsAccount;
  }

  function FinalStatus(m: Manifest, id: string, o: Observation): Option<Status> {
    if o.marker || OverWall(m, id, o.elapsed) then Some(Cancelled)
    else if o.exit.Some? then Some(if o.exit.value == 0 then Complete else Failed)
    else None
  }

  /** What reaping a running child changes in the campaigns and the children. */
  lemma ReapShape(m: Manifest, l: Live, id: string, o: Observation)
    requires id in l.running && id in l.s.campaigns
    ensures var final, l' := FinalStatus(m, id, o), Act(m, l, Reap(id, o));
            if final.None? then l' == l
            else l'.s.campaigns == l.s.campaigns[id := l.s.campaigns[id].(status := final.value)]
                 && l'.running == Without(l.running, id)
  {
    hide OverWall, ProjectOf, Without;
  }

  lemma PendingAfterReap(m: Manifest, l: Live, id: string, o: Observation)
    requires Invariant(m, l) && id in l.running
    ensures PendingCount(m, Act(m, l, Reap(id, o)).s) == PendingCount(m, l.s)
  {
    hide Invariant, Act, ValidManifest, PendingCount, Covers, FinalStatus, Total;
    RunningIsNotPending(m, l, id);
    var c := CampaignWithId(m, l.s, id);
    ReapShape(m, l, id, o);
    CountOf(m, l.s);
    CountOf(m, Act(m, l, Reap(id, o)).s);
    var final := FinalStatus(m, id, o);
    if final.Some? {
      FinalIsNotPending(m, id, o);
      PendingKept(m, l.s, c, l.s.campaigns[id].(status := final.value));
    }
  }

  lemma FinalIsNotPending(m: Manifest, id: string, o: Observation)
    ensures FinalStatus(m, id, o) != Some(Pending)
    ensures FinalStatus(m, id, o).Some? <==> Finishes(m, id, o)
  {
    hide OverWall;
  }

  /** Reaping a running child that finishes does work; any other reap changes nothing. */
  lemma ReapWork(m: Manifest, l: Live, id: string, o: Observation)
    requires Invariant(m, l)
    ensures NoMoreWork(m, l, Act(m, l, Reap(id, o)))
    ensures id in l.running && Finishes(m, id, o) ==> Work(m, Act(m, l, Reap(id, o))) < Work(m, l)
  {
    hide Invariant, PendingCount, Act, Without, FinalStatus, Finishes, Covers, ValidManifest;
    if id in l.running {
      RunningIsNotPending(m, l, id);
      PendingAfterReap(m, l, id, o);
      ReapShape(m, l, id, o);
      WithoutOnce(l.running, id);
      FinalIsNotPending(m, id, o);
    } else {
      NotRunningIsNotReaped(m, l, id, o);
    }
  }

  lemma {:induction false} ReapsWork(m: Manifest, l: Live, children: seq<string>,
      observations: map<string, Observation>)
    requires Invariant(m, l)
    ensures var l' := Acts(m, l, ReapsFor(children, observations)); Invariant(m, l') && NoMoreWork(m, l, l')
    decreases |children|
  {
    hide Invariant, Act, Work, NoMoreWork;
    if |children| == 0 {
      SameWork(m, l);
    } else {
      var n := |children| - 1;
      var before := Acts(m, l, ReapsFor(children[..n], observations));
      ReapsWork(m, l, children[..n], observations);
      if children[n] in observations {
        var a := Reap(children[n], observations[children[n]]);
        ActsSnoc(m, l, ReapsFor(children[..n], observations), a);
        ReapWork(m, before, children[n], observations[children[n]]);
        ActKeepsInvariant(m, before, a);
        NoMoreWorkThen(m, l, before, Act(m, before, a));
      } else {
        assert ReapsFor(children[..n], observations) + [] == ReapsFor(children[..n], observations);
      }
    }
  }

  lemma SameWork(m: Manifest, l: Live)
    ensures NoMoreWork(m, l, l)
  {
  }

  /** If one of the children finishes, the reaps of a round do work. */
  lemma {:induction false} ReapsDoWork(m: Manifest, l: Live, children: seq<string>,
      observations: map<string, Observation>, id: string)
    requires Invariant(m, l) && id in l.running && id in children
    requires id in observations && Finishes(m, id, observations[id])
    ensures Work(m, Acts(m, l, ReapsFor(children, observations))) < Work(m, l)
    decreases |children|
  {
    hide Invariant, Act, Work, Finishes;
    var n := |children| - 1;
    var before := Acts(m, l, ReapsFor(children[..n], observations));
    ReapsWork(m, l, children[..n], observations);
    if children[n] in observations {
      ActsSnoc(m, l, ReapsFor(children[..n], observations), Reap(children[n], observations[children[n]]));
      ReapWork(m, before, children[n], observations[children[n]]);
    } else {
      assert ReapsFor(children[..n], observations) + [] == ReapsFor(children[..n], observations);
    }
    if children[n] != id {
      assert id in children[..n];
      ReapsDoWork(m, l, children[..n], observations, id);
    }
  }

  lemma LaunchStartsOne(m: Manifest, l: Live, marker: bool)
    ensures |DoLaunch(m, l, marker).running| <= |l.running| + 1
  {
    hide MayLaunch, ChooseNext, QuotaAllows, ProjectNamed;
  }

  lemma LaunchWork(m: Manifest, l: Live, marker: bool)
    requires Invariant(m, l) && MayLaunch(m, l)
    ensures Work(m, DoLaunch(m, l, marker)) < Work(m, l)
  {
    hide Invariant, MayLaunch, PendingCount, DoLaunch;
    LaunchShrinksPending(m, l, marker);
    LaunchStartsOne(m, l, marker);
  }

  lemma {:induction false} LaunchedWork(m: Manifest, l: Live, markers: set<string>)
    requires Invariant(m, l)
    ensures NoMoreWork(m, l, Launched(m, l, markers)) && Launched(m, l, markers).drained == l.drained
    decreases PendingCount(m, l.s)
  {
    hide Invariant, Work, ChooseNext, PendingCount;
    if MayLaunch(m, l) {
      var marker := ChooseNext(m, l.s, l.running).value.id in markers;
      LaunchWork(m, l, marker);
      LaunchKeepsInvariant(m, l, marker);
      LaunchShrinksPending(m, l, marker);
      LaunchKeepsDrained(m, l, marker);
      LaunchedWork(m, DoLaunch(m, l, marker), markers);
    }
  }

  lemma LaunchKeepsDrained(m: Manifest, l: Live, marker: bool)
    ensures DoLaunch(m, l, marker).drained == l.drained
  {
    hide MayLaunch, ChooseNext, QuotaAllows, ProjectNamed;
  }

  /** A round after which the loop goes on has done some work. */
  lemma RoundWork(m: Manifest, l: Live, inputs: Inputs)
    requires Invariant(m, l) && Observing(m, l, inputs) && Round(m, l, inputs).1 == Continue
    ensures Work(m, Round(m, l, inputs).0) < Work(m, l)
  {
    hide Invariant, Act, Launched, AnyPending, MayLaunch, PendingCount, Finishes;
    var reaped := Acts(m, l, ReapsFor(l.running, inputs.observations));
    ReapsWork(m, l, l.running, inputs.observations);
    DrainKeeps(m, reaped);
    var d := if inputs.drain then reaped.(drained := true) else reaped;
    LaunchedWork(m, d, inputs.markers);
    var n := Launched(m, d, inputs.markers);
    if l.running != [] {
      var id :| id in l.running && id in inputs.observations && Finishes(m, id, inputs.observations[id]);
      ReapsDoWork(m, l, l.running, inputs.observations, id);
    } else {
      assert reaped == l;
      if n.running == [] { NoDeadlock(m, n); }
    }
  }

  /** Each round, until one ends the loop, sees some running child finish. */
  ghost predicate AllObserving(m: Manifest, l: Live, rounds: seq<Inputs>)
    requires Invariant(m, l)
  {
    forall k :: 0 <= k < |rounds| ==>
      var before := Rounds(m, l, rounds[..k]);
      before.1 == Continue ==> Observing(m, before.0, rounds[k])
  }

  lemma {:induction false} WorkShrinks(m: Manifest, l: Live, rounds: seq<Inputs>)
    requires Invariant(m, l) && AllObserving(m, l, rounds) && Rounds(m, l, rounds).1 == Continue
    ensures Work(m, Rounds(m, l, rounds).0) + |rounds| <= Work(m, l)
    decreases |rounds|
  {
    hide Invariant, Round, Observing, Work;
    if |rounds| > 0 {
      var n := |rounds| - 1;
      var shorter := rounds[..n];
      forall k | 0 <= k < n
        ensures var before := Rounds(m, l, shorter[..k]); before.1 == Continue ==> Observing(m, before.0, shorter[k])
      {
        assert shorter[..k] == rounds[..k] && shorter[k] == rounds[k];
      }
      WorkShrinks(m, l, shorter);
      RoundWork(m, Rounds(m, l, shorter).0, rounds[n]);
    }
  }

  /** The loop ends within twice the pending campaigns and the running ones, and one more round. */
  lemma PollingEnds(m: Manifest, l: Live, rounds: seq<Inputs>)
    requires Invariant(m, l) && AllObserving(m, l, rounds)
    requires |rounds| > 2 * PendingCount(m, l.s) + |l.running|
    ensures Rounds(m, l, rounds).1 != Continue
  {
    hide Invariant, Rounds, AllObserving, PendingCount;
    if Rounds(m, l, rounds).1 == Continue { WorkShrinks(m, l, rounds); }
  }
}
