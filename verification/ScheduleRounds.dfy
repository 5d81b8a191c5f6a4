/**
  What one polling round does to a campaign: cancelled, drained, settled by what
  was seen of its child, or left alone (scripts/ppc_lab_schedule.py).
 */
module ScheduleRounds {
  import opened Words
  import opened Schedule
  import opened ScheduleLaws
  import opened ScheduleFairness
  import opened SchedulerLoop
  import opened ScheduleAdmission

  /** The cancel marker ends the round: what runs or waits is cancelled and nothing is started. */
  lemma CancelledRound(m: Manifest, l: Live, inputs: Inputs, id: string)
    requires Invariant(m, l) && inputs.cancelAll && id in l.s.campaigns
    ensures var r := Round(m, l, inputs);
            && r.1 == AllCancelled && r.0.running == []
            && id in r.0.s.campaigns && CancelledFrom(l.s.campaigns[id], r.0.s.campaigns[id])
  {
    hide Act;
    CancelAllDecides(m, l, inputs.elapsed, id);
  }

  // ----- the children that were seen -----

  /** The record and the place among the children are those of before. */
  predicate Untouched(l: Live, l': Live, id: string) {
    && (id in l'.s.campaigns <==> id in l.s.campaigns)
    && (id in l.s.campaigns ==> l'.s.campaigns[id] == l.s.campaigns[id])
    && (id in l'.running <==> id in l.running)
  }

  /** A child that ended has its final status and is no child any more. */
  predicate Settled(l: Live, l': Live, id: string, final: Status) {
    && id in l.s.campaigns && id in l'.s.campaigns && id !in l'.running
    && l'.s.campaigns[id] == CampaignState(final, l.s.campaigns[id].attempts)
  }

  lemma OtherReaped(m: Manifest, l: Live, child: string, o: Observation, id: string)
    requires Invariant(m, l) && id != child
    ensures Untouched(l, Act(m, l, Reap(child, o)), id)
  {
    hide OverWall, ProjectOf, Accounted;
    if child in l.running {
      WithoutOnce(l.running, child);
      hide NoRepeats, Without;
    }
  }

  lemma SeenReaped(m: Manifest, l: Live, c: Campaign, o: Observation, final: Option<Status>)
    requires Invariant(m, l) && c in m.campaigns && c.id in l.running && Decides(c, o, final)
    ensures var l' := Act(m, l, Reap(c.id, o));
            if final.Some? then Settled(l, l', c.id, final.value) else Untouched(l, l', c.id)
  {
    hide Act, Invariant, Decides;
    ReapDecides(m, l, c, o, final);
  }

  lemma ThenUntouched(a: Live, b: Live, c: Live, id: string)
    requires Untouched(b, c, id)
    ensures Untouched(a, b, id) ==> Untouched(a, c, id)
    ensures forall final :: Settled(a, b, id, final) ==> Settled(a, c, id, final)
  {
  }

  lemma UntouchedThen(a: Live, b: Live, c: Live, id: string, final: Status)
    requires Untouched(a, b, id) && Settled(b, c, id, final)
    ensures Settled(a, c, id, final)
  {
  }

  /** Who was not seen stays as before. */
  lemma {:induction false} OthersReaped(m: Manifest, l: Live, children: seq<string>,
      observations: map<string, Observation>, id: string)
    requires Invariant(m, l) && (id !in children || id !in observations)
    ensures Untouched(l, Acts(m, l, ReapsFor(children, observations)), id)
    decreases |children|
  {
    hide Act, Invariant, Untouched;
    Same(l, id);
    if |children| > 0 {
      var init, last := children[..|children| - 1], children[|children| - 1];
      OthersReaped(m, l, init, observations, id);
      if last in observations {
        ActsSnoc(m, l, ReapsFor(init, observations), Reap(last, observations[last]));
        var l1 := Acts(m, l, ReapsFor(init, observations));
        AccountsHoldThroughout(m, l, ReapsFor(init, observations));
        OtherReaped(m, l1, last, observations[last], id);
        ThenUntouched(l, l1, Act(m, l1, Reap(last, observations[last])), id);
      } else {
        assert ReapsFor(children, observations) == ReapsFor(init, observations);
      }
    }
  }

  lemma Same(l: Live, id: string)
    ensures Untouched(l, l, id)
  {
  }

  lemma {:induction false} ChildReaped(m: Manifest, l: Live, children: seq<string>,
      observations: map<string, Observation>, c: Campaign, final: Option<Status>)
    requires Invariant(m, l) && c in m.campaigns && c.id in l.running && c.id in observations
    requires NoRepeats(children) && c.id in children && Decides(c, observations[c.id], final)
    ensures var l' := Acts(m, l, ReapsFor(children, observations));
            if final.Some? then Settled(l, l', c.id, final.value) else Untouched(l, l', c.id)
    decreases |children|
  {
    hide Act, Invariant, Untouched, Settled, Decides;
    var init, last := children[..|children| - 1], children[|children| - 1];
    var l1 := Acts(m, l, ReapsFor(init, observations));
    AccountsHoldThroughout(m, l, ReapsFor(init, observations));
    if last in observations { ActsSnoc(m, l, ReapsFor(init, observations), Reap(last, observations[last])); }
    assert NoRepeats(init) && forall x :: x in children <==> x in init || x == last;
    if last == c.id {
      assert c.id !in init;
      OthersReaped(m, l, init, observations, c.id);
      assert c.id in l1.running by { StillThere(l, l1, c.id); }
      SeenReaped(m, l1, c, observations[c.id], final);
      var l2 := Act(m, l1, Reap(last, observations[last]));
      if final.Some? { UntouchedThen(l, l1, l2, c.id, final.value); } else { ThenUntouched(l, l1, l2, c.id); }
    } else {
      ChildReaped(m, l, init, observations, c, final);
      if last in observations {
        OtherReaped(m, l1, last, observations[last], c.id);
        ThenUntouched(l, l1, Act(m, l1, Reap(last, observations[last])), c.id);
      } else {
        assert ReapsFor(children, observations) == ReapsFor(init, observations);
      }
    }
  }

  lemma StillThere(l: Live, l': Live, id: string)
    requires Untouched(l, l', id)
    ensures id in l'.running <==> id in l.running
  {
  }

  // ----- the launches -----

  predicate IsPending(l: Live, id: string) { id in l.s.campaigns && l.s.campaigns[id].status == Pending }

  lemma LaunchLeaves(m: Manifest, l: Live, marker: bool, id: string)
    requires !IsPending(l, id)
    ensures Untouched(l, DoLaunch(m, l, marker), id)
  {
    hide MayLaunch, BestProject, BestCampaign, QuotaAllows, ProjectNamed;
    if MayLaunch(m, l) { ChosenPending(m, l); }
  }

  lemma ChosenPending(m: Manifest, l: Live)
    requires MayLaunch(m, l)
    ensures ChooseNext(m, l.s, l.running).Some? && IsPending(l, ChooseNext(m, l.s, l.running).value.id)
  {
    hide BestProject, BestCampaign;
  }

  /** The launches concern pending campaigns only. */
  lemma {:induction false} LaunchedLeaves(m: Manifest, l: Live, markers: set<string>, id: string)
    requires Invariant(m, l) && !IsPending(l, id)
    ensures Untouched(l, Launched(m, l, markers), id)
    decreases PendingCount(m, l.s)
  {
    hide Invariant, MayLaunch, DoLaunch, ChooseNext, PendingCount;
    Same(l, id);
    if MayLaunch(m, l) {
      var marker := NextMarked(m, l, markers);
      LaunchKeepsInvariant(m, l, marker);
      LaunchShrinksPending(m, l, marker);
      LaunchLeaves(m, l, marker, id);
      var l1 := DoLaunch(m, l, marker);
      LaunchedLeaves(m, l1, markers, id);
      ThenUntouched(l, l1, Launched(m, l1, markers), id);
    }
  }

  lemma NextMarked(m: Manifest, l: Live, markers: set<string>) returns (marker: bool)
    requires Invariant(m, l) && MayLaunch(m, l)
    ensures Invariant(m, DoLaunch(m, l, marker))
    ensures Launched(m, l, markers) == Launched(m, DoLaunch(m, l, marker), markers)
  {
    hide Invariant, DoLaunch, ChooseNext, PendingCount;
    marker := ChooseNext(m, l.s, l.running).value.id in markers;
    LaunchKeepsInvariant(m, l, marker);
  }

  lemma NoneLaunched(m: Manifest, l: Live, markers: set<string>)
    requires Invariant(m, l) && l.drained
    ensures Launched(m, l, markers) == l
  {
  }

  // ----- whole rounds -----

  lemma RoundIs(m: Manifest, l: Live, inputs: Inputs)
    requires Invariant(m, l) && !inputs.cancelAll
    ensures var reaped := Acts(m, l, ReapsFor(l.running, inputs.observations));
            var d := if inputs.drain then reaped.(drained := true) else reaped;
            && Invariant(m, reaped) && Invariant(m, d)
            && Round(m, l, inputs) == if d.drained && d.running == [] then (d, DrainedOut)
               else var n := Launched(m, d, inputs.markers);
                    (n, if n.running == [] && !AnyPending(m, n.s) then AllDone else Continue)
  {
    AccountsHoldThroughout(m, l, ReapsFor(l.running, inputs.observations));
    DrainKeeps(m, Acts(m, l, ReapsFor(l.running, inputs.observations)));
    hide Invariant, Acts, Launched, AnyPending;
  }

  /**
    A child seen cancelled, over its limit or finished ends the round with the
    status this gives it; one that was seen to go on, or not seen, goes on.
   */
  lemma ChildSettled(m: Manifest, l: Live, inputs: Inputs, c: Campaign, final: Option<Status>)
    requires Invariant(m, l) && !inputs.cancelAll && c in m.campaigns && c.id in l.running
    requires if c.id in inputs.observations then Decides(c, inputs.observations[c.id], final) else final == None
    ensures final != Some(Pending)
    ensures var l' := Round(m, l, inputs).0;
            if final.Some? then Settled(l, l', c.id, final.value) else Untouched(l, l', c.id)
  {
    hide Round, Invariant, Decides, Untouched, Settled, Acts, Launched;
    RoundIs(m, l, inputs);
    var reaped := Acts(m, l, ReapsFor(l.running, inputs.observations));
    var d := if inputs.drain then reaped.(drained := true) else reaped;
    if c.id in inputs.observations {
      ChildReaped(m, l, l.running, inputs.observations, c, final) by { Children(m, l); }
    } else {
      OthersReaped(m, l, l.running, inputs.observations, c.id);
    }
    Undrained(l, reaped, c.id);
    assert final != Some(Pending) by {
      if c.id in inputs.observations { NeverPending(c, inputs.observations[c.id], final); }
    }
    NotPending(m, l, d, c, final);
    LaunchedLeaves(m, d, inputs.markers, c.id);
    ThenUntouched(l, d, Launched(m, d, inputs.markers), c.id);
  }

  lemma Children(m: Manifest, l: Live)
    requires Invariant(m, l)
    ensures NoRepeats(l.running)
  {
  }

  lemma NeverPending(c: Campaign, o: Observation, final: Option<Status>)
    requires Decides(c, o, final)
    ensures final != Some(Pending)
  {
  }

  lemma Undrained(l: Live, l': Live, id: string)
    ensures Untouched(l, l', id) ==> Untouched(l, l'.(drained := true), id)
    ensures forall final :: Settled(l, l', id, final) ==> Settled(l, l'.(drained := true), id, final)
  {
  }

  lemma NotPending(m: Manifest, l: Live, l': Live, c: Campaign, final: Option<Status>)
    requires Invariant(m, l) && c.id in l.running && final != Some(Pending)
    requires if final.Some? then Settled(l, l', c.id, final.value) else Untouched(l, l', c.id)
    ensures !IsPending(l', c.id)
  {
    hide Accounted, NoRepeats;
  }

  /** While draining nothing is started: who does not run is left alone, and the loop ends when the last child does. */
  lemma DrainedRound(m: Manifest, l: Live, inputs: Inputs, id: string)
    requires Invariant(m, l) && !inputs.cancelAll && (inputs.drain || l.drained) && id !in l.running
    ensures var r := Round(m, l, inputs);
            r.0.drained && Untouched(l, r.0, id) && (r.1 == DrainedOut <==> r.0.running == [])
  {
    hide Round, Invariant, Untouched, Acts, Launched, AnyPending;
    RoundIs(m, l, inputs);
    var reaped := Acts(m, l, ReapsFor(l.running, inputs.observations));
    var d := if inputs.drain then reaped.(drained := true) else reaped;
    OthersReaped(m, l, l.running, inputs.observations, id);
    Undrained(l, reaped, id);
    OnlyReaps(l.running, inputs.observations);
    StaysDrained(m, l, ReapsFor(l.running, inputs.observations));
    NoneLaunched(m, d, inputs.markers);
  }

  lemma {:induction false} StaysDrained(m: Manifest, l: Live, reaps: seq<Action>)
    requires forall i :: 0 <= i < |reaps| ==> reaps[i].Reap?
    ensures Acts(m, l, reaps).drained == l.drained
    decreases |reaps|
  {
    if |reaps| > 0 {
      StaysDrained(m, Act(m, l, reaps[0]), reaps[1..]);
      hide OverWall, ProjectOf, Without, SetStatus, AddElapsed;
    }
  }

  lemma {:induction false} OnlyReaps(children: seq<string>, observations: map<string, Observation>)
    ensures forall i :: 0 <= i < |ReapsFor(children, observations)| ==> ReapsFor(children, observations)[i].Reap?
  {
    if |children| > 0 { OnlyReaps(children[..|children| - 1], observations); }
  }

  /** Otherwise the slots are used up: all are taken, or no project below its cap has a campaign pending. */
  lemma SlotsUsed(m: Manifest, l: Live, inputs: Inputs)
    requires Invariant(m, l) && !inputs.cancelAll && !inputs.drain && !l.drained
    ensures var r := Round(m, l, inputs);
            && !r.0.drained && r.1 != DrainedOut && r.1 != AllCancelled
            && (|r.0.running| == m.globalMax || forall k: nat :: k < |m.projects| ==> !Waiting(m, r.0, k))
            && (r.1 == AllDone <==> r.0.running == [] && !AnyPending(m, r.0.s))
  {
    hide Round, Invariant, Acts, AnyPending, Waiting;
    RoundIs(m, l, inputs);
    OnlyReaps(l.running, inputs.observations);
    StaysDrained(m, l, ReapsFor(l.running, inputs.observations));
    var d := Acts(m, l, ReapsFor(l.running, inputs.observations));
    LaunchedDrained(m, d, inputs.markers);
    NoSlot(m, Launched(m, d, inputs.markers));
  }

  lemma {:induction false} LaunchedDrained(m: Manifest, l: Live, markers: set<string>)
    requires Invariant(m, l)
    ensures Launched(m, l, markers).drained == l.drained
    decreases PendingCount(m, l.s)
  {
    hide Invariant, MayLaunch, DoLaunch, ChooseNext, PendingCount;
    if MayLaunch(m, l) {
      var marker := NextMarked(m, l, markers);
      LaunchKeepsInvariant(m, l, marker);
      LaunchShrinksPending(m, l, marker);
      LaunchedDrained(m, DoLaunch(m, l, marker), markers);
      DrainedKept(m, l, marker);
    }
  }

  lemma DrainedKept(m: Manifest, l: Live, marker: bool)
    ensures DoLaunch(m, l, marker).drained == l.drained
  {
    hide MayLaunch, ChooseNext, QuotaAllows, ProjectNamed, Start, SetStatus;
  }

  lemma NoSlot(m: Manifest, l: Live)
    requires Invariant(m, l) && !MayLaunch(m, l) && !l.drained
    ensures |l.running| == m.globalMax || forall k: nat :: k < |m.projects| ==> !Waiting(m, l, k)
  {
    hide NoRepeats, Covers, ProjectAccounts, EventsAccount, Waiting, ValidManifest, Total, RunningCount;
    if |l.running| < m.globalMax {
      forall k: nat | k < |m.projects| ensures !Waiting(m, l, k) {
        WaitingIsEligible(m, l, k);
        NoneEligible(m, l, k);
      }
    }
  }

  lemma NoneEligible(m: Manifest, l: Live, k: nat)
    requires k < |m.projects| && ChooseNext(m, l.s, l.running).None?
    ensures !Eligible(m, l.s, l.running, k)
  {
    hide RunningCount, BestProject, BestCampaign;
    var p := BestProject(m, l.s, l.running, |m.projects|);
    if p.Some? { EligibleChooses(m, l, p.value); }
  }

  lemma EligibleChooses(m: Manifest, l: Live, k: nat)
    requires BestProject(m, l.s, l.running, |m.projects|) == Some(k)
    ensures ChooseNext(m, l.s, l.running).Some?
  {
    hide RunningCount, BestProject;
    assert HasPending(m, l.s, m.projects[k].id);
  }
}
