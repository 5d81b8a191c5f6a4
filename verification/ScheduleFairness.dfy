/**
  Progress and fairness of the scheduler: final decisions stay, there is no
  deadlock, and service follows the weights.
 */
module ScheduleFairness {
  import opened Words
  import opened Numbers
  import opened Schedule
  import opened ScheduleLaws

  // ----- final decisions -----

  ghost predicate KeepsTerminal(s: Snapshot, s': Snapshot) {
    forall id :: id in s.campaigns && Terminal(s.campaigns[id].status) ==>
        id in s'.campaigns && s'.campaigns[id].status == s.campaigns[id].status
  }

  lemma ReapKeepsTerminal(m: Manifest, l: Live, id: string, o: Observation)
    requires Invariant(m, l)
    ensures KeepsTerminal(l.s, DoReap(m, l, id, o).s)
  {
    hide Accounted, ValidManifest, OverWall, ProjectOf, Without, RunningCount, Total, NoRepeats;
  }

  lemma CancelAllKeepsTerminal(m: Manifest, l: Live, elapsed: map<string, real>)
    requires Invariant(m, l)
    ensures KeepsTerminal(l.s, Act(m, l, CancelAll(elapsed)).s)
  {
    hide Accounted, ValidManifest, CancelRunning, CancelPending, RunningCount, Total, NoRepeats;
    assert forall i :: 0 <= i < |l.running| ==> l.running[i] in l.running;
    CancelRunningKeeps(m, l.s, l.running, elapsed);
    CancelPendingKeeps(m, CancelRunning(m, l.s, l.running, elapsed), m.campaigns);
  }

  lemma LaunchKeepsTerminal(m: Manifest, l: Live, marker: bool)
    requires Invariant(m, l)
    ensures KeepsTerminal(l.s, DoLaunch(m, l, marker).s)
  {
    hide Accounted, ValidManifest, BestProject, BestCampaign, ProjectNamed, QuotaAllows, Tracks;
  }

  lemma ActKeepsTerminal(m: Manifest, l: Live, a: Action)
    requires Invariant(m, l)
    ensures KeepsTerminal(l.s, Act(m, l, a).s)
  {
    match a
    case CancelAll(elapsed) => CancelAllKeepsTerminal(m, l, elapsed);
    case Reap(id, o) => ReapKeepsTerminal(m, l, id, o);
    case Drain =>
    case Launch(marker) => LaunchKeepsTerminal(m, l, marker);
    case Restart =>
    hide Invariant, DoLaunch, DoReap, CancelRunning, CancelPending;
  }

  /** A campaign that is complete, failed, cancelled or quota-blocked stays so for ever, resumes included. */
  lemma {:induction false} TerminalIsFinal(m: Manifest, l: Live, actions: seq<Action>)
    requires Invariant(m, l)
    ensures KeepsTerminal(l.s, Acts(m, l, actions).s)
    decreases |actions|
  {
    hide Invariant, Act;
    if |actions| > 0 {
      ActKeepsInvariant(m, l, actions[0]);
      ActKeepsTerminal(m, l, actions[0]);
      TerminalIsFinal(m, Act(m, l, actions[0]), actions[1..]);
    }
  }

  // ----- no deadlock -----

  predicate AnyPending(m: Manifest, s: Snapshot) {
    exists i :: 0 <= i < |m.campaigns| && IsPendingIn(s, m.campaigns[i], m.campaigns[i].project)
  }

  lemma IdleProjectEligible(m: Manifest, s: Snapshot, i: nat) returns (k: nat)
    requires ValidManifest(m) && i < |m.campaigns| && IsPendingIn(s, m.campaigns[i], m.campaigns[i].project)
    ensures k < |m.projects| && Eligible(m, s, [], k)
  {
    k :| 0 <= k < |m.projects| && m.projects[k].id == m.campaigns[i].project;
  }

  lemma EligibleIsChosen(m: Manifest, s: Snapshot, running: seq<string>, k: nat)
    requires k < |m.projects| && Eligible(m, s, running, k)
    ensures ChooseNext(m, s, running).Some?
  {
    var best := BestProject(m, s, running, |m.projects|).value;
    var p := m.projects[best].id;
    var i :| 0 <= i < |m.campaigns| && IsPendingIn(s, m.campaigns[i], p);
    hide BestProject, BestCampaign, Eligible, IsPendingIn;
    assert BestCampaign(m, s, p, |m.campaigns|).Some?;
  }

  /** With a free slot everywhere and work pending, there is always something to launch. */
  lemma NoDeadlock(m: Manifest, l: Live)
    requires Invariant(m, l) && l.running == [] && !l.drained && AnyPending(m, l.s)
    ensures MayLaunch(m, l)
  {
    hide Accounted, Tracks, Eligible, IsPendingIn, ChooseNext;
    var i :| 0 <= i < |m.campaigns| && IsPendingIn(l.s, m.campaigns[i], m.campaigns[i].project);
    var k := IdleProjectEligible(m, l.s, i);
    EligibleIsChosen(m, l.s, l.running, k);
  }

  function PendingCount(m: Manifest, s: Snapshot): nat {
    Total(m.campaigns, s.campaigns, PendingAny())
  }

  lemma PendingAfterUpdate(m: Manifest, s: Snapshot, c: Campaign, v: CampaignState)
    requires ValidManifest(m) && c in m.campaigns && c.id in s.campaigns && s.campaigns[c.id].status == Pending
            && v.status != Pending
    ensures Total(m.campaigns, s.campaigns[c.id := v], PendingAny()) + 1 == PendingCount(m, s)
  {
    hide Total;
    TotalUpdate(m.campaigns, s.campaigns, PendingAny(), c, v);
  }

  /** Every round of the launch loop takes one campaign out of the pending set. */
  lemma LaunchShrinksPending(m: Manifest, l: Live, marker: bool)
    requires Invariant(m, l) && MayLaunch(m, l)
    ensures PendingCount(m, DoLaunch(m, l, marker).s) + 1 == PendingCount(m, l.s)
  {
    hide Total, Accounted, Tracks, ValidManifest, BestProject, BestCampaign, QuotaAllows, ProjectNamed, PendingCount;
    hide Eligible;
    var c := ChooseNext(m, l.s, l.running).value;
    var k := Chosen(m, l.s, l.running);
    NamedProject(m, k);
    AccountedCovers(m, l.s);
    ChosenProjectKnown(m, l.s, c);
    var st := l.s.campaigns[c.id];
    PendingAfterUpdate(m, l.s, c, st.(status := Cancelled));
    PendingAfterUpdate(m, l.s, c, st.(status := QuotaBlocked));
    PendingAfterUpdate(m, l.s, c, CampaignState(Running, st.attempts + 1));
    CountOf(m, DoLaunch(m, l, marker).s);
  }

  lemma CountOf(m: Manifest, s: Snapshot)
    ensures PendingCount(m, s) == Total(m.campaigns, s.campaigns, PendingAny())
  {
  }

  lemma ChosenProjectKnown(m: Manifest, s: Snapshot, c: Campaign)
    requires ValidManifest(m) && Covers(m, s) && c in m.campaigns
    ensures c.project in s.projects
  {
    Covered(m, s, c);
  }

  // ----- fair share -----

  /** i has at most one dispatch more than its weight entitles it to against j. */
  predicate Fair(m: Manifest, s: Snapshot, i: nat, j: nat)
    requires i < |m.projects| && j < |m.projects|
  {
    Dispatched(m, s, i) > 0 ==>
      (Dispatched(m, s, i) - 1) * m.projects[j].weight <= Dispatched(m, s, j) * m.projects[i].weight
  }

  predicate EqualService(m: Manifest, s: Snapshot, i: nat, j: nat)
    requires i < |m.projects| && j < |m.projects|
  {
    Dispatched(m, s, i) * m.projects[j].weight == Dispatched(m, s, j) * m.projects[i].weight
  }

  lemma Cancels(x: int, y: int, w: nat)
    requires w >= 1 && x * w <= y * w
    ensures x <= y
  {
    if x > y { StrictlyScaled(y, x, w); }
  }

  /** The cross-multiplied comparison is transitive for positive weights. */
  lemma ServiceTransitive(da: nat, wa: nat, db: nat, wb: nat, dc: nat, wc: nat)
    requires wb >= 1 && da * wb <= db * wa && db * wc <= dc * wb
    ensures da * wc <= dc * wa
  {
    assert (da * wb) * wc <= (db * wa) * wc by { Scaled(da * wb, db * wa, wc); }
    assert (db * wc) * wa <= (dc * wb) * wa by { Scaled(db * wc, dc * wb, wa); }
    assert (da * wb) * wc == (da * wc) * wb;
    assert (db * wa) * wc == (db * wc) * wa;
    assert (dc * wb) * wa == (dc * wa) * wb;
    Cancels(da * wc, dc * wa, wb);
  }

  /** No eligible project has had less service than the chosen one. */
  lemma {:induction false} BestHasLeastService(m: Manifest, s: Snapshot, running: seq<string>, n: nat, j: nat)
    requires ValidManifest(m) && n <= |m.projects| && j < n && Eligible(m, s, running, j)
    requires BestProject(m, s, running, n).Some?
    ensures !LessService(m, s, j, BestProject(m, s, running, n).value)
  {
    hide Eligible, Dispatched;
    var best := BestProject(m, s, running, n - 1);
    if j < n - 1 {
      assert best.Some?;
      BestHasLeastService(m, s, running, n - 1, j);
      var k, b := BestProject(m, s, running, n).value, best.value;
      if k != b {
        ServiceTransitive(Dispatched(m, s, k), m.projects[k].weight, Dispatched(m, s, b), m.projects[b].weight,
            Dispatched(m, s, j), m.projects[j].weight);
      }
    }
  }

  /** How a launch changes the service of a project. */
  lemma DispatchedAfterLaunch(m: Manifest, l: Live, marker: bool, k: nat, i: nat)
    requires Invariant(m, l) && MayLaunch(m, l) && BestProject(m, l.s, l.running, |m.projects|) == Some(k)
            && i < |m.projects|
    ensures Dispatched(m, DoLaunch(m, l, marker).s, i) == Dispatched(m, l.s, i)
         || (i == k && Dispatched(m, DoLaunch(m, l, marker).s, i) == Dispatched(m, l.s, i) + 1)
    ensures k != i ==> Dispatched(m, DoLaunch(m, l, marker).s, i) == Dispatched(m, l.s, i)
  {
    hide Accounted, Tracks, BestProject, BestCampaign, QuotaAllows, ProjectNamed, Eligible;
    OnlyProject(m, i, k);
    var k' := Chosen(m, l.s, l.running);
  }

  /** Either project, or neither, is dispatched once more; i only if it has not had more service than j. */
  lemma FairStep(di: nat, wi: nat, dj: nat, wj: nat, di': nat, dj': nat)
    requires di > 0 ==> (di - 1) * wj <= dj * wi
    requires dj <= dj' && (di' == di || (di' == di + 1 && di * wj <= dj * wi))
    ensures di' > 0 ==> (di' - 1) * wj <= dj' * wi
  {
    Scaled(dj, dj', wi);
  }

  lemma LaunchKeepsFair(m: Manifest, l: Live, marker: bool, i: nat, j: nat)
    requires Invariant(m, l) && i < |m.projects| && j < |m.projects| && Fair(m, l.s, i, j)
    requires MayLaunch(m, l) ==> Eligible(m, l.s, l.running, i) && Eligible(m, l.s, l.running, j)
    ensures Fair(m, DoLaunch(m, l, marker).s, i, j)
  {
    hide Accounted, Tracks, Eligible, Dispatched, BestProject, ChooseNext, QuotaAllows, ProjectNamed, Start, SetStatus;
    if MayLaunch(m, l) {
      var k := Chosen(m, l.s, l.running);
      DispatchedAfterLaunch(m, l, marker, k, i);
      DispatchedAfterLaunch(m, l, marker, k, j);
      BestHasLeastService(m, l.s, l.running, |m.projects|, j);
      hide Invariant, MayLaunch, DoLaunch;
      FairStep(Dispatched(m, l.s, i), m.projects[i].weight, Dispatched(m, l.s, j), m.projects[j].weight,
               Dispatched(m, DoLaunch(m, l, marker).s, i), Dispatched(m, DoLaunch(m, l, marker).s, j));
    }
  }

  lemma OtherActsKeepService(m: Manifest, l: Live, a: Action, i: nat)
    requires !a.Launch? && i < |m.projects|
    ensures Dispatched(m, Act(m, l, a).s, i) == Dispatched(m, l.s, i)
  {
    match a
    case CancelAll(elapsed) =>
      CancelRunningService(m, l.s, l.running, elapsed, i);
      CancelPendingService(m, CancelRunning(m, l.s, l.running, elapsed), m.campaigns, i);
    case Reap(id, o) =>
    case Drain =>
    case Launch(_) =>
    case Restart =>
    hide CancelRunning, CancelPending, OverWall, ProjectOf, Without;
  }

  lemma {:induction false} CancelRunningService(m: Manifest, s: Snapshot, running: seq<string>,
      elapsed: map<string, real>, i: nat)
    requires i < |m.projects|
    ensures Dispatched(m, CancelRunning(m, s, running, elapsed), i) == Dispatched(m, s, i)
    decreases |running|
  {
    hide ProjectOf;
    if |running| > 0 {
      var id := running[0];
      if id in s.campaigns {
        var p, t := ProjectOf(m, id), if id in elapsed then elapsed[id] else 0.0;
        var s1 := if p.Some? then AddElapsed(s, p.value, t) else s;
        CancelRunningService(m, SetStatus(s1, id, Cancelled, WasCancelled), running[1..], elapsed, i);
      } else {
        CancelRunningService(m, s, running[1..], elapsed, i);
      }
    }
  }

  lemma {:induction false} CancelPendingService(m: Manifest, s: Snapshot, cs: seq<Campaign>, i: nat)
    requires i < |m.projects|
    ensures Dispatched(m, CancelPending(s, cs), i) == Dispatched(m, s, i)
    decreases |cs|
  {
    if |cs| > 0 {
      CancelPendingService(m, if cs[0].id in s.campaigns && s.campaigns[cs[0].id].status == Pending
                              then SetStatus(s, cs[0].id, Cancelled, WasCancelled) else s, cs[1..], i);
    }
  }

  /** Projects i and j can both be given a slot whenever one is given. */
  ghost predicate EligibleAtChoices(m: Manifest, l: Live, actions: seq<Action>, i: nat, j: nat)
    requires i < |m.projects| && j < |m.projects|
    decreases |actions|
  {
    |actions| == 0
    || (&& (actions[0].Launch? && MayLaunch(m, l) ==> Eligible(m, l.s, l.running, i) && Eligible(m, l.s, l.running, j))
        && EligibleAtChoices(m, Act(m, l, actions[0]), actions[1..], i, j))
  }

  lemma ActKeepsFair(m: Manifest, l: Live, a: Action, i: nat, j: nat)
    requires Invariant(m, l) && i < |m.projects| && j < |m.projects| && Fair(m, l.s, i, j)
    requires a.Launch? && MayLaunch(m, l) ==> Eligible(m, l.s, l.running, i) && Eligible(m, l.s, l.running, j)
    ensures Fair(m, Act(m, l, a).s, i, j)
  {
    hide Invariant, MayLaunch, Eligible, Dispatched, DoLaunch, DoReap, CancelRunning, CancelPending, Resumed;
    if a.Launch? {
      LaunchKeepsFair(m, l, a.marker, i, j);
    } else {
      OtherActsKeepService(m, l, a, i);
      OtherActsKeepService(m, l, a, j);
    }
  }

  lemma {:induction false} FairThroughout(m: Manifest, l: Live, actions: seq<Action>, i: nat, j: nat)
    requires Invariant(m, l) && i < |m.projects| && j < |m.projects| && Fair(m, l.s, i, j)
    requires EligibleAtChoices(m, l, actions, i, j)
    ensures Fair(m, Acts(m, l, actions).s, i, j)
    decreases |actions|
  {
    hide Invariant, Act, MayLaunch, Eligible, Fair;
    if |actions| > 0 {
      ActKeepsInvariant(m, l, actions[0]);
      ActKeepsFair(m, l, actions[0], i, j);
      FairThroughout(m, Act(m, l, actions[0]), actions[1..], i, j);
    }
  }

  /**
    From equal service, and as long as both projects could be chosen at every
    choice, neither gets more than one dispatch ahead of its weighted share,
    whatever is cancelled, blocked, reaped or resumed in between.
   */
  lemma WeightedFairShare(m: Manifest, l: Live, actions: seq<Action>, i: nat, j: nat)
    requires Invariant(m, l) && i < |m.projects| && j < |m.projects| && EqualService(m, l.s, i, j)
    requires EligibleAtChoices(m, l, actions, i, j)
    ensures Fair(m, Acts(m, l, actions).s, i, j)
  {
    hide Invariant, EligibleAtChoices, Acts, Dispatched;
    var d, w := Dispatched(m, l.s, i), m.projects[j].weight;
    if d > 0 { assert (d - 1) * w == d * w - w; }
    FairThroughout(m, l, actions, i, j);
  }
}
