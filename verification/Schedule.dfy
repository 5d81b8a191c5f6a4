/**
  The campaign scheduler as a state machine: every action ends with the state
  being written, so a crash at any point is a crash between two actions
  (scripts/ppc_lab_schedule.py).
 */
module Schedule {
  import opened Words

  datatype Project = Project(id: string, weight: nat, maxConcurrent: nat, caseBudget: Option<nat>,
      wallSeconds: Option<real>)
  datatype Campaign = Campaign(id: string, project: string, priority: int, reserveCases: nat, wallSeconds: Option<real>)

  /** Projects and campaigns in manifest order. */
  datatype Manifest = Manifest(projects: seq<Project>, campaigns: seq<Campaign>, globalMax: nat)

  /** What validate_manifest checked. */
  ghost predicate ValidManifest(m: Manifest) {
    && m.globalMax >= 1
    && (forall i :: 0 <= i < |m.projects| ==> m.projects[i].weight >= 1 && m.projects[i].maxConcurrent >= 1)
    && (forall i, j :: 0 <= i < j < |m.projects| ==> m.projects[i].id != m.projects[j].id)
    && (forall i, j :: 0 <= i < j < |m.campaigns| ==> m.campaigns[i].id != m.campaigns[j].id)
    && (forall i :: 0 <= i < |m.campaigns| ==> exists j ::
        0 <= j < |m.projects| && m.projects[j].id == m.campaigns[i].project)
  }

  datatype Status = Pending | Running | Complete | Failed | Cancelled | QuotaBlocked

  predicate Terminal(s: Status) { s != Pending && s != Running }

  datatype ProjectState = ProjectState(reservedCases: nat, elapsed: real, dispatched: nat)
  datatype CampaignState = CampaignState(status: Status, attempts: nat)
  datatype Kind = Started | Finished | WasCancelled | WasQuotaBlocked
  datatype Event = Event(kind: Kind, campaign: string)

  /** The persisted state. */
  datatype Snapshot = Snapshot(projects: map<string, ProjectState>, campaigns: map<string, CampaignState>,
      events: seq<Event>)

  /** A running scheduler: the state, the children it started, and whether it saw the drain marker. */
  datatype Live = Live(s: Snapshot, running: seq<string>, drained: bool)

  /** Every campaign and project of the manifest has its record, and no other has. */
  ghost predicate Covers(m: Manifest, s: Snapshot) {
    && (forall id :: id in s.projects <==> exists i :: 0 <= i < |m.projects| && m.projects[i].id == id)
    && (forall id :: id in s.campaigns <==> exists i :: 0 <= i < |m.campaigns| && m.campaigns[i].id == id)
  }

  lemma Covered(m: Manifest, s: Snapshot, c: Campaign)
    requires ValidManifest(m) && Covers(m, s) && c in m.campaigns
    ensures c.id in s.campaigns && c.project in s.projects
  {
    var i :| 0 <= i < |m.campaigns| && m.campaigns[i] == c;
    var j :| 0 <= j < |m.projects| && m.projects[j].id == c.project;
  }

  // ----- sums over the campaigns -----

  type Measure = (Campaign, CampaignState) -> nat

  /** The term of a campaign that has a record. */
  function Term(st: map<string, CampaignState>, f: Measure, c: Campaign): nat {
    if c.id in st then f(c, st[c.id]) else 0
  }

  function Total(cs: seq<Campaign>, st: map<string, CampaignState>, f: Measure): nat {
    if |cs| == 0 then 0 else Term(st, f, cs[0]) + Total(cs[1..], st, f)
  }

  function AttemptsIn(p: string): Measure { (c: Campaign, st: CampaignState) => Attempts(c.project == p, st, 1) }
  function ReservedIn(p: string): Measure { (c: Campaign, st: CampaignState) =>
      Attempts(c.project == p, st, c.reserveCases) }
  function RunningIn(p: string): Measure { (c: Campaign, st: CampaignState) =>
      One(c.project == p && st.status == Running) }
  function RunningAny(): Measure { (c: Campaign, st: CampaignState) => One(st.status == Running) }
  function PendingAny(): Measure { (c: Campaign, st: CampaignState) => One(st.status == Pending) }

  function One(b: bool): nat { if b then 1 else 0 }
  function Attempts(counted: bool, st: CampaignState, each: nat): nat { if counted then st.attempts * each else 0 }

  ghost predicate Distinct(cs: seq<Campaign>) {
    forall i, j :: 0 <= i < j < |cs| ==> cs[i].id != cs[j].id
  }

  lemma {:induction false} TotalOutside(cs: seq<Campaign>, st: map<string, CampaignState>, f: Measure, id: string,
      v: CampaignState)
    requires forall i :: 0 <= i < |cs| ==> cs[i].id != id
    ensures Total(cs, st[id := v], f) == Total(cs, st, f)
  {
    if |cs| > 0 { TotalOutside(cs[1..], st, f, id, v); }
  }

  lemma DistinctTail(cs: seq<Campaign>)
    requires Distinct(cs) && |cs| > 0
    ensures Distinct(cs[1..])
    ensures forall i :: 0 <= i < |cs[1..]| ==> cs[1..][i].id != cs[0].id
    ensures forall c :: c in cs ==> c == cs[0] || (c in cs[1..] && c.id != cs[0].id)
  {
    assert forall i :: 0 <= i < |cs[1..]| ==> cs[1..][i] == cs[i + 1];
    assert cs == [cs[0]] + cs[1..];
  }

  /** Changing one record changes a sum by the difference of its term. */
  lemma {:induction false} TotalUpdate(cs: seq<Campaign>, st: map<string, CampaignState>, f: Measure, c: Campaign,
      v: CampaignState)
    requires Distinct(cs) && c in cs && c.id in st
    ensures Total(cs, st[c.id := v], f) + f(c, st[c.id]) == Total(cs, st, f) + f(c, v)
  {
    DistinctTail(cs);
    hide Distinct;
    if cs[0] == c {
      TotalOutside(cs[1..], st, f, c.id, v);
    } else {
      TotalUpdate(cs[1..], st, f, c, v);
    }
  }

  lemma {:induction false} TotalZero(cs: seq<Campaign>, st: map<string, CampaignState>, f: Measure)
    requires forall i :: 0 <= i < |cs| ==> Term(st, f, cs[i]) == 0
    ensures Total(cs, st, f) == 0
  {
    if |cs| > 0 { TotalZero(cs[1..], st, f); }
  }

  lemma {:induction false} TotalSame(cs: seq<Campaign>, st: map<string, CampaignState>,
      st': map<string, CampaignState>, f: Measure)
    requires forall i :: 0 <= i < |cs| ==> Term(st, f, cs[i]) == Term(st', f, cs[i])
    ensures Total(cs, st, f) == Total(cs, st', f)
  {
    if |cs| > 0 { TotalSame(cs[1..], st, st', f); }
  }

  // ----- choosing -----

  predicate HasPending(m: Manifest, s: Snapshot, p: string) {
    exists i :: 0 <= i < |m.campaigns| && IsPendingIn(s, m.campaigns[i], p)
  }

  predicate IsPendingIn(s: Snapshot, c: Campaign, p: string) {
    c.project == p && c.id in s.campaigns && s.campaigns[c.id].status == Pending
  }

  /** The children started so far, by project. */
  function RunningCount(m: Manifest, running: seq<string>, p: string): nat {
    if |running| == 0 then 0
    else
      var last := if ProjectOf(m, running[|running| - 1]) == Some(p) then 1 else 0;
      RunningCount(m, running[..|running| - 1], p) + last
  }

  function ProjectOf(m: Manifest, id: string): Option<string> {
    FindProject(m.campaigns, id)
  }

  function FindProject(cs: seq<Campaign>, id: string): Option<string> {
    if |cs| == 0 then None else if cs[0].id == id then Some(cs[0].project) else FindProject(cs[1..], id)
  }

  /** A project that may be given the next slot. */
  predicate Eligible(m: Manifest, s: Snapshot, running: seq<string>, k: nat)
    requires k < |m.projects|
  {
    var p := m.projects[k];
    RunningCount(m, running, p.id) < p.maxConcurrent && HasPending(m, s, p.id)
  }

  function Dispatched(m: Manifest, s: Snapshot, k: nat): nat
    requires k < |m.projects|
  {
    if m.projects[k].id in s.projects then s.projects[m.projects[k].id].dispatched else 0
  }

  /** dispatched / weight compared by cross-multiplication. */
  predicate LessService(m: Manifest, s: Snapshot, i: nat, j: nat)
    requires i < |m.projects| && j < |m.projects|
  {
    Dispatched(m, s, i) * m.projects[j].weight < Dispatched(m, s, j) * m.projects[i].weight
  }

  /** Among the first n projects, the eligible one with the least service, the earliest of those. */
  function BestProject(m: Manifest, s: Snapshot, running: seq<string>, n: nat): (r: Option<nat>)
    requires n <= |m.projects|
    ensures r.Some? ==> r.value < n && Eligible(m, s, running, r.value)
    ensures r.None? ==> forall k :: 0 <= k < n ==> !Eligible(m, s, running, k)
  {
    if n == 0 then None
    else
      var best := BestProject(m, s, running, n - 1);
      if Eligible(m, s, running, n - 1) && (best.None? || LessService(m, s, n - 1, best.value)) then Some(n - 1)
          else best
  }

  /** Among the first n campaigns, the pending one of the project with the highest priority, the earliest of those. */
  function BestCampaign(m: Manifest, s: Snapshot, p: string, n: nat): (r: Option<nat>)
    requires n <= |m.campaigns|
    ensures r.Some? ==> r.value < n && IsPendingIn(s, m.campaigns[r.value], p)
    ensures r.Some? ==> forall k :: 0 <= k < n && IsPendingIn(s, m.campaigns[k], p) ==>
                          m.campaigns[k].priority < m.campaigns[r.value].priority
                          || (m.campaigns[k].priority == m.campaigns[r.value].priority && r.value <= k)
    ensures r.None? ==> forall k :: 0 <= k < n ==> !IsPendingIn(s, m.campaigns[k], p)
  {
    if n == 0 then None
    else
      var best, c := BestCampaign(m, s, p, n - 1), m.campaigns[n - 1];
      if IsPendingIn(s, c, p) && (best.None? || c.priority > m.campaigns[best.value].priority) then Some(n - 1)
          else best
  }

  function ChooseNext(m: Manifest, s: Snapshot, running: seq<string>): (r: Option<Campaign>)
    ensures r.Some? ==> r.value in m.campaigns && r.value.id in s.campaigns && s.campaigns[r.value.id].status == Pending
  {
    var p := BestProject(m, s, running, |m.projects|);
    if p.None? then None
    else
      var c := BestCampaign(m, s, m.projects[p.value].id, |m.campaigns|);
      if c.None? then None else Some(m.campaigns[c.value])
  }

  predicate QuotaAllows(p: Project, ps: ProjectState, c: Campaign) {
    && (p.caseBudget.Some? ==> ps.reservedCases + c.reserveCases <= p.caseBudget.value)
    && (p.wallSeconds.Some? ==> ps.elapsed < p.wallSeconds.value)
  }

  function ProjectNamed(m: Manifest, id: string): Option<Project> {
    FindNamed(m.projects, id)
  }

  function FindNamed(ps: seq<Project>, id: string): (r: Option<Project>)
    ensures r.Some? ==> r.value in ps && r.value.id == id
    ensures r.None? ==> forall p :: p in ps ==> p.id != id
  {
    if |ps| == 0 then None else if ps[0].id == id then Some(ps[0]) else FindNamed(ps[1..], id)
  }

  // ----- actions -----

  /** What is seen of a running child: its cancel marker, how long it has run, and its exit code if it is done. */
  datatype Observation = Observation(marker: bool, elapsed: real, exit: Option<int>)

  datatype Action =
    | CancelAll(elapsed: map<string, real>)
    | Reap(id: string, o: Observation)
    | Drain
    | Launch(marker: bool)
    | Restart

  function SetStatus(s: Snapshot, id: string, status: Status, kind: Kind): Snapshot
    requires id in s.campaigns
  {
    s.(campaigns := s.campaigns[id := s.campaigns[id].(status := status)], events := s.events + [Event(kind, id)])
  }

  function AddElapsed(s: Snapshot, p: string, elapsed: real): Snapshot {
    if p in s.projects then s.(projects := s.projects[p := s.projects[p].(elapsed := s.projects[p].elapsed
        + elapsed)]) else s
  }

  /** The wall-clock limit of the campaign is used up. */
  predicate OverWall(m: Manifest, id: string, elapsed: real) {
    exists i :: 0 <= i < |m.campaigns| && m.campaigns[i].id == id
             && m.campaigns[i].wallSeconds.Some? && elapsed >= m.campaigns[i].wallSeconds.value
  }

  function Without(running: seq<string>, id: string): seq<string> {
    if |running| == 0 then [] else if running[0] == id then Without(running[1..], id)
        else [running[0]] + Without(running[1..], id)
  }

  /** A child seen cancelled, over its limit or finished leaves the running set with its final status. */
  function DoReap(m: Manifest, l: Live, id: string, o: Observation): Live {
    if id !in l.running || id !in l.s.campaigns then l
    else
      var final := if o.marker || OverWall(m, id, o.elapsed) then Some((Cancelled, WasCancelled))
                   else if o.exit.Some? then Some((if o.exit.value == 0 then Complete else Failed, Finished))
                   else None;
      if final.None? then l
      else
        var p := ProjectOf(m, id);
        var s := if p.Some? then AddElapsed(l.s, p.value, o.elapsed) else l.s;
        l.(s := SetStatus(s, id, final.value.0, final.value.1), running := Without(l.running, id))
  }

  function CancelRunning(m: Manifest, s: Snapshot, running: seq<string>, elapsed: map<string, real>): Snapshot
    decreases |running|
  {
    if |running| == 0 then s
    else
      var id := running[0];
      if id !in s.campaigns then CancelRunning(m, s, running[1..], elapsed)
      else
        var p := ProjectOf(m, id);
        var s1 := if p.Some? then AddElapsed(s, p.value, if id in elapsed then elapsed[id] else 0.0) else s;
        CancelRunning(m, SetStatus(s1, id, Cancelled, WasCancelled), running[1..], elapsed)
  }

  /** Every pending campaign is cancelled before it starts. */
  function CancelPending(s: Snapshot, cs: seq<Campaign>): Snapshot
    decreases |cs|
  {
    if |cs| == 0 then s
    else CancelPending(if cs[0].id in s.campaigns && s.campaigns[cs[0].id].status == Pending
                       then SetStatus(s, cs[0].id, Cancelled, WasCancelled) else s, cs[1..])
  }

  function Start(s: Snapshot, c: Campaign): Snapshot
    requires c.id in s.campaigns && c.project in s.projects
  {
    var cs, ps := s.campaigns[c.id], s.projects[c.project];
    s.(campaigns := s.campaigns[c.id := CampaignState(Running, cs.attempts + 1)],
       projects := s.projects[c.project := ps.(reservedCases := ps.reservedCases + c.reserveCases,
           dispatched := ps.dispatched + 1)],
       events := s.events + [Event(Started, c.id)])
  }

  predicate MayLaunch(m: Manifest, l: Live) {
    !l.drained && |l.running| < m.globalMax && ChooseNext(m, l.s, l.running).Some?
  }

  /** One round of the launch loop: the chosen campaign is cancelled by its marker, blocked by its quota, or started. */
  function DoLaunch(m: Manifest, l: Live, marker: bool): Live {
    if !MayLaunch(m, l) then l
    else
      var c := ChooseNext(m, l.s, l.running).value;
      var p := ProjectNamed(m, c.project);
      if marker then l.(s := SetStatus(l.s, c.id, Cancelled, WasCancelled))
      else if p.None? || c.project !in l.s.projects then l
      else if !QuotaAllows(p.value, l.s.projects[c.project], c)
          then l.(s := SetStatus(l.s, c.id, QuotaBlocked, WasQuotaBlocked))
      else l.(s := Start(l.s, c), running := l.running + [c.id])
  }

  function Resumed(s: Snapshot): Snapshot {
    s.(campaigns := map id | id in s.campaigns :: if s.campaigns[id].status == Running
        then s.campaigns[id].(status := Pending) else s.campaigns[id])
  }

  function Act(m: Manifest, l: Live, a: Action): Live {
    match a
    case CancelAll(elapsed) => Live(CancelPending(CancelRunning(m, l.s, l.running, elapsed), m.campaigns), [],
        l.drained)
    case Reap(id, o) => DoReap(m, l, id, o)
    case Drain => l.(drained := true)
    case Launch(marker) => DoLaunch(m, l, marker)
    case Restart => Live(Resumed(l.s), [], false)
  }

  function Acts(m: Manifest, l: Live, actions: seq<Action>): Live
    decreases |actions|
  {
    if |actions| == 0 then l else Acts(m, Act(m, l, actions[0]), actions[1..])
  }

  function Fresh(m: Manifest): Snapshot {
    Snapshot(map p | p in m.projects :: p.id := ProjectState(0, 0.0, 0),
             map c | c in m.campaigns :: c.id := CampaignState(Pending, 0), [])
  }
}
