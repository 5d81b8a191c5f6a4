/** The counts and the coverage of a trace analysis (scripts/ppc_trace_intelligence.py). */
module TraceSummaries {
  import opened Words
  import opened Tallies
  import opened TraceAnalysis
  import opened TraceReporting

  /** The range of addresses seen, in bytes, and how much of it was executed. */
  datatype Coverage = Coverage(low: u32, high: u32, span: nat, covered: nat, density: real)

  datatype Summary = Summary(
    routines: seq<Count<string>>, mnemonics: seq<Count<string>>, uniqueInstructions: nat, coverage: Option<Coverage>)

  function Routines(events: seq<Event>): (r: seq<string>)
    ensures |r| == |events|
  {
    seq(|events|, i requires 0 <= i < |events| => events[i].routine)
  }

  /** The mnemonics that are not empty. */
  function Mnemonics(events: seq<Event>): seq<string> {
    if |events| == 0 then []
    else (if events[0].mnemonic != "" then [events[0].mnemonic] else []) + Mnemonics(events[1..])
  }

  function Instructions(events: seq<Event>): seq<string> {
    if |events| == 0 then []
    else (if events[0].instruction != "" then [events[0].instruction] else []) + Instructions(events[1..])
  }

  lemma {:induction false} InstructionsSeen(events: seq<Event>)
    ensures forall w :: w in Instructions(events) <==> w != "" && exists e :: e in events && e.instruction == w
  {
    if |events| > 0 {
      InstructionsSeen(events[1..]);
      assert events == [events[0]] + events[1..];
    }
  }

  function Unit(s: string): int { 1 }

  lemma {:induction false} SumOfUnits(s: seq<string>)
    ensures Sum(s, Unit) == |s|
  {
    if |s| > 0 { SumOfUnits(s[1..]); }
  }

  lemma {:induction false} PcsSeen(events: seq<Event>)
    ensures |Pcs(events)| == |events| && forall i :: 0 <= i < |events| ==> Pcs(events)[i] == events[i].pc
  {
    if |events| > 0 {
      PcsSeen(events[1..]);
      assert forall i :: 0 < i < |events| ==> events[i] == events[1..][i - 1];
    }
  }

  function Addresses(events: seq<Event>): set<int> { set e | e in events :: e.pc as int }

  lemma AddressesArePcs(events: seq<Event>)
    ensures Addresses(events) == Elements(Pcs(events))
  {
    PcsSeen(events);
    forall pc: u32 ensures pc in Addresses(events) <==> pc in Pcs(events) {
      if pc in Addresses(events) {
        var e :| e in events && e.pc == pc;
        var i :| 0 <= i < |events| && events[i] == e;
        assert Pcs(events)[i] == pc;
      }
      if pc in Pcs(events) {
        var i :| 0 <= i < |events| && Pcs(events)[i] == pc;
        assert events[i] in events;
      }
    }
  }

  predicate UpTo(x: u32, y: u32) { x <= y }

  /** The least and the greatest address, and the bytes from one to the other. */
  ghost predicate Covers(events: seq<Event>, c: Coverage) {
    && (forall e :: e in events ==> c.low <= e.pc <= c.high)
    && c.low in Addresses(events) && c.high in Addresses(events)
    && c.span == c.high - c.low + 4 && c.covered == 4 * |Addresses(events)|
    && c.density * c.span as real == c.covered as real
  }

  method Cover(events: seq<Event>) returns (c: Coverage)
    requires events != []
    ensures Covers(events, c)
  {
    hide Sort, Tally, KeysOf, Pcs, Addresses;
    var counts := Tally(Pcs(events));
    var pcs := Sort(KeysOf(counts), UpTo);
    SortedAddresses(events);
    var low, high := pcs[0], pcs[|pcs| - 1];
    assert low in Addresses(events) && high in Addresses(events);
    SeenAddresses(events);
    var span: nat, covered := high as int - low + 4, 4 * |pcs|;
    c := Coverage(low, high, span, covered, covered as real / span as real);
    RatioTimes(covered as real, span as real);
  }

  lemma SeenAddresses(events: seq<Event>)
    ensures forall e :: e in events ==> e.pc in Addresses(events)
  {
  }

  lemma RatioTimes(x: real, y: real)
    requires y > 0.0
    ensures x / y * y == x
  {
  }

  lemma AddressKeys(events: seq<Event>)
    ensures var keys := KeysOf(Tally(Pcs(events)));
            |keys| == |Addresses(events)| && forall pc :: pc in keys <==> pc in Addresses(events)
  {
    var all := Pcs(events);
    var t := Tally(all);
    var keys := KeysOf(t);
    AddressesArePcs(events);
    TallyCounts(all);
    TallySize(all);
    KeysAt(t);
    assert |keys| == |Addresses(events)|;
    hide Tally, KeysOf, Occurrences, Pcs, Addresses, DistinctKeys;
    forall pc: u32 ensures pc in keys <==> pc in all {
      if pc in keys {
        var i :| 0 <= i < |keys| && keys[i] == pc;
        assert t[i].key == pc;
      }
      if pc in all {
        var i :| 0 <= i < |t| && t[i].key == pc;
        assert keys[i] == pc;
      }
    }
  }

  lemma SortedAddresses(events: seq<Event>)
    requires events != []
    ensures var pcs := Sort(KeysOf(Tally(Pcs(events))), UpTo);
            && |pcs| == |Addresses(events)| > 0
            && (forall pc :: pc in pcs <==> pc in Addresses(events))
            && forall pc :: pc in Addresses(events) ==> pcs[0] <= pc <= pcs[|pcs| - 1]
  {
    var keys := KeysOf(Tally(Pcs(events)));
    assert events[0].pc in Addresses(events);
    hide Tally, KeysOf, Pcs, Addresses, Sort;
    AddressKeys(events);
    UpToIsPreorder();
    SortOrders(keys, UpTo);
    SortElements(keys, UpTo);
    SortedEnds(Sort(keys, UpTo), keys);
  }

  lemma UpToIsPreorder()
    ensures Preorder(UpTo)
  {
  }

  lemma SortedEnds(sorted: seq<u32>, s: seq<u32>)
    requires Ordered(sorted, UpTo) && multiset(sorted) == multiset(s)
    ensures |sorted| == |s| && forall x :: x in sorted <==> x in s
    ensures forall x :: x in s ==> |sorted| > 0 && sorted[0] <= x <= sorted[|sorted| - 1]
  {
    assert |multiset(sorted)| == |sorted| && |multiset(s)| == |s|;
    forall x ensures x in sorted <==> x in s { assert x in sorted <==> x in multiset(sorted); }
    forall x | x in s ensures |sorted| > 0 && sorted[0] <= x <= sorted[|sorted| - 1] {
      assert x in sorted;
      var i :| 0 <= i < |sorted| && sorted[i] == x;
      assert i > 0 ==> UpTo(sorted[0], sorted[i]);
      assert i < |sorted| - 1 ==> UpTo(sorted[i], sorted[|sorted| - 1]);
    }
  }

  /** The n addresses from low on that lie a multiple of four apart. */
  function Steps(low: int, n: nat): (s: set<int>)
    ensures |s| <= n
  {
    if n == 0 then {} else Steps(low, n - 1) + {low + 4 * (n - 1)}
  }

  lemma {:induction false} StepsReach(low: int, n: nat, k: nat)
    requires k < n
    ensures low + 4 * k in Steps(low, n)
    decreases n
  {
    if k < n - 1 { StepsReach(low, n - 1, k); }
  }

  /** At most n addresses a multiple of four apart lie in 4 * n bytes. */
  lemma AlignedSet(addresses: set<int>, low: int, n: nat)
    requires forall a :: a in addresses ==> low <= a < low + 4 * n && (a - low) % 4 == 0
    ensures |addresses| <= n
  {
    forall a | a in addresses ensures a in Steps(low, n) {
      var k := (a - low) / 4;
      assert a == low + 4 * k;
      StepsReach(low, n, k);
    }
    var steps := Steps(low, n);
    assert addresses + (steps - addresses) == steps;
  }

  /** No more than the span is covered where instructions lie a multiple of four bytes apart. */
  lemma DensityAtMostOne(events: seq<Event>, c: Coverage)
    requires Covers(events, c) && forall e :: e in events ==> (e.pc - c.low) % 4 == 0
    ensures c.covered <= c.span && c.density <= 1.0
  {
    var n := c.span / 4;
    assert (c.high - c.low) % 4 == 0;
    assert 4 * n == c.span;
    forall a: int | a in Addresses(events) ensures c.low <= a < c.low + 4 * n && (a - c.low) % 4 == 0 {
    }
    AlignedSet(Addresses(events), c.low, n);
    RatioAtMostOne(c.density, c.covered as real, c.span as real);
  }

  lemma RatioAtMostOne(q: real, x: real, y: real)
    requires q * y == x && x <= y && y > 0.0
    ensures q <= 1.0
  {
    if q > 1.0 { ScaledUp(q, y); }
  }

  lemma ScaledUp(q: real, y: real)
    requires q > 1.0 && y > 0.0
    ensures q * y > y
  {
    assert (q - 1.0) * y > 0.0;
  }

  // ----- analyze_trace -----

  /** How often each routine and each mnemonic was executed, and how many instruction words there were. */
  ghost predicate Summarizes(events: seq<Event>, s: Summary) {
    && Counted(Routines(events), s.routines) && Ordered(s.routines, ByCount)
    && Sum(s.routines, Times(Unit)) == |events|
    && Counted(Mnemonics(events), s.mnemonics) && Ordered(s.mnemonics, ByCount)
    && s.uniqueInstructions == |set e | e in events && e.instruction != "" :: e.instruction|
    && (s.coverage.None? <==> events == [])
    && (s.coverage.Some? ==> Covers(events, s.coverage.value))
  }

  method AnalyzeTrace(events: seq<Event>) returns (r: Report, s: Summary)
    ensures EventsAccounted(events, r)
    ensures FlowAccounted(Split(events), r)
    ensures BlocksWellFormed(r.blocks) && EdgesWellFormed(r.edges, |r.blocks|)
    ensures NoneEmpty(Split(events)) && CountsExact(Split(events), r) && EdgeCountsExact(Split(events), r)
    ensures forall i :: 0 <= i < |r.blocks| ==> DescribedByFirst(Split(events), r.blocks[i])
    ensures Counted(Calls(Split(events)), r.calls) && Ordered(r.calls, CallBefore)
    ensures r.callEdges == Sum(r.calls, Times(Always)) == Sum(r.edges, OfCalls)
    ensures Summarizes(events, s)
  {
    hide *;
    r := ReportTrace(events);
    var routines, mnemonics := Routines(events), Mnemonics(events);
    CountsSummarize(events);
    var words := |Tally(Instructions(events))|;
    var coverage := None;
    if events != [] {
      var c := Cover(events);
      coverage := Some(c);
    }
    s := Summary(Sort(Tally(routines), ByCount), Sort(Tally(mnemonics), ByCount), words, coverage);
    SummaryHolds(events, s);
  }

  lemma SummaryHolds(events: seq<Event>, s: Summary)
    requires Counted(Routines(events), s.routines) && Ordered(s.routines, ByCount)
    requires Sum(s.routines, Times(Unit)) == |events|
    requires Counted(Mnemonics(events), s.mnemonics) && Ordered(s.mnemonics, ByCount)
    requires s.uniqueInstructions == |set e | e in events && e.instruction != "" :: e.instruction|
    requires (s.coverage.None? <==> events == []) && (s.coverage.Some? ==> Covers(events, s.coverage.value))
    ensures Summarizes(events, s)
  {
  }

  lemma CountsSummarize(events: seq<Event>)
    ensures var routines := Sort(Tally(Routines(events)), ByCount);
            && Counted(Routines(events), routines) && Ordered(routines, ByCount)
                && Sum(routines, Times(Unit)) == |events|
    ensures var mnemonics := Sort(Tally(Mnemonics(events)), ByCount);
            Counted(Mnemonics(events), mnemonics) && Ordered(mnemonics, ByCount)
    ensures |Tally(Instructions(events))| == |set e | e in events && e.instruction != "" :: e.instruction|
  {
    hide Sum, Sort, Tally, Mnemonics, Instructions, Occurrences, Preorder;
    ByCountIsPreorder<string>();
    SortedTallyCounts(Routines(events), ByCount);
    SortOrders(Tally(Routines(events)), ByCount);
    SortedTallyWeighs(Routines(events), ByCount, Unit);
    SumOfUnits(Routines(events));
    SortedTallyCounts(Mnemonics(events), ByCount);
    SortOrders(Tally(Mnemonics(events)), ByCount);
    TallySize(Instructions(events));
    InstructionsSeen(events);
    assert Elements(Instructions(events)) == set e | e in events && e.instruction != "" :: e.instruction;
  }
}
