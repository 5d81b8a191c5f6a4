/**
  The trace report: numbered blocks with their executions, edges between
  block numbers, calls and hot addresses, and the laws that tie the tables
  of the report to each other (scripts/ppc_trace_intelligence.py).
 */
module TraceReporting {
  import opened Words
  import opened Tallies
  import opened TraceAnalysis

  datatype BlockReport = BlockReport(start: u32, end: u32, instructionCount: nat, executions: nat, routine: string,
      terminator: string, pcs: seq<u32>)

  /** An edge between two block numbers. */
  datatype EdgeReport = EdgeReport(source: nat, target: nat, kind: Kind, count: nat)

  datatype Report = Report(hot: seq<Count<u32>>, blocks: seq<BlockReport>, edges: seq<EdgeReport>,
      calls: seq<Count<CallSite>>, callEdges: nat)

  // ----- orders -----

  predicate BlockBefore(x: Count<Key>, y: Count<Key>) {
    || x.count > y.count
    || (x.count == y.count && (x.key.start < y.key.start || (x.key.start == y.key.start && x.key.end <= y.key.end)))
  }

  function Rank(k: Kind): nat {
    match k case Branch => 0 case Call => 1 case Fallthrough => 2 case Return => 3
  }

  predicate EdgeBefore(x: Count<Edge>, y: Count<Edge>) {
    || x.count > y.count
    || (x.count == y.count
        && (|| x.key.source.start < y.key.source.start
            || (x.key.source.start == y.key.source.start
                && (|| x.key.target.start < y.key.target.start
                    || (x.key.target.start == y.key.target.start && Rank(x.key.kind) <= Rank(y.key.kind))))))
  }

  lemma OrdersArePreorders()
    ensures Preorder(ByCount<u32>) && Preorder(BlockBefore) && Preorder(EdgeBefore)
  {
    ByCountIsPreorder<u32>();
  }

  predicate SiteAtMost(a: CallSite, b: CallSite) {
    if a.caller != b.caller then AtMost(a.caller, b.caller)
    else if a.callee != b.callee then AtMost(a.callee, b.callee)
    else a.site < b.site || (a.site == b.site && a.target <= b.target)
  }

  predicate CallBefore(x: Count<CallSite>, y: Count<CallSite>) {
    x.count > y.count || (x.count == y.count && SiteAtMost(x.key, y.key))
  }

  lemma SitesOrdered(a: CallSite, b: CallSite, c: CallSite)
    ensures SiteAtMost(a, b) || SiteAtMost(b, a)
    ensures SiteAtMost(a, b) && SiteAtMost(b, c) ==> SiteAtMost(a, c)
  {
    hide AtMost;
    AtMostIsTotal(a.caller, b.caller);
    AtMostIsTotal(a.callee, b.callee);
    AtMostIsTotal(b.caller, c.caller);
    AtMostIsTotal(b.callee, c.callee);
    if AtMost(a.caller, b.caller) && AtMost(b.caller, c.caller) { AtMostIsTransitive(a.caller, b.caller, c.caller); }
    if AtMost(a.callee, b.callee) && AtMost(b.callee, c.callee) { AtMostIsTransitive(a.callee, b.callee, c.callee); }
  }

  lemma CallOrder()
    ensures Preorder(CallBefore)
  {
    hide SiteAtMost;
    forall x: Count<CallSite>, y: Count<CallSite> ensures CallBefore(x, y) || CallBefore(y, x) {
      SitesOrdered(x.key, y.key, x.key);
    }
    forall x: Count<CallSite>, y: Count<CallSite>, z: Count<CallSite> | CallBefore(x, y) && CallBefore(y, z)
      ensures CallBefore(x, z)
    {
      SitesOrdered(x.key, y.key, z.key);
    }
  }

  // ----- building the tables -----

  /** b is the first dynamic block with that key. */
  ghost predicate IsFirst(dyn: seq<Block>, k: Key, b: Block)
    requires NoneEmpty(dyn)
  {
    exists i :: 0 <= i < |dyn| && dyn[i] == b && KeyOf(b) == k && forall j :: 0 <= j < i ==> KeyOf(dyn[j]) != k
  }

  method FirstBlocks(dyn: seq<Block>) returns (bfirst: map<Key, Block>)
    requires NoneEmpty(dyn)
    ensures forall i :: 0 <= i < |dyn| ==> KeyOf(dyn[i]) in bfirst
    ensures forall k :: k in bfirst ==> IsFirst(dyn, k, bfirst[k])
  {
    hide KeyOf;
    bfirst := map[];
    for i := 0 to |dyn|
      invariant forall j :: 0 <= j < i ==> KeyOf(dyn[j]) in bfirst
      invariant forall k :: k in bfirst ==> IsFirst(dyn, k, bfirst[k])
      invariant forall k :: k in bfirst ==> exists j :: 0 <= j < i && KeyOf(dyn[j]) == k
    {
      var k := KeyOf(dyn[i]);
      if k !in bfirst {
        assert IsFirst(dyn, k, dyn[i]);
        bfirst := bfirst[k := dyn[i]];
      }
    }
  }

  /** Every key has its position as its number, and only those are numbered. */
  ghost predicate Numbered(ordered: seq<Count<Key>>, bid: map<Key, nat>) {
    && (forall i :: 0 <= i < |ordered| ==> ordered[i].key in bid && bid[ordered[i].key] == i)
    && (forall k :: k in bid ==> bid[k] < |ordered| && ordered[bid[k]].key == k)
  }

  function BlockOf(c: Count<Key>, b: Block): BlockReport
    requires |b| > 0
  {
    BlockReport(b[0].pc, Last(b).pc, |b|, c.count, b[0].routine, Last(b).mnemonic, Pcs(b))
  }

  /** The blocks are those counted, described by the first block with their key. */
  ghost predicate Described(ordered: seq<Count<Key>>, bfirst: map<Key, Block>, blocks: seq<BlockReport>) {
    && |blocks| == |ordered|
    && forall i :: 0 <= i < |ordered| ==>
         && ordered[i].key in bfirst && |bfirst[ordered[i].key]| > 0 && KeyOf(bfirst[ordered[i].key]) == ordered[i].key
         && blocks[i] == BlockOf(ordered[i], bfirst[ordered[i].key])
  }

  method ReportBlocks(ordered: seq<Count<Key>>, bfirst: map<Key, Block>)
    returns (bid: map<Key, nat>, blocks: seq<BlockReport>)
    requires DistinctKeys(ordered)
    requires forall i :: 0 <= i < |ordered| ==>
              ordered[i].key in bfirst && |bfirst[ordered[i].key]| > 0
              && KeyOf(bfirst[ordered[i].key]) == ordered[i].key
    ensures Numbered(ordered, bid) && Described(ordered, bfirst, blocks) && |blocks| == |ordered|
  {
    hide KeyOf, BlockOf;
    bid, blocks := map[], [];
    for idx := 0 to |ordered|
      invariant Numbered(ordered[..idx], bid) && |blocks| == idx
      invariant forall i :: 0 <= i < idx ==> blocks[i] == BlockOf(ordered[i], bfirst[ordered[i].key])
    {
      var c := ordered[idx];
      assert c.key !in bid;
      bid := bid[c.key := idx];
      blocks := blocks + [BlockOf(c, bfirst[c.key])];
    }
    assert ordered[..|ordered|] == ordered;
  }

  method CountEdges(dyn: seq<Block>) returns (ecounts: seq<Count<Edge>>, cc: seq<Count<CallSite>>)
    requires NoneEmpty(dyn)
    ensures ecounts == Tally(Edges(dyn)) && cc == Tally(Calls(dyn))
  {
    hide KeyOf, Bump, Tally;
    ecounts, cc := [], [];
    NothingCounted(dyn);
    if |dyn| > 0 {
      for i := 0 to |dyn| - 1
        invariant ecounts == Tally(Edges(dyn[..i + 1])) && cc == Tally(Calls(dyn[..i + 1]))
      {
        var left, right := dyn[i], dyn[i + 1];
        NextPair(dyn, i);
        var e := EdgeOf(left, right);
        ecounts := Bump(ecounts, e);
        if e.kind == Call { cc := Bump(cc, CallOf(left, right)); }
      }
      assert dyn[..|dyn|] == dyn;
    }
  }

  lemma NothingCounted(dyn: seq<Block>)
    requires NoneEmpty(dyn)
    ensures Tally(Edges([])) == [] && Tally(Calls([])) == []
    ensures |dyn| > 0 ==> Tally(Edges(dyn[..1])) == [] && Tally(Calls(dyn[..1])) == []
  {
  }

  /** One more pair of neighbours is one more edge, and a call if it is of that kind. */
  lemma NextPair(dyn: seq<Block>, i: nat)
    requires NoneEmpty(dyn) && i + 1 < |dyn|
    ensures var e, done, next := EdgeOf(dyn[i], dyn[i + 1]), dyn[..i + 1], dyn[..i + 2];
            && Tally(Edges(next)) == Bump(Tally(Edges(done)), e)
            && Tally(Calls(next)) == if e.kind == Call then Bump(Tally(Calls(done)), CallOf(dyn[i], dyn[i + 1]))
                else Tally(Calls(done))
  {
    hide Tally, Bump, KeyOf;
    var e, done, next := EdgeOf(dyn[i], dyn[i + 1]), dyn[..i + 1], dyn[..i + 2];
    assert next[..|next| - 1] == done;
    TallySnoc(Edges(done), e);
    if e.kind == Call {
      TallySnoc(Calls(done), CallOf(dyn[i], dyn[i + 1]));
    } else {
      assert Calls(done) + [] == Calls(done);
    }
  }

  /** The edges are those counted, with block numbers for keys. */
  ghost predicate EdgesNumbered(ordered: seq<Count<Edge>>, bid: map<Key, nat>, edges: seq<EdgeReport>) {
    && |edges| == |ordered|
    && forall i :: 0 <= i < |ordered| ==>
         && ordered[i].key.source in bid && ordered[i].key.target in bid
         && edges[i] == EdgeReport(bid[ordered[i].key.source], bid[ordered[i].key.target], ordered[i].key.kind,
             ordered[i].count)
  }

  ghost predicate EndsNumbered(ordered: seq<Count<Edge>>, bid: map<Key, nat>) {
    forall i :: 0 <= i < |ordered| ==> ordered[i].key.source in bid && ordered[i].key.target in bid
  }

  method ReportEdges(ordered: seq<Count<Edge>>, bid: map<Key, nat>) returns (edges: seq<EdgeReport>)
    requires EndsNumbered(ordered, bid)
    ensures EdgesNumbered(ordered, bid, edges)
  {
    edges := [];
    for i := 0 to |ordered|
      invariant EdgesNumbered(ordered[..i], bid, edges)
    {
      var c := ordered[i];
      edges := edges + [EdgeReport(bid[c.key.source], bid[c.key.target], c.key.kind, c.count)];
      assert ordered[..i + 1] == ordered[..i] + [c];
    }
    assert ordered[..|ordered|] == ordered;
  }

  // ----- what the tables say -----

  function Executed(b: BlockReport): int { b.executions * b.instructionCount }
  function ExecutedAt(pc: u32): BlockReport -> int { (b: BlockReport) => b.executions * Occurrences(b.pcs, pc) }
  function Leaving(i: nat): EdgeReport -> int { (e: EdgeReport) => if e.source == i then e.count else 0 }
  function Entering(i: nat): EdgeReport -> int { (e: EdgeReport) => if e.target == i then e.count else 0 }
  function OfCalls(e: EdgeReport): int { if e.kind == Call then e.count else 0 }

  /** The block table accounts for every event, and for every address agrees with the table of hot addresses. */
  ghost predicate EventsAccounted(events: seq<Event>, r: Report) {
    && Sum(r.blocks, Executed) == |events|
    && DistinctKeys(r.hot) && Ordered(r.hot, ByCount)
    && forall pc: u32 :: Sum(r.hot, Times(Is(pc))) == Sum(events, At(pc)) == Sum(r.blocks, ExecutedAt(pc))
  }

  /**
    Every block is left as often as it was executed, less once if the trace
    ends in it, and entered as often, less once if the trace starts in it.
   */
  ghost predicate FlowAccounted(dyn: seq<Block>, r: Report) {
    forall i :: 0 <= i < |r.blocks| ==>
      && |dyn| > 0
      && Sum(r.edges, Leaving(i)) == r.blocks[i].executions - One(r.blocks[i].pcs == Pcs(dyn[|dyn| - 1]))
      && Sum(r.edges, Entering(i)) == r.blocks[i].executions - One(r.blocks[i].pcs == Pcs(dyn[0]))
  }

  /** No two listed blocks cover the same addresses. */
  ghost predicate BlocksWellFormed(blocks: seq<BlockReport>) {
    forall i, j :: 0 <= i < j < |blocks| ==>
        blocks[i].pcs != blocks[j].pcs && blocks[i].executions >= blocks[j].executions
  }

  /** Every edge joins two listed blocks, is no fall-through, and is listed once. */
  ghost predicate EdgesWellFormed(edges: seq<EdgeReport>, blocks: nat) {
    && (forall i :: 0 <= i < |edges| ==>
        edges[i].source < blocks && edges[i].target < blocks && edges[i].kind != Fallthrough)
    && (forall i, j :: 0 <= i < j < |edges| ==>
          (edges[i].source, edges[i].target, edges[i].kind) != (edges[j].source, edges[j].target, edges[j].kind))
  }

  // ----- proofs about the tables -----

  /** What an ordered counter of the dynamic blocks' keys holds. */
  ghost predicate Counted<K(!new)>(keys: seq<K>, ordered: seq<Count<K>>) {
    && DistinctKeys(ordered)
    && (forall i :: 0 <= i < |ordered| ==>
        ordered[i].key in keys && ordered[i].count == Occurrences(keys, ordered[i].key))
    && (forall k :: k in keys ==> exists i :: 0 <= i < |ordered| && ordered[i].key == k)
  }

  lemma SortedTallyCounts<K(!new)>(keys: seq<K>, before: (Count<K>, Count<K>) -> bool)
    ensures Counted(keys, Sort(Tally(keys), before))
  {
    TallyCounts(keys);
    var t, u := Tally(keys), Sort(Tally(keys), before);
    SortKeepsKeys(t, before);
    hide Occurrences, Tally, Sort;
    forall i | 0 <= i < |u| ensures u[i].key in keys && u[i].count == Occurrences(keys, u[i].key) {
      assert u[i] in t;
    }
    forall k | k in keys ensures exists i :: 0 <= i < |u| && u[i].key == k {
      var i :| 0 <= i < |t| && t[i].key == k;
      assert t[i] in u;
      var j :| 0 <= j < |u| && u[j] == t[i];
    }
  }

  lemma SortedTallyWeighs<K>(keys: seq<K>, before: (Count<K>, Count<K>) -> bool, f: K -> int)
    ensures Sum(Sort(Tally(keys), before), Times(f)) == Sum(keys, f)
  {
    SortSum(Tally(keys), before, Times(f));
    TallyWeighs(keys, f);
  }

  lemma DescribedBlock(ordered: seq<Count<Key>>, bfirst: map<Key, Block>, blocks: seq<BlockReport>, i: nat)
    requires Described(ordered, bfirst, blocks) && i < |blocks|
    ensures blocks[i].executions == ordered[i].count && blocks[i].instructionCount == |ordered[i].key.pcs|
            && blocks[i].pcs == ordered[i].key.pcs
  {
    PcsOfBlock(bfirst[ordered[i].key], 0);
  }

  lemma BlocksWeigh(ordered: seq<Count<Key>>, bfirst: map<Key, Block>, blocks: seq<BlockReport>, pc: u32)
    requires Described(ordered, bfirst, blocks)
    ensures Sum(blocks, Executed) == Sum(ordered, Times(Size))
    ensures Sum(blocks, ExecutedAt(pc)) == Sum(ordered, Times(Has(pc)))
  {
    hide Sum, Occurrences;
    forall i | 0 <= i < |blocks|
      ensures Executed(blocks[i]) == Times(Size)(ordered[i])
              && ExecutedAt(pc)(blocks[i]) == Times(Has(pc))(ordered[i])
    {
      DescribedBlock(ordered, bfirst, blocks, i);
    }
    SumMapped(blocks, ordered, Executed, Times(Size));
    SumMapped(blocks, ordered, ExecutedAt(pc), Times(Has(pc)));
  }

  lemma AddressAccounted(events: seq<Event>, bfirst: map<Key, Block>, blocks: seq<BlockReport>, pc: u32)
    requires NoneEmpty(Split(events))
    requires Described(Sort(Tally(Keys(Split(events))), BlockBefore), bfirst, blocks)
    ensures Sum(Sort(Tally(Pcs(events)), ByCount), Times(Is(pc))) == Sum(events, At(pc)) == Sum(blocks, ExecutedAt(pc))
    ensures Sum(blocks, Executed) == |events|
  {
    var dyn := Split(events);
    var keys := Keys(dyn);
    SplitIsSplit(events);
    WholeCut(events, dyn);
    hide *;
    SortedTallyWeighs(Pcs(events), ByCount, Is(pc));
    HotAddress(events, pc);
    BlocksWeigh(Sort(Tally(keys), BlockBefore), bfirst, blocks, pc);
    SortedTallyWeighs(keys, BlockBefore, Has(pc));
    SortedTallyWeighs(keys, BlockBefore, Size);
    KeysCoverEvents(dyn, pc);
  }

  lemma EventsAreAccounted(events: seq<Event>, bfirst: map<Key, Block>, r: Report)
    requires NoneEmpty(Split(events))
    requires Described(Sort(Tally(Keys(Split(events))), BlockBefore), bfirst, r.blocks)
    requires r.hot == Sort(Tally(Pcs(events)), ByCount)
    ensures EventsAccounted(events, r)
  {
    hide Sum, Sort, Tally, Described, Pcs, Keys, Split, Occurrences, NoneEmpty, Preorder;
    OrdersArePreorders();
    SortOrders(Tally(Pcs(events)), ByCount);
    SortedTallyCounts(Pcs(events), ByCount);
    AddressAccounted(events, bfirst, r.blocks, 0);
    forall pc: u32 ensures Sum(r.hot, Times(Is(pc))) == Sum(events, At(pc)) == Sum(r.blocks, ExecutedAt(pc)) {
      AddressAccounted(events, bfirst, r.blocks, pc);
    }
  }

  lemma HotAddress(events: seq<Event>, pc: u32)
    ensures Sum(Pcs(events), Is(pc)) == Sum(events, At(pc))
  {
    PcsOfBlock(events, pc);
  }

  lemma EdgesWeigh(ordered: seq<Count<Edge>>, blocks: seq<Count<Key>>, bid: map<Key, nat>, edges: seq<EdgeReport>,
      i: nat)
    requires EdgesNumbered(ordered, bid, edges) && Numbered(blocks, bid) && i < |blocks|
    ensures Sum(edges, Leaving(i)) == Sum(ordered, Times(LeavesKey(blocks[i].key)))
    ensures Sum(edges, Entering(i)) == Sum(ordered, Times(EntersKey(blocks[i].key)))
  {
    hide Sum;
    SumMapped(edges, ordered, Leaving(i), Times(LeavesKey(blocks[i].key)));
    SumMapped(edges, ordered, Entering(i), Times(EntersKey(blocks[i].key)));
  }

  lemma PcsAreTheKey(b: Block, c: Block)
    requires |b| > 0 && |c| > 0
    ensures KeyOf(b) == KeyOf(c) <==> Pcs(b) == Pcs(c)
  {
    PcsEnds(b);
    PcsEnds(c);
  }

  lemma {:induction false} PcsEnds(b: Block)
    requires |b| > 0
    ensures |Pcs(b)| == |b| && Pcs(b)[0] == b[0].pc && Pcs(b)[|b| - 1] == Last(b).pc
  {
    if |b| > 1 { PcsEnds(b[1..]); }
  }

  /** An entry of the block table, with its key and the dynamic block it was described by. */
  lemma EntryOf(dyn: seq<Block>, ordered: seq<Count<Key>>, bfirst: map<Key, Block>, blocks: seq<BlockReport>, i: nat)
    returns (b: Block)
    requires NoneEmpty(dyn) && ordered == Sort(Tally(Keys(dyn)), BlockBefore)
    requires Described(ordered, bfirst, blocks) && i < |blocks|
    ensures i < |ordered| && |dyn| > 0 && |b| > 0 && KeyOf(b) == ordered[i].key && KeyOf(b) in Keys(dyn)
    ensures blocks[i].pcs == Pcs(b) && blocks[i].executions == ordered[i].count == Occurrences(Keys(dyn), KeyOf(b))
  {
    SortedTallyCounts(Keys(dyn), BlockBefore);
    PcsOfBlock(bfirst[ordered[i].key], 0);
    hide Sort, Tally, Occurrences;
    b := bfirst[ordered[i].key];
    assert |dyn| == |Keys(dyn)| > 0;
  }

  lemma BlockFlow(dyn: seq<Block>, bfirst: map<Key, Block>, bid: map<Key, nat>, r: Report, i: nat)
    requires NoneEmpty(dyn) && i < |r.blocks|
    requires var ordered := Sort(Tally(Keys(dyn)), BlockBefore);
             Described(ordered, bfirst, r.blocks) && Numbered(ordered, bid)
    requires EdgesNumbered(Sort(Tally(Edges(dyn)), EdgeBefore), bid, r.edges)
    ensures && |dyn| > 0 && (forall k :: 0 <= k < |dyn| ==> |dyn[k]| > 0)
            && Sum(r.edges, Leaving(i)) == r.blocks[i].executions - One(r.blocks[i].pcs == Pcs(dyn[|dyn| - 1]))
            && Sum(r.edges, Entering(i)) == r.blocks[i].executions - One(r.blocks[i].pcs == Pcs(dyn[0]))
  {
    assert forall k :: 0 <= k < |dyn| ==> |dyn[k]| > 0;
    hide *;
    var ordered := Sort(Tally(Keys(dyn)), BlockBefore);
    var b := EntryOf(dyn, ordered, bfirst, r.blocks, i);
    var k := KeyOf(b);
    EdgesWeigh(Sort(Tally(Edges(dyn)), EdgeBefore), ordered, bid, r.edges, i);
    SortedTallyWeighs(Edges(dyn), EdgeBefore, LeavesKey(k));
    SortedTallyWeighs(Edges(dyn), EdgeBefore, EntersKey(k));
    FlowIsConserved(dyn, k);
    PcsAreTheKey(b, dyn[|dyn| - 1]);
    PcsAreTheKey(b, dyn[0]);
  }

  lemma FlowIsAccounted(dyn: seq<Block>, bfirst: map<Key, Block>, bid: map<Key, nat>, r: Report)
    requires NoneEmpty(dyn)
    requires var ordered := Sort(Tally(Keys(dyn)), BlockBefore);
             Described(ordered, bfirst, r.blocks) && Numbered(ordered, bid)
    requires EdgesNumbered(Sort(Tally(Edges(dyn)), EdgeBefore), bid, r.edges)
    ensures FlowAccounted(dyn, r)
  {
    hide Sum, Sort, Tally, Pcs, KeyOf, Keys, Edges, EdgesNumbered, Numbered, Described, NoneEmpty, Leaving, Entering;
    hide One;
    forall i | 0 <= i < |r.blocks|
      ensures && |dyn| > 0
              && Sum(r.edges, Leaving(i)) == r.blocks[i].executions - One(r.blocks[i].pcs == Pcs(dyn[|dyn| - 1]))
              && Sum(r.edges, Entering(i)) == r.blocks[i].executions - One(r.blocks[i].pcs == Pcs(dyn[0]))
    {
      BlockFlow(dyn, bfirst, bid, r, i);
    }
  }

  lemma BlocksDiffer(dyn: seq<Block>, bfirst: map<Key, Block>, blocks: seq<BlockReport>, i: nat, j: nat)
    requires NoneEmpty(dyn) && i < j < |blocks|
    requires Described(Sort(Tally(Keys(dyn)), BlockBefore), bfirst, blocks)
    ensures blocks[i].pcs != blocks[j].pcs && blocks[i].executions >= blocks[j].executions
  {
    var t := Tally(Keys(dyn));
    hide *;
    var ordered := Sort(t, BlockBefore);
    var b := EntryOf(dyn, ordered, bfirst, blocks, i);
    var c := EntryOf(dyn, ordered, bfirst, blocks, j);
    PcsAreTheKey(b, c);
    OrderedBlocks(Keys(dyn), i, j);
  }

  lemma OrderedBlocks(keys: seq<Key>, i: nat, j: nat)
    requires i < j < |Sort(Tally(keys), BlockBefore)|
    ensures var ordered := Sort(Tally(keys), BlockBefore);
            ordered[i].key != ordered[j].key && ordered[i].count >= ordered[j].count
  {
    SortedTallyCounts(keys, BlockBefore);
    OrdersArePreorders();
    SortOrders(Tally(keys), BlockBefore);
    hide Sort, Tally, Occurrences, Preorder;
    assert BlockBefore(Sort(Tally(keys), BlockBefore)[i], Sort(Tally(keys), BlockBefore)[j]);
  }

  lemma EdgesDiffer(ordered: seq<Count<Edge>>, blocks: seq<Count<Key>>, bid: map<Key, nat>, edges: seq<EdgeReport>,
      i: nat, j: nat)
    requires DistinctKeys(ordered) && EdgesNumbered(ordered, bid, edges) && Numbered(blocks, bid) && i < j < |edges|
    ensures (edges[i].source, edges[i].target, edges[i].kind) != (edges[j].source, edges[j].target, edges[j].kind)
  {
    assert ordered[i].key != ordered[j].key;
  }

  lemma EdgeIsSound(events: seq<Event>, ordered: seq<Count<Edge>>, blocks: seq<Count<Key>>, bid: map<Key, nat>,
      edges: seq<EdgeReport>, i: nat)
    requires NoneEmpty(Split(events)) && i < |edges|
    requires Counted(Edges(Split(events)), ordered) && EdgesNumbered(ordered, bid, edges) && Numbered(blocks, bid)
    ensures edges[i].source < |blocks| && edges[i].target < |blocks| && edges[i].kind != Fallthrough
  {
    hide Split, Edges, Occurrences;
    NoFallthrough(events, ordered[i].key);
  }

  lemma BlocksAreWellFormed(dyn: seq<Block>, bfirst: map<Key, Block>, blocks: seq<BlockReport>)
    requires NoneEmpty(dyn) && Described(Sort(Tally(Keys(dyn)), BlockBefore), bfirst, blocks)
    ensures BlocksWellFormed(blocks)
  {
    hide Sort, Tally, Keys, Described, NoneEmpty;
    forall i, j | 0 <= i < j < |blocks|
      ensures blocks[i].pcs != blocks[j].pcs && blocks[i].executions >= blocks[j].executions
    {
      BlocksDiffer(dyn, bfirst, blocks, i, j);
    }
  }

  lemma EdgesAreWellFormed(events: seq<Event>, ordered: seq<Count<Edge>>, blocks: seq<Count<Key>>, bid: map<Key, nat>,
      edges: seq<EdgeReport>)
    requires NoneEmpty(Split(events)) && Counted(Edges(Split(events)), ordered)
    requires EdgesNumbered(ordered, bid, edges) && Numbered(blocks, bid)
    ensures EdgesWellFormed(edges, |blocks|)
  {
    hide Split, Edges, EdgesNumbered, Numbered, NoneEmpty, Occurrences;
    forall i | 0 <= i < |edges|
      ensures edges[i].source < |blocks| && edges[i].target < |blocks| && edges[i].kind != Fallthrough
    {
      EdgeIsSound(events, ordered, blocks, bid, edges, i);
    }
    forall i, j | 0 <= i < j < |edges|
      ensures (edges[i].source, edges[i].target, edges[i].kind) != (edges[j].source, edges[j].target, edges[j].kind)
    {
      EdgesDiffer(ordered, blocks, bid, edges, i, j);
    }
  }

  lemma CallsAgree(dyn: seq<Block>, bid: map<Key, nat>, edges: seq<EdgeReport>)
    requires NoneEmpty(dyn) && EdgesNumbered(Sort(Tally(Edges(dyn)), EdgeBefore), bid, edges)
    ensures Sum(Tally(Calls(dyn)), Times(Always)) == Sum(edges, OfCalls)
  {
    hide Sum, Sort, Tally, Edges, Calls;
    TallyWeighs(Calls(dyn), Always);
    var ordered := Sort(Tally(Edges(dyn)), EdgeBefore);
    forall i | 0 <= i < |edges| ensures OfCalls(edges[i]) == Times(IsCallEdge)(ordered[i]) {
      assert edges[i].kind == ordered[i].key.kind && edges[i].count == ordered[i].count;
      assert Times(IsCallEdge)(ordered[i]) == ordered[i].count * IsCallEdge(ordered[i].key);
      if edges[i].kind == Call {
        assert IsCallEdge(ordered[i].key) == 1;
      } else {
        assert IsCallEdge(ordered[i].key) == 0;
      }
    }
    SumMapped(edges, ordered, OfCalls, Times(IsCallEdge));
    SortedTallyWeighs(Edges(dyn), EdgeBefore, IsCallEdge);
    CallsAreCallEdges(dyn);
  }

  // ----- the tables of analyze_trace -----

  /** An entry says exactly how often what it describes happened in the trace. */
  ghost predicate CountsExact(dyn: seq<Block>, r: Report)
    requires NoneEmpty(dyn)
  {
    && (forall b :: b in r.blocks ==> b.executions == Sum(dyn, Covers(b.pcs)) > 0)
    && (forall b :: b in dyn ==> exists i :: 0 <= i < |r.blocks| && r.blocks[i].pcs == Pcs(b))
  }

  function Covers(pcs: seq<u32>): Block -> int { (b: Block) => if Pcs(b) == pcs then 1 else 0 }

  lemma CountIsExact(dyn: seq<Block>, bfirst: map<Key, Block>, blocks: seq<BlockReport>, i: nat)
    requires NoneEmpty(dyn) && i < |blocks|
    requires Described(Sort(Tally(Keys(dyn)), BlockBefore), bfirst, blocks)
    ensures blocks[i].executions == Sum(dyn, Covers(blocks[i].pcs)) > 0
  {
    assert forall j :: 0 <= j < |dyn| ==> |dyn[j]| > 0;
    hide Sum, Sort, Tally, Pcs, KeyOf, Keys, Described, NoneEmpty;
    var b := EntryOf(dyn, Sort(Tally(Keys(dyn)), BlockBefore), bfirst, blocks, i);
    var k := KeyOf(b);
    OccurrencesBounds(Keys(dyn), k);
    forall j | 0 <= j < |dyn| ensures Covers(Pcs(b))(dyn[j]) == Is(k)(Keys(dyn)[j]) {
      PcsAreTheKey(b, dyn[j]);
    }
    SumMapped(dyn, Keys(dyn), Covers(Pcs(b)), Is(k));
  }

  lemma PositionOf<K(!new)>(keys: seq<K>, before: (Count<K>, Count<K>) -> bool, k: K) returns (i: nat)
    requires k in keys
    ensures i < |Sort(Tally(keys), before)| && Sort(Tally(keys), before)[i].key == k
  {
    SortedTallyCounts(keys, before);
    hide Sort, Tally, Occurrences;
    i :| 0 <= i < |Sort(Tally(keys), before)| && Sort(Tally(keys), before)[i].key == k;
  }

  lemma BlockIsListed(dyn: seq<Block>, bfirst: map<Key, Block>, blocks: seq<BlockReport>, j: nat) returns (i: nat)
    requires NoneEmpty(dyn) && j < |dyn|
    requires Described(Sort(Tally(Keys(dyn)), BlockBefore), bfirst, blocks)
    ensures i < |blocks| && blocks[i].pcs == Pcs(dyn[j])
  {
    var ordered := Sort(Tally(Keys(dyn)), BlockBefore);
    assert |ordered| == |blocks| && |dyn[j]| > 0;
    hide *;
    assert Keys(dyn)[j] == KeyOf(dyn[j]);
    i := PositionOf(Keys(dyn), BlockBefore, KeyOf(dyn[j]));
    var b := EntryOf(dyn, ordered, bfirst, blocks, i);
    PcsAreTheKey(b, dyn[j]);
  }

  lemma CountsAreExact(dyn: seq<Block>, bfirst: map<Key, Block>, r: Report)
    requires NoneEmpty(dyn)
    requires Described(Sort(Tally(Keys(dyn)), BlockBefore), bfirst, r.blocks)
    ensures CountsExact(dyn, r)
  {
    hide Sum, Sort, Tally, Pcs, KeyOf, Keys, Described, NoneEmpty;
    forall b | b in r.blocks ensures b.executions == Sum(dyn, Covers(b.pcs)) > 0 {
      var i :| 0 <= i < |r.blocks| && r.blocks[i] == b;
      CountIsExact(dyn, bfirst, r.blocks, i);
    }
    forall b | b in dyn ensures exists i :: 0 <= i < |r.blocks| && r.blocks[i].pcs == Pcs(b) {
      var j :| 0 <= j < |dyn| && dyn[j] == b;
      var i := BlockIsListed(dyn, bfirst, r.blocks, j);
    }
  }

  /** Each edge is counted once for every two neighbouring dynamic blocks it joins in that kind. */
  ghost predicate EdgeCountsExact(dyn: seq<Block>, r: Report)
    requires NoneEmpty(dyn)
  {
    forall i :: 0 <= i < |r.edges| ==> EdgeCountExact(dyn, r.blocks, r.edges[i])
  }

  ghost predicate EdgeCountExact(dyn: seq<Block>, blocks: seq<BlockReport>, e: EdgeReport)
    requires NoneEmpty(dyn)
  {
    && e.source < |blocks| && e.target < |blocks|
    && e.count == Sum(Edges(dyn), Joining(blocks[e.source].pcs, blocks[e.target].pcs, e.kind)) > 0
  }

  function Joining(source: seq<u32>, target: seq<u32>, kind: Kind): Edge -> int {
    (e: Edge) => if e.source.pcs == source && e.target.pcs == target && e.kind == kind then 1 else 0
  }

  lemma KeysByPcs(dyn: seq<Block>, k: Key, l: Key)
    requires NoneEmpty(dyn) && k in Keys(dyn) && l in Keys(dyn)
    ensures k == l <==> k.pcs == l.pcs
  {
    var i :| 0 <= i < |dyn| && Keys(dyn)[i] == k;
    var j :| 0 <= j < |dyn| && Keys(dyn)[j] == l;
    assert k.pcs == Pcs(dyn[i]) && l.pcs == Pcs(dyn[j]);
    PcsAreTheKey(dyn[i], dyn[j]);
  }

  lemma EndsAreKeys(dyn: seq<Block>, e: Edge)
    requires NoneEmpty(dyn) && e in Edges(dyn)
    ensures e.source in Keys(dyn) && e.target in Keys(dyn)
  {
    EdgeEnds(dyn);
    hide Keys, Edges, EdgeOf, KeyOf;
    var i :| 0 <= i < |Edges(dyn)| && Edges(dyn)[i] == e;
    assert Keys(dyn)[i] in Keys(dyn) && Keys(dyn)[i + 1] in Keys(dyn);
  }

  lemma EdgesByPcs(dyn: seq<Block>, e: Edge)
    requires NoneEmpty(dyn) && e in Edges(dyn)
    ensures Occurrences(Edges(dyn), e) == Sum(Edges(dyn), Joining(e.source.pcs, e.target.pcs, e.kind)) > 0
  {
    hide Sum, Edges, Keys, NoneEmpty;
    var es := Edges(dyn);
    EndsAreKeys(dyn, e);
    forall i | 0 <= i < |es| ensures Is(e)(es[i]) == Joining(e.source.pcs, e.target.pcs, e.kind)(es[i]) {
      EndsAreKeys(dyn, es[i]);
      KeysByPcs(dyn, e.source, es[i].source);
      KeysByPcs(dyn, e.target, es[i].target);
    }
    SumMapped(es, es, Is(e), Joining(e.source.pcs, e.target.pcs, e.kind));
    OccurrencesBounds(es, e);
  }

  lemma EdgeCountIsExact(dyn: seq<Block>, ordered: seq<Count<Edge>>, blocks: seq<Count<Key>>, bfirst: map<Key, Block>,
      bid: map<Key, nat>, r: Report, i: nat)
    requires NoneEmpty(dyn) && Counted(Edges(dyn), ordered) && i < |r.edges|
    requires EdgesNumbered(ordered, bid, r.edges) && Numbered(blocks, bid) && Described(blocks, bfirst, r.blocks)
    ensures EdgeCountExact(dyn, r.blocks, r.edges[i])
  {
    hide Sum, Edges, NoneEmpty, Occurrences, KeyOf, Pcs;
    var e := ordered[i].key;
    EdgesByPcs(dyn, e);
    DescribedBlock(blocks, bfirst, r.blocks, bid[e.source]);
    DescribedBlock(blocks, bfirst, r.blocks, bid[e.target]);
  }

  lemma EdgeCountsAreExact(dyn: seq<Block>, ordered: seq<Count<Edge>>, blocks: seq<Count<Key>>,
      bfirst: map<Key, Block>, bid: map<Key, nat>, r: Report)
    requires NoneEmpty(dyn) && Counted(Edges(dyn), ordered)
    requires EdgesNumbered(ordered, bid, r.edges) && Numbered(blocks, bid) && Described(blocks, bfirst, r.blocks)
    ensures EdgeCountsExact(dyn, r)
  {
    hide Sum, Edges, NoneEmpty, EdgesNumbered, Numbered, Described, Counted, EdgeCountExact;
    forall i | 0 <= i < |r.edges| ensures EdgeCountExact(dyn, r.blocks, r.edges[i]) {
      EdgeCountIsExact(dyn, ordered, blocks, bfirst, bid, r, i);
    }
  }

  /** b describes dyn[j], the first dynamic block covering its addresses. */
  ghost predicate DescribesFirst(dyn: seq<Block>, b: BlockReport, j: nat) {
    && j < |dyn| && |dyn[j]| > 0
    && b.pcs == Pcs(dyn[j]) && (forall h :: 0 <= h < j ==> Pcs(dyn[h]) != b.pcs)
    && b.instructionCount == |dyn[j]| && b.start == dyn[j][0].pc && b.end == Last(dyn[j]).pc
    && b.routine == dyn[j][0].routine && b.terminator == Last(dyn[j]).mnemonic
  }

  ghost predicate DescribedByFirst(dyn: seq<Block>, b: BlockReport) { exists j: nat :: DescribesFirst(dyn, b, j) }

  lemma DescriptionsAreFirst(dyn: seq<Block>, ordered: seq<Count<Key>>, bfirst: map<Key, Block>,
      blocks: seq<BlockReport>)
    requires NoneEmpty(dyn) && Described(ordered, bfirst, blocks)
    requires forall k :: k in bfirst ==> IsFirst(dyn, k, bfirst[k])
    ensures forall i :: 0 <= i < |blocks| ==> DescribedByFirst(dyn, blocks[i])
  {
    hide KeyOf, Pcs;
    forall i | 0 <= i < |blocks| ensures DescribedByFirst(dyn, blocks[i]) {
      var k := ordered[i].key;
      var j :| 0 <= j < |dyn| && dyn[j] == bfirst[k] && KeyOf(dyn[j]) == k && forall h ::
          0 <= h < j ==> KeyOf(dyn[h]) != k;
      forall h | 0 <= h < j ensures Pcs(dyn[h]) != Pcs(dyn[j]) { PcsAreTheKey(dyn[h], dyn[j]); }
      assert DescribesFirst(dyn, blocks[i], j);
    }
  }

  lemma SplitNoneEmpty(events: seq<Event>)
    ensures NoneEmpty(Split(events))
  {
    SplitIsSplit(events);
  }

  /** Blocks, edges, calls and hot addresses of a trace. */
  method ReportTrace(events: seq<Event>) returns (r: Report)
    ensures EventsAccounted(events, r)
    ensures FlowAccounted(Split(events), r)
    ensures BlocksWellFormed(r.blocks) && EdgesWellFormed(r.edges, |r.blocks|)
    ensures NoneEmpty(Split(events)) && CountsExact(Split(events), r) && EdgeCountsExact(Split(events), r)
    ensures forall i :: 0 <= i < |r.blocks| ==> DescribedByFirst(Split(events), r.blocks[i])
    ensures Counted(Calls(Split(events)), r.calls) && Ordered(r.calls, CallBefore)
    ensures r.callEdges == Sum(r.calls, Times(Always)) == Sum(r.edges, OfCalls)
  {
    hide *;
    SplitNoneEmpty(events);
    var dyn := SplitDynamicBlocks(events);
    var keys := Keys(dyn);
    var ordered := Sort(Tally(keys), BlockBefore);
    var bfirst := FirstBlocks(dyn);
    KeysAreFirst(dyn, bfirst);
    var bid, blocks := ReportBlocks(ordered, bfirst);
    var ecounts, cc := CountEdges(dyn);
    EndsAreNumbered(dyn, bid);
    var edges := ReportEdges(Sort(ecounts, EdgeBefore), bid);
    var calls := Sort(cc, CallBefore);
    SumOfCounts(calls);
    SortSum(cc, CallBefore, Times(Always));
    CallOrder();
    SortOrders(cc, CallBefore);
    SortedTallyCounts(Calls(dyn), CallBefore);
    r := Report(Sort(Tally(Pcs(events)), ByCount), blocks, edges, calls, Sum(calls, Times(Always)));
    EventsAreAccounted(events, bfirst, r);
    FlowIsAccounted(dyn, bfirst, bid, r);
    BlocksAreWellFormed(dyn, bfirst, blocks);
    SortedTallyCounts(Edges(dyn), EdgeBefore);
    EdgesAreWellFormed(events, Sort(ecounts, EdgeBefore), ordered, bid, edges);
    CountsAreExact(dyn, bfirst, r);
    EdgeCountsAreExact(dyn, Sort(ecounts, EdgeBefore), ordered, bfirst, bid, r);
    DescriptionsAreFirst(dyn, ordered, bfirst, blocks);
    CallsAgree(dyn, bid, edges);
  }

  lemma {:induction false} SumOfCounts(cc: seq<Count<CallSite>>)
    ensures Sum(cc, Times(Always)) >= 0
  {
    if |cc| > 0 {
      assert Times(Always)(cc[0]) == cc[0].count * 1;
      SumOfCounts(cc[1..]);
    }
  }

  lemma KeysAreFirst(dyn: seq<Block>, bfirst: map<Key, Block>)
    requires NoneEmpty(dyn)
    requires forall i :: 0 <= i < |dyn| ==> KeyOf(dyn[i]) in bfirst
    requires forall k :: k in bfirst ==> IsFirst(dyn, k, bfirst[k])
    ensures var ordered := Sort(Tally(Keys(dyn)), BlockBefore);
            && DistinctKeys(ordered)
            && forall i :: 0 <= i < |ordered| ==>
                ordered[i].key in bfirst && |bfirst[ordered[i].key]| > 0
                && KeyOf(bfirst[ordered[i].key]) == ordered[i].key
  {
    SortedTallyCounts(Keys(dyn), BlockBefore);
    hide Sort, Tally, KeyOf, Occurrences;
    var ordered := Sort(Tally(Keys(dyn)), BlockBefore);
    forall i | 0 <= i < |ordered|
      ensures ordered[i].key in bfirst && |bfirst[ordered[i].key]| > 0
              && KeyOf(bfirst[ordered[i].key]) == ordered[i].key
    {
      var j :| 0 <= j < |Keys(dyn)| && Keys(dyn)[j] == ordered[i].key;
      assert KeyOf(dyn[j]) == ordered[i].key;
    }
  }

  lemma EndsAreNumbered(dyn: seq<Block>, bid: map<Key, nat>)
    requires NoneEmpty(dyn) && Numbered(Sort(Tally(Keys(dyn)), BlockBefore), bid)
    ensures EndsNumbered(Sort(Tally(Edges(dyn)), EdgeBefore), bid)
  {
    SortedTallyCounts(Edges(dyn), EdgeBefore);
    hide Sort, Tally, Keys, Edges, Occurrences, NoneEmpty, Numbered;
    var ordered := Sort(Tally(Edges(dyn)), EdgeBefore);
    forall i | 0 <= i < |ordered| ensures ordered[i].key.source in bid && ordered[i].key.target in bid {
      EndsAreKeys(dyn, ordered[i].key);
      KeyIsNumbered(dyn, bid, ordered[i].key.source);
      KeyIsNumbered(dyn, bid, ordered[i].key.target);
    }
  }

  lemma KeyIsNumbered(dyn: seq<Block>, bid: map<Key, nat>, k: Key)
    requires NoneEmpty(dyn) && Numbered(Sort(Tally(Keys(dyn)), BlockBefore), bid) && k in Keys(dyn)
    ensures k in bid
  {
    hide Sort, Tally, Keys, NoneEmpty;
    var i := PositionOf(Keys(dyn), BlockBefore, k);
  }
}
