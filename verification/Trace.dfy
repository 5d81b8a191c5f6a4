/**
  Dynamic basic blocks of an instruction trace, and the accounting of block
  executions, edges and calls (scripts/ppc_trace_intelligence.py).
 */
module TraceAnalysis {
  import opened Words
  import opened Tallies

  /** An executed instruction: its word as text, its mnemonic, and the symbol without its offset. */
  datatype Event = Event(pc: u32, instruction: string, mnemonic: string, routine: string)

  predicate IsControlTransfer(m: string) {
    m != "" && (m[0] == 'b' || m in {"sc", "rfi", "rfid", "tw", "twi"})
  }

  predicate IsCall(m: string) {
    m != "" && (m in {"bl", "bla", "bctrl", "blrl", "bcl", "bcla", "bcctrl", "bcctrl."}
        || (m[0] == 'b' && m[|m| - 1] == 'l' && m != "blr"))
  }

  predicate IsReturn(m: string) { m in {"blr", "blrl"} }

  function NextPc(pc: u32): u32 { (pc + 4) % 0x1_0000_0000 }

  // ----- splitting -----

  type Block = seq<Event>

  /** Control does not simply run on from e to the next event. */
  predicate Breaks(e: Event, next: Event) { IsControlTransfer(e.mnemonic) || next.pc != NextPc(e.pc) }

  /** Nonempty, consecutive, and with a control transfer at the end if anywhere. */
  ghost predicate Straight(b: Block) {
    |b| > 0 && forall i :: 0 <= i < |b| - 1 ==> !Breaks(b[i], b[i + 1])
  }

  ghost predicate AllStraight(bs: seq<Block>) { forall k :: 0 <= k < |bs| ==> Straight(bs[k]) }

  function Last(b: Block): Event requires |b| > 0 { b[|b| - 1] }

  /** No two neighbouring blocks could have been one. */
  ghost predicate Maximal(bs: seq<Block>)
    requires AllStraight(bs)
  {
    forall k :: 0 <= k < |bs| - 1 ==> Breaks(Last(bs[k]), bs[k + 1][0])
  }

  function Concat(bs: seq<Block>): seq<Event> { if |bs| == 0 then [] else bs[0] + Concat(bs[1..]) }

  /** bs cuts the events into maximal straight-line blocks. */
  ghost predicate IsSplit(events: seq<Event>, bs: seq<Block>) {
    Concat(bs) == events && AllStraight(bs) && Maximal(bs)
  }

  /** The cut, read off the events directly. */
  function Split(events: seq<Event>): seq<Block> {
    if |events| == 0 then []
    else
      var rest := Split(events[1..]);
      if |rest| == 0 || Breaks(events[0], events[1]) then [[events[0]]] + rest
      else [[events[0]] + rest[0]] + rest[1..]
  }

  /** The first event of a nonempty cut. */
  lemma CutStarts(events: seq<Event>, bs: seq<Block>)
    requires IsSplit(events, bs)
    ensures |bs| == 0 <==> |events| == 0
    ensures |bs| > 0 ==> Straight(bs[0]) && bs[0][0] == events[0]
  {
  }

  lemma CutWithNewBlock(e: Event, events: seq<Event>, bs: seq<Block>)
    requires IsSplit(events, bs) && (|events| > 0 ==> Breaks(e, events[0]))
    ensures IsSplit([e] + events, [[e]] + bs)
  {
    CutStarts(events, bs);
    var cs := [[e]] + bs;
    hide Breaks;
    assert cs[1..] == bs;
    forall k | 0 <= k < |cs| ensures Straight(cs[k]) { if k > 0 { assert cs[k] == bs[k - 1]; } }
    forall k | 0 <= k < |cs| - 1 ensures Breaks(Last(cs[k]), cs[k + 1][0]) {
      assert cs[k + 1] == bs[k];
      if k > 0 { assert cs[k] == bs[k - 1]; }
    }
  }

  lemma StraightGrows(e: Event, b: Block)
    requires Straight(b) && !Breaks(e, b[0])
    ensures Straight([e] + b) && Last([e] + b) == Last(b)
  {
    var c := [e] + b;
    hide Breaks;
    forall i | 0 <= i < |c| - 1 ensures !Breaks(c[i], c[i + 1]) {
      assert c[i + 1] == b[i];
      if i > 0 { assert c[i] == b[i - 1]; }
    }
  }

  lemma CutWithLongerBlock(e: Event, events: seq<Event>, bs: seq<Block>)
    requires IsSplit(events, bs) && |events| > 0 && |bs| > 0 && !Breaks(e, events[0])
    ensures IsSplit([e] + events, [[e] + bs[0]] + bs[1..])
  {
    CutStarts(events, bs);
    StraightGrows(e, bs[0]);
    var cs := [[e] + bs[0]] + bs[1..];
    hide Breaks, Straight;
    assert cs[1..] == bs[1..];
    assert [e] + bs[0] + Concat(bs[1..]) == [e] + events;
    forall k | 0 <= k < |cs| ensures Straight(cs[k]) { if k > 0 { assert cs[k] == bs[k]; } }
    assert AllStraight(cs) && AllStraight(bs);
    forall k | 0 <= k < |cs| - 1 ensures Breaks(Last(cs[k]), cs[k + 1][0]) {
      assert Breaks(Last(bs[k]), bs[k + 1][0]);
      assert cs[k + 1] == bs[k + 1] && Last(cs[k]) == Last(bs[k]);
    }
  }

  lemma {:induction false} SplitIsSplit(events: seq<Event>)
    ensures IsSplit(events, Split(events))
  {
    if |events| > 0 {
      var e, rest := events[0], Split(events[1..]);
      SplitIsSplit(events[1..]);
      CutStarts(events[1..], rest);
      assert [e] + events[1..] == events;
      hide Breaks, IsSplit;
      if |rest| == 0 || Breaks(e, events[1]) {
        CutWithNewBlock(e, events[1..], rest);
      } else {
        CutWithLongerBlock(e, events[1..], rest);
      }
    }
  }

  /** Without its first event, a cut is a cut. */
  lemma CutTail(events: seq<Event>, bs: seq<Block>)
    requires IsSplit(events, bs) && |bs| > 0
    ensures events == bs[0] + Concat(bs[1..]) && Straight(bs[0])
    ensures |bs[0]| == 1 ==> IsSplit(events[1..], bs[1..])
    ensures |bs[0]| == 1 && |bs| > 1 ==> |events| > 1 && Breaks(events[0], events[1])
    ensures |bs[0]| > 1 ==> !Breaks(events[0], events[1]) && IsSplit(events[1..], [bs[0][1..]] + bs[1..])
  {
    var b, tail := bs[0], bs[1..];
    hide Breaks;
    assert forall k :: 0 <= k < |tail| ==> tail[k] == bs[k + 1];
    if |b| == 1 {
      assert events[1..] == Concat(tail);
      if |bs| > 1 { assert Breaks(Last(bs[0]), bs[0 + 1][0]) && tail[0] == bs[1]; }
    } else {
      var cs := [b[1..]] + tail;
      assert cs[1..] == tail && events[1..] == b[1..] + Concat(tail);
      assert Last(b[1..]) == Last(b);
      forall i | 0 <= i < |b| - 2 ensures !Breaks(b[1..][i], b[1..][i + 1]) { assert !Breaks(b[i + 1], b[i + 1 + 1]); }
      assert !Breaks(b[0], b[0 + 1]);
      forall k | 0 <= k < |cs| - 1 ensures Breaks(Last(cs[k]), cs[k + 1][0]) {
        assert Breaks(Last(bs[k]), bs[k + 1][0]);
        assert cs[k + 1] == bs[k + 1];
      }
    }
  }

  /** There is exactly one such cut. */
  lemma {:induction false} OneSplit(events: seq<Event>, bs: seq<Block>)
    requires IsSplit(events, bs)
    ensures bs == Split(events)
    decreases |events|
  {
    CutStarts(events, bs);
    if |bs| > 0 {
      CutTail(events, bs);
      var b := bs[0];
      hide Breaks, IsSplit;
      assert bs == [b] + bs[1..];
      if |b| == 1 {
        OneSplit(events[1..], bs[1..]);
        assert b == [events[0]];
      } else {
        OneSplit(events[1..], [b[1..]] + bs[1..]);
        assert b == [events[0]] + b[1..];
      }
    }
  }

  lemma {:induction false} ConcatSnoc(bs: seq<Block>, b: Block)
    ensures Concat(bs + [b]) == Concat(bs) + b
  {
    if |bs| > 0 {
      assert (bs + [b])[1..] == bs[1..] + [b];
      ConcatSnoc(bs[1..], b);
    }
  }

  lemma ConcatEnds(bs: seq<Block>)
    requires AllStraight(bs) && |bs| > 0
    ensures |Concat(bs)| > 0 && Concat(bs)[|Concat(bs)| - 1] == Last(bs[|bs| - 1])
  {
    var n := |bs| - 1;
    assert Straight(bs[n]) && bs == bs[..n] + [bs[n]];
    ConcatSnoc(bs[..n], bs[n]);
  }

  /** A cut grows by a block that starts where control broke. */
  lemma CutSnoc(events: seq<Event>, bs: seq<Block>, b: Block)
    requires IsSplit(events, bs) && Straight(b)
    requires |events| > 0 ==> Breaks(events[|events| - 1], b[0])
    ensures IsSplit(events + b, bs + [b])
  {
    var cs, n := bs + [b], |bs|;
    StraightNotEmpty(bs);
    assert |b| > 0;
    assert forall k :: 0 <= k < |cs| ==> |cs[k]| > 0 by { assert forall k :: 0 <= k < n ==> cs[k] == bs[k]; }
    hide Breaks, Straight, Concat;
    ConcatSnoc(bs, b);
    if n > 0 { ConcatEnds(bs); }
    forall k | 0 <= k < |cs| ensures Straight(cs[k]) { if k < n { assert cs[k] == bs[k]; } }
    forall k | 0 <= k < |cs| - 1 ensures Breaks(Last(cs[k]), cs[k + 1][0]) {
      assert cs[k] == bs[k];
      if k < n - 1 { assert cs[k + 1] == bs[k + 1]; }
    }
  }

  lemma StraightNotEmpty(bs: seq<Block>)
    requires AllStraight(bs)
    ensures forall k :: 0 <= k < |bs| ==> Straight(bs[k]) && |bs[k]| > 0
  {
  }

  /** Without its last block, a cut is a cut of what came before. */
  lemma CutFront(bs: seq<Block>, b: Block)
    requires IsSplit(Concat(bs + [b]), bs + [b])
    ensures IsSplit(Concat(bs), bs) && Straight(b) && Concat(bs + [b]) == Concat(bs) + b
    ensures |bs| > 0 ==> |Concat(bs)| > 0 && Breaks(Concat(bs)[|Concat(bs)| - 1], b[0])
    ensures |bs| == 0 ==> Concat(bs) == []
  {
    var cs, n := bs + [b], |bs|;
    assert n == 0 ==> Concat(bs) == [];
    StraightNotEmpty(cs);
    hide Breaks, Straight, Concat;
    ConcatSnoc(bs, b);
    forall k | 0 <= k < n ensures Straight(bs[k]) && |bs[k]| > 0 && bs[k] == cs[k] {
      assert Straight(cs[k]) && |cs[k]| > 0;
    }
    assert cs[n] == b && Straight(cs[n]);
    forall k | 0 <= k < n ensures Breaks(Last(bs[k]), cs[k + 1][0]) { assert cs[k] == bs[k]; }
    forall k | 0 <= k < n - 1 ensures Breaks(Last(bs[k]), bs[k + 1][0]) { assert cs[k + 1] == bs[k + 1]; }
    if n > 0 { ConcatEnds(bs); }
  }

  lemma StraightSnoc(b: Block, e: Event)
    requires |b| > 0 ==> Straight(b) && !Breaks(Last(b), e)
    ensures Straight(b + [e])
  {
    var c := b + [e];
    hide Breaks;
    forall i | 0 <= i < |c| - 1 ensures !Breaks(c[i], c[i + 1]) {
      assert c[i] == b[i];
      if i < |b| - 1 { assert c[i + 1] == b[i + 1]; }
    }
  }

  /** The first i events are cut into blocks and a last one that may still grow. */
  ghost predicate Underway(events: seq<Event>, i: nat, blocks: seq<Block>, current: Block)
    requires i <= |events|
  {
    && IsSplit(events[..i], if current == [] then blocks else blocks + [current])
    && (0 < i < |events| ==> (current == [] <==> Breaks(events[i - 1], events[i])))
    && (i == |events| || i == 0 ==> current == [])
  }

  /** The last block of a cut grows by an event that follows on. */
  lemma CutGrows(bs: seq<Block>, b: Block, events: seq<Event>, e: Event)
    requires IsSplit(events, bs + [b]) && b != [] && !Breaks(events[|events| - 1], e)
    ensures IsSplit(events + [e], bs + [b + [e]])
  {
    WholeCut(events, bs + [b]);
    CutFront(bs, b);
    hide *;
    var before, c := Concat(bs), b + [e];
    assert events == before + b;
    assert Last(b) == events[|events| - 1] by { LastIs(b); }
    StraightSnoc(b, e);
    assert c[0] == b[0];
    assert IsSplit(before, bs);
    CutSnoc(before, bs, c);
    assert before + c == events + [e];
  }

  lemma WholeCut(events: seq<Event>, bs: seq<Block>)
    requires IsSplit(events, bs)
    ensures Concat(bs) == events
  {
  }

  lemma LastIs(b: Block)
    requires |b| > 0
    ensures Last(b) == b[|b| - 1]
  {
  }

  lemma TakeEvent(events: seq<Event>, i: nat, blocks: seq<Block>, current: Block)
    requires i < |events| && Underway(events, i, blocks, current)
    ensures IsSplit(events[..i + 1], blocks + [current + [events[i]]])
  {
    hide Breaks, Straight, IsSplit, Concat;
    var e, before := events[i], events[..i];
    assert events[..i + 1] == before + [e];
    assert i > 0 ==> before[|before| - 1] == events[i - 1];
    hide *;
    if current == [] {
      assert current + [e] == [e];
      CutByEvent(before, blocks, e);
    } else {
      CutGrows(blocks, current, before, e);
    }
  }

  /** An event where control broke starts a block. */
  lemma CutByEvent(events: seq<Event>, bs: seq<Block>, e: Event)
    requires IsSplit(events, bs) && (|events| > 0 ==> Breaks(events[|events| - 1], e))
    ensures IsSplit(events + [e], bs + [[e]])
  {
    hide Breaks, Straight, IsSplit, Concat;
    StraightSnoc([], e);
    assert [] + [e] == [e];
    CutSnoc(events, bs, [e]);
  }

  method SplitDynamicBlocks(events: seq<Event>) returns (blocks: seq<Block>)
    ensures IsSplit(events, blocks) && blocks == Split(events)
  {
    blocks := [];
    SplitIsSplit([]);
    if events == [] { return; }
    hide Straight, IsSplit;
    var current: Block := [];
    assert events[..0] == [];
    for i := 0 to |events|
      invariant Underway(events, i, blocks, current)
    {
      var event := events[i];
      TakeEvent(events, i, blocks, current);
      current := current + [event];
      if IsControlTransfer(event.mnemonic) || i + 1 == |events| || events[i + 1].pc != NextPc(event.pc) {
        blocks := blocks + [current];
        current := [];
      }
    }
    assert events[..|events|] == events;
    if current != [] { blocks := blocks + [current]; }
    OneSplit(events, blocks);
  }

  // ----- blocks and edges -----

  datatype Key = Key(start: u32, end: u32, pcs: seq<u32>)

  function Pcs(b: Block): seq<u32> { if |b| == 0 then [] else [b[0].pc] + Pcs(b[1..]) }

  function KeyOf(b: Block): Key requires |b| > 0 { Key(b[0].pc, Last(b).pc, Pcs(b)) }

  datatype Kind = Branch | Call | Fallthrough | Return

  function KindOf(left: Event, right: Event): Kind {
    if IsCall(left.mnemonic) then Call
    else if IsReturn(left.mnemonic) then Return
    else if IsControlTransfer(left.mnemonic) || right.pc != NextPc(left.pc) then Branch
    else Fallthrough
  }

  datatype Edge = Edge(source: Key, target: Key, kind: Kind)

  datatype CallSite = CallSite(caller: string, callee: string, site: u32, target: u32)

  ghost predicate NoneEmpty(dyn: seq<Block>) { forall k :: 0 <= k < |dyn| ==> |dyn[k]| > 0 }

  function Keys(dyn: seq<Block>): (r: seq<Key>)
    requires NoneEmpty(dyn)
    ensures |r| == |dyn| && forall i :: 0 <= i < |r| ==> r[i] == KeyOf(dyn[i])
  {
    if |dyn| == 0 then [] else [KeyOf(dyn[0])] + Keys(dyn[1..])
  }

  function EdgeOf(left: Block, right: Block): Edge
    requires |left| > 0 && |right| > 0
  {
    Edge(KeyOf(left), KeyOf(right), KindOf(Last(left), right[0]))
  }

  /** One edge for every two neighbouring blocks. */
  function Edges(dyn: seq<Block>): (r: seq<Edge>)
    requires NoneEmpty(dyn)
    ensures |r| == (if |dyn| == 0 then 0 else |dyn| - 1) && forall i ::
              0 <= i < |r| ==> r[i] == EdgeOf(dyn[i], dyn[i + 1])
  {
    if |dyn| < 2 then [] else Edges(dyn[..|dyn| - 1]) + [EdgeOf(dyn[|dyn| - 2], dyn[|dyn| - 1])]
  }

  function CallOf(left: Block, right: Block): CallSite
    requires |left| > 0 && |right| > 0
  {
    CallSite(Last(left).routine, right[0].routine, Last(left).pc, right[0].pc)
  }

  /** One call for every edge of that kind. */
  function Calls(dyn: seq<Block>): seq<CallSite>
    requires NoneEmpty(dyn)
  {
    if |dyn| < 2 then []
    else
      var left, right := dyn[|dyn| - 2], dyn[|dyn| - 1];
      Calls(dyn[..|dyn| - 1]) + if KindOf(Last(left), right[0]) == Call then [CallOf(left, right)] else []
  }

  // ----- flow over the blocks -----

  function LeavesKey(k: Key): Edge -> int { (e: Edge) => if e.source == k then 1 else 0 }
  function EntersKey(k: Key): Edge -> int { (e: Edge) => if e.target == k then 1 else 0 }

  function One(holds: bool): int { if holds then 1 else 0 }

  /**
    A block is left as often as it is executed, less the last time if the
    trace ends in it, and entered as often, less the first time if the trace
    starts in it.
   */
  lemma FlowIsConserved(dyn: seq<Block>, k: Key)
    requires NoneEmpty(dyn) && |dyn| > 0
    ensures Sum(Edges(dyn), LeavesKey(k)) == Occurrences(Keys(dyn), k) - One(KeyOf(dyn[|dyn| - 1]) == k)
    ensures Sum(Edges(dyn), EntersKey(k)) == Occurrences(Keys(dyn), k) - One(KeyOf(dyn[0]) == k)
  {
    hide KeyOf, EdgeOf, Keys, Edges, Sum, NoneEmpty;
    var keys, n := Keys(dyn), |dyn| - 1;
    EdgeEnds(dyn);
    assert forall i :: 0 <= i < n ==> keys[..n][i] == keys[i] && keys[1..][i] == keys[i + 1];
    SumMapped(Edges(dyn), keys[..n], LeavesKey(k), Is(k));
    SumMapped(Edges(dyn), keys[1..], EntersKey(k), Is(k));
    SumEnds(keys, k);
  }

  lemma EdgeEnds(dyn: seq<Block>)
    requires NoneEmpty(dyn)
    ensures forall i :: 0 <= i < |Edges(dyn)| ==>
              Edges(dyn)[i].source == Keys(dyn)[i] && Edges(dyn)[i].target == Keys(dyn)[i + 1]
    ensures |Edges(dyn)| == (if |dyn| == 0 then 0 else |dyn| - 1) && |Keys(dyn)| == |dyn|
    ensures |dyn| > 0 ==> Keys(dyn)[0] == KeyOf(dyn[0]) && Keys(dyn)[|dyn| - 1] == KeyOf(dyn[|dyn| - 1])
  {
    hide KeyOf, Keys, Edges;
    var n := |dyn|;
    forall i | 0 <= i < n - 1 ensures Edges(dyn)[i].source == Keys(dyn)[i] && Edges(dyn)[i].target == Keys(dyn)[i + 1] {
      assert Edges(dyn)[i] == EdgeOf(dyn[i], dyn[i + 1]);
    }
  }

  lemma SumEnds(keys: seq<Key>, k: Key)
    requires |keys| > 0
    ensures var n := |keys| - 1;
            && Occurrences(keys, k) == Sum(keys[..n], Is(k)) + One(keys[n] == k)
            && Occurrences(keys, k) == Sum(keys[1..], Is(k)) + One(keys[0] == k)
  {
    var n := |keys| - 1;
    SumConcat(keys[..n], [keys[n]], Is(k));
    assert keys == keys[..n] + [keys[n]];
    assert Sum([keys[n]], Is(k)) == One(keys[n] == k);
  }

  function Size(k: Key): int { |k.pcs| }
  function Has(pc: u32): Key -> int { (k: Key) => Occurrences(k.pcs, pc) }
  function At(pc: u32): Event -> int { (e: Event) => if e.pc == pc then 1 else 0 }

  lemma {:induction false} PcsOfBlock(b: Block, pc: u32)
    ensures |Pcs(b)| == |b| && Occurrences(Pcs(b), pc) == Sum(b, At(pc))
  {
    if |b| > 0 {
      PcsOfBlock(b[1..], pc);
      assert Pcs(b)[1..] == Pcs(b[1..]);
    }
  }

  /** The blocks' keys together account for every event. */
  lemma {:induction false} KeysCoverEvents(dyn: seq<Block>, pc: u32)
    requires NoneEmpty(dyn)
    ensures Sum(Keys(dyn), Size) == |Concat(dyn)|
    ensures Sum(Keys(dyn), Has(pc)) == Sum(Concat(dyn), At(pc))
  {
    if |dyn| > 0 {
      assert forall k :: 0 <= k < |dyn| - 1 ==> dyn[1..][k] == dyn[k + 1];
      assert Keys(dyn)[1..] == Keys(dyn[1..]);
      KeysCoverEvents(dyn[1..], pc);
      PcsOfBlock(dyn[0], pc);
      SumConcat(dyn[0], Concat(dyn[1..]), At(pc));
    }
  }

  function IsCallEdge(e: Edge): int { if e.kind == Call then 1 else 0 }
  function Always(c: CallSite): int { 1 }

  lemma {:induction false} CallsAreCallEdges(dyn: seq<Block>)
    requires NoneEmpty(dyn)
    ensures Sum(Calls(dyn), Always) == Sum(Edges(dyn), IsCallEdge)
  {
    if |dyn| >= 2 {
      var n := |dyn| - 1;
      CallsAreCallEdges(dyn[..n]);
      var left, right := dyn[n - 1], dyn[n];
      SumConcat(Edges(dyn[..n]), [EdgeOf(left, right)], IsCallEdge);
      SumConcat(Calls(dyn[..n]), if KindOf(Last(left), right[0]) == Call then [CallOf(left, right)] else [], Always);
    }
  }

  /** The fall-through kind never arises: a block ends only where control is transferred or jumps. */
  lemma NoFallthrough(events: seq<Event>, e: Edge)
    requires NoneEmpty(Split(events)) && e in Edges(Split(events))
    ensures e.kind != Fallthrough
  {
    SplitIsSplit(events);
    var dyn := Split(events);
    var i :| 0 <= i < |Edges(dyn)| && Edges(dyn)[i] == e;
    assert Breaks(Last(dyn[i]), dyn[i + 1][0]);
  }

  /** Mnemonics in b...l, and three that end otherwise. */
  predicate CallsLike(m: string) { m in {"bla", "bcla", "bcctrl."} || (|m| > 0 && m[0] == 'b' && m[|m| - 1] == 'l') }

  lemma KindByMnemonic(left: Event, right: Event)
    requires Breaks(left, right)
    ensures KindOf(left, right)
         == if CallsLike(left.mnemonic) then Call else if left.mnemonic == "blr" then Return else Branch
  {
    var m := left.mnemonic;
    assert "bl"[1] == 'l' && "bctrl"[4] == 'l' && "blrl"[3] == 'l' && "bcl"[2] == 'l' && "bcctrl"[5] == 'l';
    assert "blr"[2] == 'r';
  }

  /** Of the two mnemonics meant as returns, blrl counts as a call; an edge is a return exactly after blr. */
  lemma EdgeKinds(events: seq<Event>, i: nat)
    requires NoneEmpty(Split(events)) && i < |Edges(Split(events))|
    ensures i < |Split(events)|
    ensures var m := Last(Split(events)[i]).mnemonic;
            Edges(Split(events))[i].kind == if CallsLike(m) then Call else if m == "blr" then Return else Branch
  {
    hide KindOf, CallsLike;
    SplitIsSplit(events);
    var dyn := Split(events);
    assert Breaks(Last(dyn[i]), dyn[i + 1][0]);
    KindByMnemonic(Last(dyn[i]), dyn[i + 1][0]);
  }
}
