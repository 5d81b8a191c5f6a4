/**
  What the relocation instructions write, chunk by chunk and word by word
  (src/PefLoader.cpp; Mac OS Runtime Architectures, chapter 8).
 */
module PefWords {
  import opened Words
  import opened Attempts
  import opened MemoryModel
  import opened PefRelocation

  // ----- words of memory -----

  /** The word at an address is mapped. */
  predicate Mapped(mem: Regions, p: int) { Peek(mem, p, 4).Some? }

  function WordOf(mem: Regions, p: int): u32
    requires Mapped(mem, p)
  {
    PeekLength(mem, p, 4);
    Word(Peek(mem, p, 4).value)
  }

  /** The word grew by v, modulo 2^32. */
  predicate Grew(mem: Regions, mem': Regions, p: int, v: int) {
    Mapped(mem, p) && Mapped(mem', p) && WordOf(mem', p) == (WordOf(mem, p) + v) % 0x1_0000_0000
  }

  predicate Touches(p: int, a: int) { p <= a < p + 4 }

  predicate Apart(p: int, q: int) { p + 4 <= q || q + 4 <= p }

  /** An addition of v to the word at p. */
  datatype Addition = Addition(at: u32, value: u32)

  /** Every word of the list grew by its value, and every other byte is as before. */
  ghost predicate Grown(mem: Regions, mem': Regions, adds: seq<Addition>) {
    && Valid(mem') && SameLayout(mem, mem')
    && (forall i :: 0 <= i < |adds| ==> Grew(mem, mem', adds[i].at, adds[i].value))
    && forall a: int :: (forall i :: 0 <= i < |adds| ==> !Touches(adds[i].at, a)) ==> At(mem', a) == At(mem, a)
  }

  ghost predicate AllMapped(mem: Regions, adds: seq<Addition>) {
    forall i :: 0 <= i < |adds| ==> Mapped(mem, adds[i].at)
  }

  ghost predicate AllApart(adds: seq<Addition>) {
    forall i, j :: 0 <= i < j < |adds| ==> Apart(adds[i].at, adds[j].at)
  }

  lemma MappedByLayout(mem: Regions, mem': Regions, p: int)
    requires SameLayout(mem, mem')
    ensures Mapped(mem, p) == Mapped(mem', p)
  {
    LayoutFind(mem, mem', p, 4);
  }

  lemma WordKept(mem: Regions, mem': Regions, p: int)
    requires Valid(mem) && Valid(mem') && SameLayout(mem, mem') && Mapped(mem, p)
    requires forall a :: Touches(p, a) ==> At(mem', a) == At(mem, a)
    ensures Mapped(mem', p) && WordOf(mem', p) == WordOf(mem, p)
  {
    hide At, Valid, SameLayout, Peek;
    MappedByLayout(mem, mem', p);
    PeekIsFlat(mem, p, 4);
    PeekIsFlat(mem', p, 4);
    PeekLength(mem, p, 4);
    PeekLength(mem', p, 4);
    var x, y := Peek(mem, p, 4).value, Peek(mem', p, 4).value;
    forall k | 0 <= k < 4 ensures x[k] == y[k] { assert Touches(p, p + k); }
    assert x == y;
  }

  /** Adding to one word. */
  lemma AddOne(mem: Regions, p: u32, v: u32)
    requires Valid(mem)
    ensures AddWord(mem, p, v).Some? <==> Mapped(mem, p)
    ensures AddWord(mem, p, v).Some? ==> Grown(mem, AddWord(mem, p, v).value, [Addition(p, v)])
  {
    hide Valid, Peek, Poke, Word, WordBytes, At;
    var b := Peek(mem, p, 4);
    if b.Some? {
      PeekLength(mem, p, 4);
      var data := WordBytes(Wrap32(Word(b.value) + v));
      PeekPokeTogether(mem, p, data);
      PokeIsFlat(mem, p, data);
      ReadAfterWrite(mem, p, data);
      var adds := [Addition(p, v)];
      var mem' := AddWord(mem, p, v).value;
      forall a: int | forall i :: 0 <= i < |adds| ==> !Touches(adds[i].at, a) ensures At(mem', a) == At(mem, a) {
        assert !Touches(adds[0].at, a);
      }
    }
  }

  /** Additions one after the other, to words that do not overlap. */
  lemma GrownTwice(m0: Regions, m1: Regions, m2: Regions, xs: seq<Addition>, ys: seq<Addition>)
    requires Valid(m0) && Grown(m0, m1, xs) && Grown(m1, m2, ys) && AllApart(xs + ys)
    ensures Grown(m0, m2, xs + ys)
  {
    var zs := xs + ys;
    hide At, Valid, Mapped, WordOf, Touches;
    LayoutTransitive(m0, m1, m2);
    hide SameLayout;
    forall i | 0 <= i < |zs| ensures Grew(m0, m2, zs[i].at, zs[i].value) {
      if i < |xs| {
        EarlierStays(m1, m2, zs, i, ys, |xs|);
        assert Grew(m0, m1, xs[i].at, xs[i].value);
      } else {
        LaterWasThere(m0, m1, zs, i, xs);
        assert Grew(m1, m2, ys[i - |xs|].at, ys[i - |xs|].value);
      }
    }
    forall a: int | forall i :: 0 <= i < |zs| ==> !Touches(zs[i].at, a) ensures At(m2, a) == At(m0, a) {
      forall i | 0 <= i < |xs| ensures !Touches(xs[i].at, a) { assert zs[i] == xs[i]; }
      forall i | 0 <= i < |ys| ensures !Touches(ys[i].at, a) { assert zs[|xs| + i] == ys[i]; }
    }
  }

  /** A word apart from later additions keeps its value. */
  lemma EarlierStays(m1: Regions, m2: Regions, zs: seq<Addition>, i: nat, ys: seq<Addition>, n: nat)
    requires Valid(m1) && Grown(m1, m2, ys) && AllApart(zs) && i < n <= |zs| && zs[n..] == ys
    ensures Mapped(m1, zs[i].at) ==> Mapped(m2, zs[i].at) && WordOf(m2, zs[i].at) == WordOf(m1, zs[i].at)
  {
    hide At, Valid, Mapped, WordOf;
    forall a | Touches(zs[i].at, a) ensures At(m2, a) == At(m1, a) {
      forall k | 0 <= k < |ys| ensures !Touches(ys[k].at, a) { assert ys[k] == zs[n + k]; }
    }
    hide Grown;
    if Mapped(m1, zs[i].at) { WordKept(m1, m2, zs[i].at); }
  }

  /** A word apart from earlier additions had its value before them. */
  lemma LaterWasThere(m0: Regions, m1: Regions, zs: seq<Addition>, i: nat, xs: seq<Addition>)
    requires Valid(m0) && Grown(m0, m1, xs) && AllApart(zs) && |xs| <= i < |zs| && zs[..|xs|] == xs
    ensures Mapped(m1, zs[i].at) ==> Mapped(m0, zs[i].at) && WordOf(m1, zs[i].at) == WordOf(m0, zs[i].at)
  {
    hide At, Valid, WordOf;
    forall a | Touches(zs[i].at, a) ensures At(m1, a) == At(m0, a) {
      forall k | 0 <= k < |xs| ensures !Touches(xs[k].at, a) { assert xs[k] == zs[k]; }
    }
    MappedByLayout(m0, m1, zs[i].at);
    hide Grown, Mapped;
    if Mapped(m0, zs[i].at) { WordKept(m0, m1, zs[i].at); }
  }

  lemma NothingGrown(mem: Regions)
    requires Valid(mem)
    ensures Grown(mem, mem, [])
  {
  }

  // ----- addresses -----

  /** The address reached from a cursor, wrapping around. */
  function Place(a: u32, offset: int): u32 { (a + offset) % 0x1_0000_0000 }

  /** Two words of one run do not overlap, even where the run wraps around, as long as both are mapped. */
  lemma PlacesApart(a: u32, x: nat, y: nat)
    requires x + 4 <= y < 0x1_0000
    requires Place(a, x) + 4 <= 0x1_0000_0000 && Place(a, y) + 4 <= 0x1_0000_0000
    ensures Apart(Place(a, x), Place(a, y))
  {
  }

  lemma MappedFits(mem: Regions, p: int)
    requires Valid(mem) && Mapped(mem, p)
    ensures 0 <= p && p + 4 <= 0x1_0000_0000
  {
  }

  lemma PlaceFrom(a: u32, x: int, y: int)
    ensures Place(Place(a, x), y) == Place(a, x + y)
  {
  }

  // ----- runs of words -----

  /** The additions of a run: at every stride one word, or two words side by side. */
  function RunAdditions(a: u32, stride: nat, n: nat, first: nat -> u32, second: Option<u32>): seq<Addition> {
    if n == 0 then []
    else RunAdditions(a, stride, n - 1, first, second) + UnitAdditions(a, stride * (n - 1), first(n - 1), second)
  }

  function UnitAdditions(a: u32, offset: int, first: u32, second: Option<u32>): seq<Addition> {
    [Addition(Place(a, offset), first)]
    + if second.Some? then [Addition(Place(a, offset + 4), second.value)] else []
  }

  /** Where the i-th addition of a run lies. */
  function OffsetOf(stride: nat, pairs: bool, i: nat): nat {
    if pairs then stride * (i / 2) + 4 * (i % 2) else stride * i
  }

  /** x is the i-th addition of a run. */
  predicate IsNth(x: Addition, a: u32, stride: nat, first: nat -> u32, second: Option<u32>, i: nat) {
    && x.at == Place(a, OffsetOf(stride, second.Some?, i))
    && x.value == if second.None? then first(i) else if i % 2 == 0 then first(i / 2) else second.value
  }

  function RunLength(n: nat, second: Option<u32>): nat { if second.Some? then 2 * n else n }

  lemma LastUnit(a: u32, stride: nat, n: nat, first: nat -> u32, second: Option<u32>, i: nat)
    requires i < |UnitAdditions(a, stride * n, first(n), second)|
    ensures IsNth(UnitAdditions(a, stride * n, first(n), second)[i], a, stride, first, second, RunLength(n, second) + i)
  {
    hide Place;
    if second.Some? {
      var j := 2 * n + i;
      assert j / 2 == n && j % 2 == i;
    }
  }

  lemma {:induction false} RunAt(a: u32, stride: nat, n: nat, first: nat -> u32, second: Option<u32>)
    ensures |RunAdditions(a, stride, n, first, second)| == RunLength(n, second)
    ensures forall i :: 0 <= i < |RunAdditions(a, stride, n, first, second)| ==>
              IsNth(RunAdditions(a, stride, n, first, second)[i], a, stride, first, second, i)
  {
    hide IsNth, Place;
    if n > 0 {
      RunAt(a, stride, n - 1, first, second);
      var all, before := RunAdditions(a, stride, n, first, second), RunAdditions(a, stride, n - 1, first, second);
      var last := UnitAdditions(a, stride * (n - 1), first(n - 1), second);
      forall i | 0 <= i < |all| ensures IsNth(all[i], a, stride, first, second, i) {
        if i < |before| {
          assert all[i] == before[i];
        } else {
          assert all[i] == last[i - |before|];
          LastUnit(a, stride, n - 1, first, second, i - |before|);
        }
      }
    }
  }

  lemma OffsetsGrow(stride: nat, pairs: bool, i: nat, j: nat)
    requires i < j < 2048 && (stride == 4 || stride == 8 || stride == 12) && (pairs ==> stride >= 8)
    ensures OffsetOf(stride, pairs, i) + 4 <= OffsetOf(stride, pairs, j) < 0x1_0000
  {
    if stride == 4 {
    } else if stride == 8 {
    } else {
    }
  }

  lemma RunApart(mem: Regions, a: u32, stride: nat, n: nat, first: nat -> u32, second: Option<u32>)
    requires Valid(mem) && n <= 512 && (stride == 4 || stride == 8 || stride == 12) && (second.Some? ==> stride >= 8)
    requires AllMapped(mem, RunAdditions(a, stride, n, first, second))
    ensures AllApart(RunAdditions(a, stride, n, first, second))
  {
    var adds := RunAdditions(a, stride, n, first, second);
    RunAt(a, stride, n, first, second);
    hide RunAdditions, Place, OffsetOf, Mapped, Valid, Apart;
    forall i, j | 0 <= i < j < |adds| ensures Apart(adds[i].at, adds[j].at) {
      assert IsNth(adds[i], a, stride, first, second, i) && IsNth(adds[j], a, stride, first, second, j);
      OffsetsGrow(stride, second.Some?, i, j);
      MappedFits(mem, adds[i].at);
      MappedFits(mem, adds[j].at);
      PlacesApart(a, OffsetOf(stride, second.Some?, i), OffsetOf(stride, second.Some?, j));
    }
  }

  // ----- units and their runs -----

  function StrideOf(u: Unit): nat {
    match u case SectC | SectD | NextImport => 4 case Vector12 => 12 case Vector8 | Table8 => 8
  }

  /** The k-th import from the one the machine is at. */
  function ImportAt(env: Env, s: State, k: nat): Option<u32> {
    var i := (s.importIndex + k) % 0x1_0000_0000;
    if i < |env.imports| then env.imports[i] else None
  }

  predicate Resolved(env: Env, u: Unit, s: State, k: nat) { u == NextImport ==> ImportAt(env, s, k).Some? }

  function FirstOf(env: Env, u: Unit, s: State): nat -> u32 {
    (k: nat) => FirstAt(env, u, s, k)
  }

  function FirstAt(env: Env, u: Unit, s: State, k: nat): u32 {
    match u
    case SectC | Vector12 | Vector8 => s.sectionC
    case SectD | Table8 => s.sectionD
    case NextImport => if ImportAt(env, s, k).Some? then ImportAt(env, s, k).value else 0
  }

  function SecondOf(u: Unit, s: State): Option<u32> {
    if u == Vector12 || u == Vector8 then Some(s.sectionD) else None
  }

  /** Everything but memory, cursor, import index and history is kept. */
  predicate RegistersKept(s: State, t: State) {
    t.targetBase == s.targetBase && t.sectionC == s.sectionC && t.sectionD == s.sectionD
  }

  function RunOf(env: Env, u: Unit, s: State, n: nat): seq<Addition> {
    RunAdditions(s.address, StrideOf(u), n, FirstOf(env, u, s), SecondOf(u, s))
  }

  /** All words of the run are mapped and all imports it takes are resolved. */
  ghost predicate Doable(env: Env, u: Unit, s: State, n: nat) {
    (forall k :: 0 <= k < n ==> Resolved(env, u, s, k)) && AllMapped(s.mem, RunOf(env, u, s, n))
  }

  predicate Moved(u: Unit, s: State, n: nat, t: State) {
    && RegistersKept(s, t)
    && t.address == Place(s.address, StrideOf(u) * n)
    && t.importIndex == if u == NextImport then (s.importIndex + n) % 0x1_0000_0000 else s.importIndex
  }

  ghost predicate UnitEffect(env: Env, u: Unit, s: State, n: nat, r: Attempt<State>) {
    && (r.Done? <==> Doable(env, u, s, n))
    && (r.Done? ==> Grown(s.mem, r.state.mem, RunOf(env, u, s, n)) && Moved(u, s, n, r.state))
  }

  lemma AddEffect(s: State, at: u32, v: u32, fromSection: bool)
    requires Valid(s.mem)
    ensures var r := Add(s, at, v, fromSection);
            && (r.Done? <==> Mapped(s.mem, at))
            && (r.Done? ==> Grown(s.mem, r.state.mem, [Addition(at, v)])
                            && r.state == s.(mem := r.state.mem, patches := r.state.patches))
  {
    hide AddWord, Valid, Mapped, Grown;
    AddOne(s.mem, at, v);
  }

  lemma OneEffect(s: State, v: u32, fromSection: bool, n: nat)
    requires Valid(s.mem)
    ensures var r := AddHere(s, v, fromSection, n);
            && (r.Done? <==> Mapped(s.mem, s.address))
            && (r.Done? ==> Grown(s.mem, r.state.mem, [Addition(s.address, v)])
                            && r.state == s.(mem := r.state.mem, patches := r.state.patches,
                                address := Place(s.address, n)))
  {
    hide Add, Valid, Mapped, Grown;
    AddEffect(s, s.address, v, fromSection);
  }

  lemma TwoEffect(s: State, n: nat)
    requires Valid(s.mem)
    ensures var r, q := Vector(s, n), Place(s.address, 4);
            && (r.Done? <==> Mapped(s.mem, s.address) && Mapped(s.mem, q))
            && (r.Done? ==> Grown(s.mem, r.state.mem, [Addition(s.address, s.sectionC), Addition(q, s.sectionD)])
                            && r.state == s.(mem := r.state.mem, patches := r.state.patches,
                                address := Place(s.address, n)))
  {
    var q := Place(s.address, 4);
    hide Add, Mapped, Valid;
    AddEffect(s, s.address, s.sectionC, true);
    var r := Add(s, s.address, s.sectionC, true);
    if r.Done? {
      AddEffect(r.state, q, s.sectionD, true);
      MappedByLayout(s.mem, r.state.mem, q);
      if Mapped(s.mem, q) {
        MappedFits(s.mem, s.address);
        MappedFits(s.mem, q);
        PlacesApart(s.address, 0, 4);
        var xs, ys := [Addition(s.address, s.sectionC)], [Addition(q, s.sectionD)];
        assert xs + ys == [Addition(s.address, s.sectionC), Addition(q, s.sectionD)];
        hide Grown, Place, SameLayout;
        GrownTwice(s.mem, r.state.mem, Add(r.state, q, s.sectionD, true).state.mem, xs, ys);
      }
    }
  }

  lemma OneRun(a: u32, stride: nat, first: nat -> u32, second: Option<u32>)
    ensures RunAdditions(a, stride, 1, first, second)
         == [Addition(a, first(0))] + if second.Some? then [Addition(Place(a, 4), second.value)] else []
  {
    assert RunAdditions(a, stride, 0, first, second) == [];
  }

  lemma MappedOne(mem: Regions, x: Addition)
    ensures AllMapped(mem, [x]) <==> Mapped(mem, x.at)
  {
    hide Mapped;
    var xs := [x];
    if Mapped(mem, x.at) { assert forall i :: 0 <= i < |xs| ==> Mapped(mem, xs[i].at); }
    if AllMapped(mem, xs) { assert Mapped(mem, xs[0].at); }
  }

  lemma MappedTwo(mem: Regions, x: Addition, y: Addition)
    ensures AllMapped(mem, [x, y]) <==> Mapped(mem, x.at) && Mapped(mem, y.at)
  {
    hide Mapped;
    var xs := [x, y];
    if Mapped(mem, x.at) && Mapped(mem, y.at) { assert forall i :: 0 <= i < |xs| ==> Mapped(mem, xs[i].at); }
    if AllMapped(mem, xs) { assert Mapped(mem, xs[0].at) && Mapped(mem, xs[1].at); }
  }

  lemma SingleUnitEffect(env: Env, u: Unit, s: State)
    requires Valid(s.mem) && (u == SectC || u == SectD || u == Table8)
    ensures UnitEffect(env, u, s, 1, OneUnit(env, u, s))
  {
    var v := if u == SectC then s.sectionC else s.sectionD;
    OneRun(s.address, StrideOf(u), FirstOf(env, u, s), SecondOf(u, s));
    hide AddHere, Mapped, Grown, Valid, RunAdditions, AllMapped;
    assert [Addition(s.address, v)] + [] == [Addition(s.address, v)];
    MappedOne(s.mem, Addition(s.address, v));
    OneEffect(s, v, true, StrideOf(u));
  }

  lemma PairUnitEffect(env: Env, u: Unit, s: State)
    requires Valid(s.mem) && (u == Vector12 || u == Vector8)
    ensures UnitEffect(env, u, s, 1, OneUnit(env, u, s))
  {
    var x, y := Addition(s.address, s.sectionC), Addition(Place(s.address, 4), s.sectionD);
    OneRun(s.address, StrideOf(u), FirstOf(env, u, s), SecondOf(u, s));
    hide Vector, Mapped, Grown, Valid, RunAdditions, AllMapped;
    assert [x] + [y] == [x, y];
    MappedTwo(s.mem, x, y);
    TwoEffect(s, StrideOf(u));
  }

  lemma ImportUnitEffect(env: Env, s: State)
    requires Valid(s.mem)
    ensures UnitEffect(env, NextImport, s, 1, OneUnit(env, NextImport, s))
  {
    ImportUnitRun(env, s);
    var a, counted := ImportAt(env, s, 0), s.(importIndex := Wrap32(s.importIndex + 1));
    hide AddHere, Mapped, Grown, Valid, RunOf, AllMapped;
    if a.Some? {
      MappedOne(s.mem, Addition(s.address, a.value));
      OneEffect(counted, a.value, false, 4);
    } else {
      assert !Resolved(env, NextImport, s, 0);
    }
  }

  lemma ImportUnitRun(env: Env, s: State)
    ensures ImportAt(env, s, 0) == ImportAddress(env, s.importIndex)
    ensures var a := ImportAt(env, s, 0);
            a.Some? ==> RunOf(env, NextImport, s, 1) == [Addition(s.address, a.value)]
  {
    OneRun(s.address, 4, FirstOf(env, NextImport, s), None);
    hide RunAdditions;
    var a := ImportAt(env, s, 0);
    if a.Some? { assert [Addition(s.address, a.value)] + [] == [Addition(s.address, a.value)]; }
  }

  /** What one unit does, as a run of one. */
  lemma OneUnitEffect(env: Env, u: Unit, s: State)
    requires Valid(s.mem)
    ensures UnitEffect(env, u, s, 1, OneUnit(env, u, s))
  {
    hide OneUnit, UnitEffect;
    match u
    case SectC | SectD | Table8 => SingleUnitEffect(env, u, s);
    case Vector12 | Vector8 => PairUnitEffect(env, u, s);
    case NextImport => ImportUnitEffect(env, s);
  }

  lemma {:induction false} UnitsSnoc(env: Env, u: Unit, n: nat, s: State)
    ensures Units(env, u, n + 1, s)
         == var r := Units(env, u, n, s); if r.Failed? then r else OneUnit(env, u, r.state)
    decreases n
  {
    hide OneUnit;
    var r := OneUnit(env, u, s);
    if n > 0 {
      if r.Done? { UnitsSnoc(env, u, n - 1, r.state); }
    } else if r.Done? {
      assert Units(env, u, 0, r.state) == r;
    }
  }

  lemma ImportsLater(env: Env, u: Unit, s: State, t: State, n: nat)
    requires t.sectionC == s.sectionC && t.sectionD == s.sectionD
    requires t.importIndex == if u == NextImport then (s.importIndex + n) % 0x1_0000_0000 else s.importIndex
    ensures Resolved(env, u, t, 0) == Resolved(env, u, s, n) && SecondOf(u, t) == SecondOf(u, s)
    ensures FirstOf(env, u, t)(0) == FirstOf(env, u, s)(n)
  {
  }

  lemma NoUnits(env: Env, u: Unit, s: State)
    requires Valid(s.mem)
    ensures UnitEffect(env, u, s, 0, Done(s))
  {
    hide Valid;
    NothingGrown(s.mem);
  }

  lemma StillFails(env: Env, u: Unit, n: nat, s: State, r: Attempt<State>)
    requires n > 0 && UnitEffect(env, u, s, n - 1, r) && r.Failed?
    ensures UnitEffect(env, u, s, n, r)
  {
    LessWasMapped(env, u, n, s);
    hide RunOf, Resolved, AllMapped;
  }

  /** A run of units in one description: which words grow by what, and that it fails exactly where one is not mapped. */
  lemma {:induction false} UnitsEffect(env: Env, u: Unit, n: nat, s: State)
    requires Valid(s.mem) && n <= 512
    ensures UnitEffect(env, u, s, n, Units(env, u, n, s))
    decreases n
  {
    hide OneUnit, UnitEffect, Valid;
    if n == 0 {
      NoUnits(env, u, s);
    } else {
      UnitsEffect(env, u, n - 1, s);
      UnitsSnoc(env, u, n - 1, s);
      hide Units;
      var r := Units(env, u, n - 1, s);
      if r.Done? {
        EffectIsValid(env, u, s, n - 1, r.state);
        OneUnitEffect(env, u, r.state);
        UnitsJoin(env, u, n, s, r.state, OneUnit(env, u, r.state));
      } else {
        StillFails(env, u, n, s, r);
      }
    }
  }

  lemma EffectIsValid(env: Env, u: Unit, s: State, n: nat, t: State)
    requires UnitEffect(env, u, s, n, Done(t))
    ensures Valid(t.mem) && SameLayout(s.mem, t.mem) && Doable(env, u, s, n) && Moved(u, s, n, t)
    ensures Grown(s.mem, t.mem, RunOf(env, u, s, n))
  {
  }

  /** The last unit's addition is the last of the run. */
  lemma RunSnoc(env: Env, u: Unit, n: nat, s: State, t: State)
    requires n > 0 && Moved(u, s, n - 1, t)
    ensures RunOf(env, u, s, n) == RunOf(env, u, s, n - 1) + RunOf(env, u, t, 1)
  {
    ImportsLater(env, u, s, t, n - 1);
    OneRun(t.address, StrideOf(u), FirstOf(env, u, t), SecondOf(u, t));
    hide FirstOf, SecondOf;
    PlaceFrom(s.address, StrideOf(u) * (n - 1), 4);
  }

  lemma AllMappedSplit(mem: Regions, xs: seq<Addition>, ys: seq<Addition>)
    ensures AllMapped(mem, xs + ys) <==> AllMapped(mem, xs) && AllMapped(mem, ys)
  {
    hide Mapped;
    var zs := xs + ys;
    if AllMapped(mem, zs) {
      forall i | 0 <= i < |xs| ensures Mapped(mem, xs[i].at) { assert zs[i] == xs[i]; }
      forall i | 0 <= i < |ys| ensures Mapped(mem, ys[i].at) { assert zs[|xs| + i] == ys[i]; }
    }
  }

  lemma AllMappedByLayout(mem: Regions, mem': Regions, xs: seq<Addition>)
    requires SameLayout(mem, mem')
    ensures AllMapped(mem, xs) == AllMapped(mem', xs)
  {
    hide Mapped, SameLayout;
    forall i | 0 <= i < |xs| ensures Mapped(mem, xs[i].at) == Mapped(mem', xs[i].at) {
      MappedByLayout(mem, mem', xs[i].at);
    }
  }

  lemma LessWasMapped(env: Env, u: Unit, n: nat, s: State)
    requires n > 0
    ensures AllMapped(s.mem, RunOf(env, u, s, n)) ==> AllMapped(s.mem, RunOf(env, u, s, n - 1))
  {
    AllMappedSplit(s.mem, RunOf(env, u, s, n - 1),
      UnitAdditions(s.address, StrideOf(u) * (n - 1), FirstOf(env, u, s)(n - 1), SecondOf(u, s)));
  }

  lemma DoableSnoc(env: Env, u: Unit, n: nat, s: State, t: State)
    requires n > 0 && Moved(u, s, n - 1, t) && SameLayout(s.mem, t.mem)
    ensures Doable(env, u, s, n) <==> Doable(env, u, s, n - 1) && Doable(env, u, t, 1)
  {
    ImportsLater(env, u, s, t, n - 1);
    RunSnoc(env, u, n, s, t);
    AllMappedSplit(s.mem, RunOf(env, u, s, n - 1), RunOf(env, u, t, 1));
    AllMappedByLayout(s.mem, t.mem, RunOf(env, u, t, 1));
    hide RunOf, Resolved, AllMapped, SameLayout, Place;
    if Doable(env, u, s, n) {
      assert Resolved(env, u, s, n - 1);
    }
    if Doable(env, u, t, 1) {
      assert Resolved(env, u, t, 0);
    }
  }

  lemma MovedTwice(u: Unit, n: nat, s: State, t: State, q: State)
    requires n > 0 && Moved(u, s, n - 1, t) && Moved(u, t, 1, q)
    ensures Moved(u, s, n, q)
  {
    PlaceFrom(s.address, StrideOf(u) * (n - 1), StrideOf(u));
    ImportSteps(s.importIndex, n - 1);
    assert StrideOf(u) * (n - 1) + StrideOf(u) == StrideOf(u) * n;
    hide Place, StrideOf;
  }

  lemma UnitsJoin(env: Env, u: Unit, n: nat, s: State, t: State, q: Attempt<State>)
    requires 0 < n <= 512 && Valid(s.mem)
    requires UnitEffect(env, u, s, n - 1, Done(t)) && UnitEffect(env, u, t, 1, q)
    ensures UnitEffect(env, u, s, n, q)
  {
    hide Doable, Moved, Grown, Valid, RunOf;
    EffectIsValid(env, u, s, n - 1, t);
    DoableSnoc(env, u, n, s, t);
    if q.Done? {
      MovedTwice(u, n, s, t, q.state);
      RunSnoc(env, u, n, s, t);
      DoableApart(env, u, n, s);
      GrownTwice(s.mem, t.mem, q.state.mem, RunOf(env, u, s, n - 1), RunOf(env, u, t, 1));
    }
  }

  lemma DoableApart(env: Env, u: Unit, n: nat, s: State)
    requires Valid(s.mem) && n <= 512 && Doable(env, u, s, n)
    ensures AllApart(RunOf(env, u, s, n))
  {
    StrideCases(u);
    hide RunAdditions, StrideOf, SecondOf, FirstOf, Valid, AllMapped, AllApart;
    RunApart(s.mem, s.address, StrideOf(u), n, FirstOf(env, u, s), SecondOf(u, s));
  }

  lemma ImportSteps(i: u32, n: nat)
    ensures ((i + n) % 0x1_0000_0000 + 1) % 0x1_0000_0000 == (i + (n + 1)) % 0x1_0000_0000
  {
  }

  lemma StrideCases(u: Unit)
    ensures var stride := StrideOf(u); stride == 4 || stride == 8 || stride == 12
    ensures forall s: State :: SecondOf(u, s).Some? ==> StrideOf(u) >= 8
  {
  }
}
