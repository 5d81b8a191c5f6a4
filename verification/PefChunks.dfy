/**
  Every relocation chunk by its number: what it adds to which words of
  memory, what it keeps, and when it fails (src/PefLoader.cpp; Mac OS Runtime
  Architectures, chapter 8).
 */
module PefChunks {
  import opened Words
  import opened Attempts
  import opened MemoryModel
  import opened PefRelocation
  import opened PefUnrolling
  import opened PefWords

  /** The address of the k-th place of a run, wrapping around. */
  function Spot(a: u32, stride: nat, k: nat, offset: nat): u32 { (a + stride * k + offset) % 0x1_0000_0000 }

  /** The n words a stride apart are mapped. */
  ghost predicate SpotsMapped(mem: Regions, a: u32, stride: nat, n: nat, offset: nat) {
    forall k :: 0 <= k < n ==> Mapped(mem, Spot(a, stride, k, offset))
  }

  /** Each of the n words grew by its value. */
  ghost predicate SpotsGrew(mem: Regions, mem': Regions, a: u32, stride: nat, n: nat, offset: nat, v: nat -> u32) {
    forall k :: 0 <= k < n ==> Grew(mem, mem', Spot(a, stride, k, offset), v(k))
  }

  predicate InSpots(a: u32, stride: nat, n: nat, offset: nat, x: int) {
    exists k :: 0 <= k < n && Touches(Spot(a, stride, k, offset), x)
  }

  /** Every byte that is in none of the words is as before. */
  ghost predicate OnlySpots(mem: Regions, mem': Regions, a: u32, stride: nat, n: nat, pairs: bool) {
    && SameLayout(mem, mem')
    && forall x: int :: !InSpots(a, stride, n, 0, x) && !(pairs && InSpots(a, stride, n, 4, x))
        ==> At(mem', x) == At(mem, x)
  }

  /** The same value for every word. */
  function Always(v: u32): nat -> u32 { (k: nat) => v }

  /** The addresses of the imports from the one the machine is at. */
  function Imports(env: Env, s: State): nat -> u32 {
    (k: nat) => if ImportAt(env, s, k).Some? then ImportAt(env, s, k).value else 0
  }

  /** What a run of words a stride apart does to memory and cursor. */
  ghost predicate WordRun(s: State, t: State, n: nat, stride: nat, v: nat -> u32) {
    && SpotsGrew(s.mem, t.mem, s.address, stride, n, 0, v)
    && OnlySpots(s.mem, t.mem, s.address, stride, n, false)
    && RegistersKept(s, t) && t.address == (s.address + stride * n) % 0x1_0000_0000
  }

  /** What a run of two words side by side does. */
  ghost predicate PairRun(s: State, t: State, n: nat, stride: nat) {
    && SpotsGrew(s.mem, t.mem, s.address, stride, n, 0, Always(s.sectionC))
    && SpotsGrew(s.mem, t.mem, s.address, stride, n, 4, Always(s.sectionD))
    && OnlySpots(s.mem, t.mem, s.address, stride, n, true)
    && RegistersKept(s, t) && t.address == (s.address + stride * n) % 0x1_0000_0000
  }

  // ----- from additions to words -----

  lemma SingleOffsets(env: Env, u: Unit, s: State, n: nat)
    requires SecondOf(u, s).None?
    ensures var adds := RunOf(env, u, s, n);
            && |adds| == n
            && forall k :: 0 <= k < n ==> adds[k] == Addition(Spot(s.address, StrideOf(u), k, 0), FirstAt(env, u, s, k))
  {
    hide RunAdditions;
    RunAt(s.address, StrideOf(u), n, FirstOf(env, u, s), None);
    var adds := RunOf(env, u, s, n);
    hide FirstAt, StrideOf;
    forall k | 0 <= k < n ensures adds[k] == Addition(Spot(s.address, StrideOf(u), k, 0), FirstAt(env, u, s, k)) {
      assert IsNth(adds[k], s.address, StrideOf(u), FirstOf(env, u, s), None, k);
    }
  }

  lemma PairOffsets(env: Env, u: Unit, s: State, n: nat)
    requires u == Vector12 || u == Vector8
    ensures var adds := RunOf(env, u, s, n);
            && |adds| == 2 * n
            && forall k :: 0 <= k < n ==>
                 && adds[2 * k] == Addition(Spot(s.address, StrideOf(u), k, 0), s.sectionC)
                 && adds[2 * k + 1] == Addition(Spot(s.address, StrideOf(u), k, 4), s.sectionD)
  {
    hide RunAdditions;
    RunAt(s.address, StrideOf(u), n, FirstOf(env, u, s), SecondOf(u, s));
    var adds := RunOf(env, u, s, n);
    forall k | 0 <= k < n
      ensures && adds[2 * k] == Addition(Spot(s.address, StrideOf(u), k, 0), s.sectionC)
              && adds[2 * k + 1] == Addition(Spot(s.address, StrideOf(u), k, 4), s.sectionD)
    {
      PairOffset(env, u, s, adds, k);
    }
  }

  lemma PairOffset(env: Env, u: Unit, s: State, adds: seq<Addition>, k: nat)
    requires (u == Vector12 || u == Vector8) && 2 * k + 1 < |adds|
    requires IsNth(adds[2 * k], s.address, StrideOf(u), FirstOf(env, u, s), SecondOf(u, s), 2 * k)
    requires IsNth(adds[2 * k + 1], s.address, StrideOf(u), FirstOf(env, u, s), SecondOf(u, s), 2 * k + 1)
    ensures adds[2 * k] == Addition(Spot(s.address, StrideOf(u), k, 0), s.sectionC)
    ensures adds[2 * k + 1] == Addition(Spot(s.address, StrideOf(u), k, 4), s.sectionD)
  {
    assert (2 * k + 1) / 2 == k && (2 * k + 1) % 2 == 1 && 2 * k / 2 == k;
  }

  lemma SingleRun(env: Env, u: Unit, n: nat, s: State)
    requires Valid(s.mem) && n <= 512 && SecondOf(u, s).None?
    ensures var r := Units(env, u, n, s);
            && (r.Done? <==>
                (forall k :: 0 <= k < n ==> Resolved(env, u, s, k))
                && SpotsMapped(s.mem, s.address, StrideOf(u), n, 0))
            && (r.Done? ==> WordRun(s, r.state, n, StrideOf(u), FirstOf(env, u, s)) && Moved(u, s, n, r.state))
  {
    hide Valid, Units, Mapped, Resolved, FirstAt, At, StrideOf, Spot, SameLayout;
    UnitsEffect(env, u, n, s);
    SingleOffsets(env, u, s, n);
    hide RunOf;
    var r, adds := Units(env, u, n, s), RunOf(env, u, s, n);
    if SpotsMapped(s.mem, s.address, StrideOf(u), n, 0) {
      forall i | 0 <= i < |adds| ensures Mapped(s.mem, adds[i].at) {
        assert Mapped(s.mem, Spot(s.address, StrideOf(u), i, 0));
      }
    }
    if r.Done? {
      hide Moved;
      SingleWords(s, r.state, adds, n, StrideOf(u), FirstOf(env, u, s));
      assert Moved(u, s, n, r.state);
      SingleCursor(u, s, n, r.state);
    }
  }

  lemma SingleCursor(u: Unit, s: State, n: nat, t: State)
    requires Moved(u, s, n, t)
    ensures RegistersKept(s, t) && t.address == (s.address + StrideOf(u) * n) % 0x1_0000_0000
  {
  }

  lemma SingleWords(s: State, t: State, adds: seq<Addition>, n: nat, stride: nat, v: nat -> u32)
    requires Grown(s.mem, t.mem, adds) && |adds| == n
    requires forall k :: 0 <= k < n ==> adds[k] == Addition(Spot(s.address, stride, k, 0), v(k))
    ensures SpotsGrew(s.mem, t.mem, s.address, stride, n, 0, v)
    ensures OnlySpots(s.mem, t.mem, s.address, stride, n, false) && SpotsMapped(s.mem, s.address, stride, n, 0)
  {
    hide Mapped, WordOf, At, Spot, Valid, SameLayout, Touches;
    forall k | 0 <= k < n ensures Grew(s.mem, t.mem, Spot(s.address, stride, k, 0), v(k)) {
      assert adds[k] == Addition(Spot(s.address, stride, k, 0), v(k));
    }
    forall x: int | !InSpots(s.address, stride, n, 0, x) ensures At(t.mem, x) == At(s.mem, x) {
      forall i | 0 <= i < |adds| ensures !Touches(adds[i].at, x) {
        assert adds[i].at == Spot(s.address, stride, i, 0);
      }
    }
    forall k | 0 <= k < n ensures Mapped(s.mem, Spot(s.address, stride, k, 0)) {
      assert Grew(s.mem, t.mem, Spot(s.address, stride, k, 0), v(k));
    }
  }

  lemma PairsRun(env: Env, u: Unit, n: nat, s: State)
    requires Valid(s.mem) && n <= 512 && (u == Vector12 || u == Vector8)
    ensures var r, stride := Units(env, u, n, s), StrideOf(u);
            && (r.Done? <==> SpotsMapped(s.mem, s.address, stride, n, 0) && SpotsMapped(s.mem, s.address, stride, n, 4))
            && (r.Done? ==> PairRun(s, r.state, n, stride) && r.state.importIndex == s.importIndex)
  {
    hide Valid, Units, Mapped, FirstAt, At, StrideOf, Spot, SameLayout;
    UnitsEffect(env, u, n, s);
    PairOffsets(env, u, s, n);
    assert forall k :: 0 <= k < n ==> Resolved(env, u, s, k);
    hide RunOf, Resolved;
    var r, adds := Units(env, u, n, s), RunOf(env, u, s, n);
    if SpotsMapped(s.mem, s.address, StrideOf(u), n, 0) && SpotsMapped(s.mem, s.address, StrideOf(u), n, 4) {
      forall i | 0 <= i < |adds| ensures Mapped(s.mem, adds[i].at) {
        var k := i / 2;
        assert i == 2 * k || i == 2 * k + 1;
        assert Mapped(s.mem, Spot(s.address, StrideOf(u), k, 0)) && Mapped(s.mem, Spot(s.address, StrideOf(u), k, 4));
      }
    }
    if r.Done? {
      hide Moved;
      PairWords(s, r.state, adds, n, StrideOf(u));
      assert Moved(u, s, n, r.state);
      SingleCursor(u, s, n, r.state);
      assert r.state.importIndex == s.importIndex by { ImportKept(u, s, n, r.state); }
    }
  }

  lemma ImportKept(u: Unit, s: State, n: nat, t: State)
    requires Moved(u, s, n, t) && u != NextImport
    ensures t.importIndex == s.importIndex
  {
  }

  lemma PairWords(s: State, t: State, adds: seq<Addition>, n: nat, stride: nat)
    requires Grown(s.mem, t.mem, adds) && |adds| == 2 * n
    requires forall k :: 0 <= k < n ==>
               && adds[2 * k] == Addition(Spot(s.address, stride, k, 0), s.sectionC)
               && adds[2 * k + 1] == Addition(Spot(s.address, stride, k, 4), s.sectionD)
    ensures SpotsGrew(s.mem, t.mem, s.address, stride, n, 0, Always(s.sectionC))
    ensures SpotsGrew(s.mem, t.mem, s.address, stride, n, 4, Always(s.sectionD))
    ensures OnlySpots(s.mem, t.mem, s.address, stride, n, true)
    ensures SpotsMapped(s.mem, s.address, stride, n, 0) && SpotsMapped(s.mem, s.address, stride, n, 4)
  {
    hide Mapped, WordOf, At, Spot, Valid, SameLayout, Touches;
    forall k | 0 <= k < n
      ensures Grew(s.mem, t.mem, Spot(s.address, stride, k, 0), s.sectionC)
      ensures Grew(s.mem, t.mem, Spot(s.address, stride, k, 4), s.sectionD)
      ensures Mapped(s.mem, Spot(s.address, stride, k, 0)) && Mapped(s.mem, Spot(s.address, stride, k, 4))
    {
      assert Grew(s.mem, t.mem, adds[2 * k].at, adds[2 * k].value);
      assert Grew(s.mem, t.mem, adds[2 * k + 1].at, adds[2 * k + 1].value);
    }
    forall x: int | !InSpots(s.address, stride, n, 0, x) && !InSpots(s.address, stride, n, 4, x)
      ensures At(t.mem, x) == At(s.mem, x)
    {
      forall i | 0 <= i < |adds| ensures !Touches(adds[i].at, x) {
        var k := i / 2;
        assert i == 2 * k || i == 2 * k + 1;
        assert !Touches(Spot(s.address, stride, k, 0), x) && !Touches(Spot(s.address, stride, k, 4), x);
      }
    }
  }

  // ----- chunks -----

  /** What a stream of one chunk, or of one two-chunk instruction, does. */
  function Run1(env: Env, chunk: u16, s: State): Attempt<State> { Exec(env, [chunk], 0, s, true) }

  function Run2(env: Env, first: u16, second: u16, s: State): Attempt<State> { Exec(env, [first, second], 0, s, true) }

  lemma OneChunk(env: Env, chunk: u16, s: State)
    requires !IsTwoBlock(chunk) && !Decode(chunk, 0).Repeat?
    ensures Run1(env, chunk, s) == Simple(env, Decode(chunk, 0), s)
  {
    hide Decode, Simple, IsTwoBlock;
    var block := [chunk];
    assert DecodeAt(block, 0) == Decode(chunk, 0) && Length(block[0]) == 1;
    assert forall t: State :: Exec(env, block, 1, t, true) == Done(t);
  }

  lemma TwoChunks(env: Env, first: u16, second: u16, s: State)
    requires IsTwoBlock(first) && !Decode(first, second).Repeat?
    ensures Run2(env, first, second, s) == Simple(env, Decode(first, second), s)
  {
    hide Decode, Simple, IsTwoBlock;
    var block := [first, second];
    assert DecodeAt(block, 0) == Decode(first, second) && Length(block[0]) == 2;
    assert forall t: State :: Exec(env, block, 2, t, true) == Done(t);
  }

  /** A run chunk is 0x4000 with the kind in bits 9 to 12 and the count less one below. */
  lemma RunChunk(env: Env, kind: nat, n: nat, s: State)
    requires kind < 6 && 1 <= n <= 512
    ensures var u := [SectC, SectD, Vector12, Vector8, Table8, NextImport][kind];
            Run1(env, 0x4000 + 0x200 * kind + n - 1, s) == Units(env, u, n, s)
  {
    hide *;
    var u := [SectC, SectD, Vector12, Vector8, Table8, NextImport][kind];
    RunDecodes(kind, n);
    RunIsUnits(env, u, n, s);
    OneChunk(env, 0x4000 + 0x200 * kind + n - 1, s);
  }

  lemma RunIsUnits(env: Env, u: Unit, n: nat, s: State)
    ensures Simple(env, Run(u, n), s) == Units(env, u, n, s)
  {
    hide Units;
  }

  lemma RunParts(kind: nat, n: nat)
    requires kind < 6 && 1 <= n <= 512
    ensures var chunk := 0x4000 + 0x200 * kind + n - 1;
            && chunk / 0x4000 == 1 && chunk / 0x2000 == 2 && chunk / 0x400 < 0x20
            && chunk / 0x200 % 16 == kind && chunk % 0x200 + 1 == n
  {
  }

  lemma RunDecodes(kind: nat, n: nat)
    requires kind < 6 && 1 <= n <= 512
    ensures var chunk: u16 := 0x4000 + 0x200 * kind + n - 1;
            && !IsTwoBlock(chunk)
            && Decode(chunk, 0) == Run([SectC, SectD, Vector12, Vector8, Table8, NextImport][kind], n)
  {
    hide DecodeByIndex, DecodeLarge;
    RunParts(kind, n);
  }

  lemma SameValues(s: State, t: State, n: nat, stride: nat, v: nat -> u32, w: nat -> u32)
    requires WordRun(s, t, n, stride, v) && forall k :: 0 <= k < n ==> v(k) == w(k)
    ensures WordRun(s, t, n, stride, w)
  {
    hide Grew, OnlySpots, RegistersKept, Spot;
  }

  /** A run of one section's address. */
  lemma SectionRun(env: Env, u: Unit, n: nat, s: State, v: u32)
    requires Valid(s.mem) && 1 <= n <= 512
    requires (u == SectC && v == s.sectionC) || ((u == SectD || u == Table8) && v == s.sectionD)
    ensures var r, stride := Units(env, u, n, s), if u == Table8 then 8 else 4;
            && (r.Done? <==> SpotsMapped(s.mem, s.address, stride, n, 0))
            && (r.Done? ==> WordRun(s, r.state, n, stride, Always(v)) && r.state.importIndex == s.importIndex)
  {
    hide Units, SpotsMapped, WordRun, Valid, Place;
    SingleRun(env, u, n, s);
    assert forall k: nat :: Resolved(env, u, s, k);
    var r := Units(env, u, n, s);
    if r.Done? {
      ImportKept(u, s, n, r.state);
      SameValues(s, r.state, n, StrideOf(u), FirstOf(env, u, s), Always(v));
    }
  }

  /** 0x4000 + n - 1: n words, each grows by sectionC. */
  lemma SectionCRun(env: Env, n: nat, s: State)
    requires Valid(s.mem) && 1 <= n <= 512
    ensures var r := Run1(env, 0x4000 + n - 1, s);
            && (r.Done? <==> SpotsMapped(s.mem, s.address, 4, n, 0))
            && (r.Done? ==> WordRun(s, r.state, n, 4, Always(s.sectionC)) && r.state.importIndex == s.importIndex)
  {
    hide *;
    RunChunk(env, 0, n, s);
    SectionRun(env, SectC, n, s, s.sectionC);
  }

  /** 0x4200 + n - 1: n words, each grows by sectionD. */
  lemma SectionDRun(env: Env, n: nat, s: State)
    requires Valid(s.mem) && 1 <= n <= 512
    ensures var r := Run1(env, 0x4200 + n - 1, s);
            && (r.Done? <==> SpotsMapped(s.mem, s.address, 4, n, 0))
            && (r.Done? ==> WordRun(s, r.state, n, 4, Always(s.sectionD)) && r.state.importIndex == s.importIndex)
  {
    hide *;
    RunChunk(env, 1, n, s);
    SectionRun(env, SectD, n, s, s.sectionD);
  }

  /**
    0x4400 + n - 1: n transition vectors of twelve bytes, sectionC added to the
    first word and sectionD to the second.
   */
  lemma VectorRun12(env: Env, n: nat, s: State)
    requires Valid(s.mem) && 1 <= n <= 512
    ensures var r := Run1(env, 0x4400 + n - 1, s);
            && (r.Done? <==> SpotsMapped(s.mem, s.address, 12, n, 0) && SpotsMapped(s.mem, s.address, 12, n, 4))
            && (r.Done? ==> PairRun(s, r.state, n, 12) && r.state.importIndex == s.importIndex)
  {
    Strides();
    hide *;
    RunChunk(env, 2, n, s);
    PairsRun(env, Vector12, n, s);
  }

  /** 0x4600 + n - 1: n transition vectors of eight bytes. */
  lemma VectorRun8(env: Env, n: nat, s: State)
    requires Valid(s.mem) && 1 <= n <= 512
    ensures var r := Run1(env, 0x4600 + n - 1, s);
            && (r.Done? <==> SpotsMapped(s.mem, s.address, 8, n, 0) && SpotsMapped(s.mem, s.address, 8, n, 4))
            && (r.Done? ==> PairRun(s, r.state, n, 8) && r.state.importIndex == s.importIndex)
  {
    Strides();
    hide *;
    RunChunk(env, 3, n, s);
    PairsRun(env, Vector8, n, s);
  }

  lemma Strides()
    ensures StrideOf(Vector12) == 12 && StrideOf(Vector8) == 8 && StrideOf(NextImport) == 4
  {
  }

  /** 0x4800 + n - 1: every second of 2n words grows by sectionD. */
  lemma TableRun(env: Env, n: nat, s: State)
    requires Valid(s.mem) && 1 <= n <= 512
    ensures var r := Run1(env, 0x4800 + n - 1, s);
            && (r.Done? <==> SpotsMapped(s.mem, s.address, 8, n, 0))
            && (r.Done? ==> WordRun(s, r.state, n, 8, Always(s.sectionD)) && r.state.importIndex == s.importIndex)
  {
    hide *;
    RunChunk(env, 4, n, s);
    SectionRun(env, Table8, n, s, s.sectionD);
  }

  /** All imports of the run are resolved. */
  ghost predicate ImportsResolved(env: Env, s: State, n: nat) {
    forall k :: 0 <= k < n ==> ImportAt(env, s, k).Some?
  }

  /** 0x4A00 + n - 1: n words, each grows by the next import; all of them must be resolved. */
  lemma ImportRun(env: Env, n: nat, s: State)
    requires Valid(s.mem) && 1 <= n <= 512
    ensures var r := Run1(env, 0x4A00 + n - 1, s);
            && (r.Done? <==> ImportsResolved(env, s, n) && SpotsMapped(s.mem, s.address, 4, n, 0))
            && (r.Done? ==> WordRun(s, r.state, n, 4, Imports(env, s))
                            && r.state.importIndex == (s.importIndex + n) % 0x1_0000_0000)
  {
    Strides();
    ImportValues(env, s, n);
    hide *;
    RunChunk(env, 5, n, s);
    SingleRun(env, NextImport, n, s);
    var r := Units(env, NextImport, n, s);
    if r.Done? {
      SameValues(s, r.state, n, 4, FirstOf(env, NextImport, s), Imports(env, s));
      ImportMoved(s, n, r.state);
    }
  }

  lemma ImportValues(env: Env, s: State, n: nat)
    ensures SecondOf(NextImport, s).None?
    ensures (forall k :: 0 <= k < n ==> Resolved(env, NextImport, s, k)) <==> ImportsResolved(env, s, n)
    ensures forall k: nat :: FirstOf(env, NextImport, s)(k) == Imports(env, s)(k)
  {
    hide ImportAt;
    forall k: nat | k < n ensures Resolved(env, NextImport, s, k) == ImportAt(env, s, k).Some? {
    }
  }

  lemma ImportMoved(s: State, n: nat, t: State)
    requires Moved(NextImport, s, n, t)
    ensures t.importIndex == (s.importIndex + n) % 0x1_0000_0000
  {
  }

  // ----- the other chunks -----

  /** One word grew, and nothing else in memory changed. */
  ghost predicate OneWord(s: State, t: State, v: u32) {
    && Grew(s.mem, t.mem, s.address, v) && SameLayout(s.mem, t.mem)
    && (forall x: int :: !Touches(s.address, x) ==> At(t.mem, x) == At(s.mem, x))
    && RegistersKept(s, t) && t.address == (s.address + 4) % 0x1_0000_0000
  }

  lemma OneWordHere(s: State, v: u32, fromSection: bool)
    requires Valid(s.mem)
    ensures var r := AddHere(s, v, fromSection, 4);
            && (r.Done? <==> Mapped(s.mem, s.address))
            && (r.Done? ==> OneWord(s, r.state, v) && r.state.importIndex == s.importIndex)
  {
    hide AddHere, Valid, Mapped, WordOf, At, SameLayout;
    OneEffect(s, v, fromSection, 4);
    var r := AddHere(s, v, fromSection, 4);
    if r.Done? {
      var adds := [Addition(s.address, v)];
      assert Grew(s.mem, r.state.mem, adds[0].at, adds[0].value);
      forall x: int | !Touches(s.address, x) ensures At(r.state.mem, x) == At(s.mem, x) {
        assert forall i :: 0 <= i < |adds| ==> !Touches(adds[i].at, x);
      }
    }
  }

  lemma SkipDecodes(skip: nat, n: nat)
    requires skip < 256 && n < 64
    ensures Decode(skip * 64 + n, 0) == Skip(skip * 4, n) && !IsTwoBlock(skip * 64 + n)
  {
    hide DecodeRun, DecodeByIndex, DecodeLarge;
    var chunk: u16 := skip * 64 + n;
    assert chunk / 0x40 == skip && chunk % 0x40 == n && chunk < 0x4000;
  }

  /** skip * 64 + n: the cursor moves over skip words, and then n words grow by sectionD. */
  lemma SkipRun(env: Env, skip: nat, n: nat, s: State)
    requires Valid(s.mem) && skip < 256 && n < 64
    ensures var r, t := Run1(env, skip * 64 + n, s), s.(address := (s.address + 4 * skip) % 0x1_0000_0000);
            && (r.Done? <==> SpotsMapped(s.mem, t.address, 4, n, 0))
            && (r.Done? ==> WordRun(t, r.state, n, 4, Always(s.sectionD)) && r.state.importIndex == s.importIndex)
  {
    SkipDecodes(skip, n);
    var t := s.(address := (s.address + 4 * skip) % 0x1_0000_0000);
    assert Advance(s, skip * 4) == t;
    hide Valid, Units, WordRun, SpotsMapped, Decode, IsTwoBlock, Run1;
    OneChunk(env, skip * 64 + n, s);
    if n > 0 { SectionRun(env, SectD, n, t, s.sectionD); } else { NoRun(env, t, s.sectionD); }
  }

  lemma NoRun(env: Env, s: State, v: u32)
    ensures Units(env, SectD, 0, s) == Done(s)
    ensures SpotsMapped(s.mem, s.address, 4, 0, 0) && WordRun(s, s, 0, 4, Always(v))
  {
  }

  /** The small by-index chunks: 0x6000 + 0x200 * kind + index. */
  lemma IndexDecodes(kind: nat, index: nat)
    requires kind < 4 && index < 512
    ensures var chunk: u16 := 0x6000 + 0x200 * kind + index;
            !IsTwoBlock(chunk) && Decode(chunk, 0) == [ByImport(index), SetSectC(index), SetSectD(index),
                BySection(index)][kind]
  {
    hide DecodeRun, DecodeLarge;
    var chunk: u16 := 0x6000 + 0x200 * kind + index;
    assert chunk / 0x4000 == 1 && chunk / 0x2000 == 3 && chunk / 0x200 % 16 == kind && chunk % 0x200 == index;
    assert chunk / 0x400 < 0x28;
  }

  /** The two-chunk instructions: six bits of opcode, four of suboperation where there is one, and a wide index. */
  lemma LargeDecodes(hi: nat, second: u16)
    requires hi < 1024
    ensures IsTwoBlock(0xA000 + hi) && Decode(0xA000 + hi, second) == SetPosition(hi * 0x1_0000 + second)
    ensures IsTwoBlock(0xA400 + hi) && Decode(0xA400 + hi, second) == ByImport(hi * 0x1_0000 + second)
  {
    hide DecodeRun, DecodeByIndex;
    LargeParts(0xA000 + hi, 0x28, hi);
    LargeParts(0xA400 + hi, 0x29, hi);
  }

  lemma LargeParts(first: u16, op6: nat, hi: nat)
    requires first == op6 * 0x400 + hi && hi < 1024 && 0x28 <= op6 < 0x30
    ensures first / 0x400 == op6 && first % 0x400 == hi && first / 0x4000 == 2 && first / 0x2000 == 5
    ensures first / 0x1000 == 0xA || first / 0x1000 == 0xB
  {
  }

  lemma LargeSectionDecodes(sub: nat, hi: nat, second: u16)
    requires sub < 3 && hi < 64
    ensures var first: u16, index := 0xB400 + sub * 64 + hi, hi * 0x1_0000 + second;
            IsTwoBlock(first) && Decode(first, second) == [BySection(index), SetSectC(index), SetSectD(index)][sub]
  {
    hide DecodeRun, DecodeByIndex;
    var first: u16 := 0xB400 + sub * 64 + hi;
    LargeParts(first, 0x2D, sub * 64 + hi);
    assert first / 0x40 % 16 == sub && first % 0x40 == hi;
  }

  /** Adding one import's address: the import index continues behind it. */
  ghost predicate ByImportEffect(env: Env, index: nat, s: State, r: Attempt<State>) {
    var known := index < |env.imports| && env.imports[index].Some?;
    && (r.Done? <==> known && Mapped(s.mem, s.address))
    && (r.Done? ==> OneWord(s, r.state, env.imports[index].value) && r.state.importIndex == (index + 1) % 0x1_0000_0000)
  }

  /** Adding one section's address. */
  ghost predicate BySectionEffect(env: Env, index: nat, s: State, r: Attempt<State>) {
    var known := index < |env.sections| && env.sections[index] != 0;
    && (r.Done? <==> known && Mapped(s.mem, s.address))
    && (r.Done? ==> OneWord(s, r.state, env.sections[index]) && r.state.importIndex == s.importIndex)
  }

  /** Taking a section's address into a register; memory and cursor are untouched. */
  ghost predicate SetSectionEffect(env: Env, index: nat, s: State, r: Attempt<State>, d: bool) {
    var known := index < |env.sections| && env.sections[index] != 0;
    && (r.Done? <==> known)
    && (r.Done? ==> r.state == if d then s.(sectionD := env.sections[index]) else s.(sectionC := env.sections[index]))
  }

  lemma SimpleByImport(env: Env, index: nat, s: State)
    requires Valid(s.mem)
    ensures ByImportEffect(env, index, s, Simple(env, ByImport(index), s))
  {
    hide AddHere, Mapped, Valid, OneWord;
    var a := ImportAddress(env, index);
    if a.Some? {
      OneWordHere(s, a.value, false);
      var r := AddHere(s, a.value, false, 4);
      if r.Done? { OneWordKept(s, r.state, a.value, Wrap32(index + 1)); }
    }
  }

  lemma OneWordKept(s: State, t: State, v: u32, i: u32)
    requires OneWord(s, t, v)
    ensures OneWord(s, t.(importIndex := i), v)
  {
    hide Grew, SameLayout, At;
  }

  lemma SimpleBySection(env: Env, index: nat, s: State)
    requires Valid(s.mem)
    ensures BySectionEffect(env, index, s, Simple(env, BySection(index), s))
    ensures SetSectionEffect(env, index, s, Simple(env, SetSectC(index), s), false)
    ensures SetSectionEffect(env, index, s, Simple(env, SetSectD(index), s), true)
  {
    hide AddHere, Mapped, Valid, OneWord;
    var a := SectionAddress(env, index);
    if a.Some? { OneWordHere(s, a.value, true); }
  }

  /** 0x6000, 0x6200, 0x6400 and 0x6600 + index. */
  lemma IndexChunks(env: Env, index: nat, s: State)
    requires Valid(s.mem) && index < 512
    ensures ByImportEffect(env, index, s, Run1(env, 0x6000 + index, s))
    ensures SetSectionEffect(env, index, s, Run1(env, 0x6200 + index, s), false)
    ensures SetSectionEffect(env, index, s, Run1(env, 0x6400 + index, s), true)
    ensures BySectionEffect(env, index, s, Run1(env, 0x6600 + index, s))
  {
    hide *;
    SimpleByImport(env, index, s);
    SimpleBySection(env, index, s);
    IndexDecodes(0, index);
    OneChunk(env, 0x6000 + index, s);
    IndexDecodes(1, index);
    OneChunk(env, 0x6200 + index, s);
    IndexDecodes(2, index);
    OneChunk(env, 0x6400 + index, s);
    IndexDecodes(3, index);
    OneChunk(env, 0x6600 + index, s);
  }

  /** 0xA400 + hi, second: adding a far import. */
  lemma LargeImport(env: Env, hi: nat, second: u16, s: State)
    requires Valid(s.mem) && hi < 1024
    ensures ByImportEffect(env, hi * 0x1_0000 + second, s, Run2(env, 0xA400 + hi, second, s))
  {
    hide *;
    LargeDecodes(hi, second);
    SimpleByImport(env, hi * 0x1_0000 + second, s);
    TwoChunks(env, 0xA400 + hi, second, s);
  }

  /** 0xB400, 0xB440 and 0xB480 + hi, second: a far section. */
  lemma LargeSections(env: Env, hi: nat, second: u16, s: State)
    requires Valid(s.mem) && hi < 64
    ensures var index := hi * 0x1_0000 + second;
            && BySectionEffect(env, index, s, Run2(env, 0xB400 + hi, second, s))
            && SetSectionEffect(env, index, s, Run2(env, 0xB440 + hi, second, s), false)
            && SetSectionEffect(env, index, s, Run2(env, 0xB480 + hi, second, s), true)
  {
    hide *;
    SimpleBySection(env, hi * 0x1_0000 + second, s);
    LargeSectionDecodes(0, hi, second);
    TwoChunks(env, 0xB400 + hi, second, s);
    LargeSectionDecodes(1, hi, second);
    TwoChunks(env, 0xB440 + hi, second, s);
    LargeSectionDecodes(2, hi, second);
    TwoChunks(env, 0xB480 + hi, second, s);
  }

  lemma IncrementDecodes(n: nat)
    requires 1 <= n <= 0x1000
    ensures !IsTwoBlock(0x8000 + n - 1) && Decode(0x8000 + n - 1, 0) == Increment(n)
  {
    hide DecodeRun, DecodeByIndex, DecodeLarge;
    var chunk: u16 := 0x8000 + n - 1;
    assert chunk / 0x1000 == 8 && chunk % 0x1000 == n - 1 && chunk / 0x400 < 0x28;
  }

  /** 0x8000 + n - 1 moves the cursor by n bytes, and 0xA000 + hi, second sets it to an offset in the section. */
  lemma CursorChunks(env: Env, n: nat, hi: nat, second: u16, s: State)
    requires 1 <= n <= 0x1000 && hi < 1024
    ensures Run1(env, 0x8000 + n - 1, s) == Done(s.(address := (s.address + n) % 0x1_0000_0000))
    ensures Run2(env, 0xA000 + hi, second, s)
         == Done(s.(address := (s.targetBase + hi * 0x1_0000 + second) % 0x1_0000_0000))
  {
    IncrementDecodes(n);
    LargeDecodes(hi, second);
    hide Decode, IsTwoBlock, Run1, Run2;
    OneChunk(env, 0x8000 + n - 1, s);
    TwoChunks(env, 0xA000 + hi, second, s);
  }

  // ----- repeats -----

  lemma {:induction false} UnrollPrefix(b: seq<u16>, tail: seq<u16>, i: nat)
    requires i <= |b| && Aligned(b, i) && RepeatFree(b, i)
    ensures Unroll(b + tail, i) == b[i..] + Unroll(b + tail, |b|)
    ensures AlignedRepeats(b + tail, |b|) ==> AlignedRepeats(b + tail, i)
    decreases |b| - i
  {
    if i < |b| {
      PlainNext(b, tail, i);
      hide *;
      var all, next := b + tail, i + Length(b[i]);
      PlainStep(all, i);
      UnrollPrefix(b, tail, next);
      SlicesJoin(b, tail, i, next, Unroll(all, |b|));
    } else {
      NothingBefore(b, Unroll(b + tail, |b|));
    }
  }

  lemma PlainNext(b: seq<u16>, tail: seq<u16>, i: nat)
    requires i < |b| && Aligned(b, i) && RepeatFree(b, i)
    ensures var all, next := b + tail, i + Length(b[i]);
            && next <= |b| && Aligned(b, next) && RepeatFree(b, next)
            && Length(all[i]) == Length(b[i]) && !DecodeAt(all, i).Repeat? && next > i
  {
    hide Decode, IsTwoBlock;
    SameInstruction(b, i, b + tail, i);
  }

  lemma SlicesJoin(b: seq<u16>, tail: seq<u16>, i: nat, next: nat, rest: seq<u16>)
    requires i <= next <= |b|
    ensures (b + tail)[i..next] + (b[next..] + rest) == b[i..] + rest
  {
    assert (b + tail)[i..next] == b[i..next];
    assert b[i..next] + b[next..] == b[i..];
  }

  lemma NothingBefore(b: seq<u16>, rest: seq<u16>)
    ensures b[|b|..] + rest == rest
  {
  }

  lemma PlainStep(block: seq<u16>, i: nat)
    requires i < |block| && i + Length(block[i]) <= |block| && !DecodeAt(block, i).Repeat?
    ensures var next := i + Length(block[i]);
            && Unroll(block, i) == block[i..next] + Unroll(block, next)
            && AlignedRepeats(block, i) == AlignedRepeats(block, next)
  {
    hide Decode, IsTwoBlock;
  }

  /**
    A block of whole instructions without repeats, followed by a repeat of all
    of it, is the block one more time than the count.
   */
  lemma RepeatIsCopies(env: Env, b: seq<u16>, repeat: seq<u16>, times: nat, s: State)
    requires Aligned(b, 0) && RepeatFree(b, 0) && |b| > 0 && |repeat| > 0 && Length(repeat[0]) == |repeat|
    requires DecodeAt(b + repeat, |b|) == Repeat(|b|, times)
    ensures Exec(env, b + repeat, 0, s, true) == Exec(env, Copies(b, times + 1), 0, s, false)
  {
    hide Exec, Decode, IsTwoBlock, DecodeAt, Length, Aligned, RepeatFree;
    var all := b + repeat;
    assert all[|b| - |b|..|b|] == b;
    assert AlignedRepeats(all, |all|) && Unroll(all, |all|) == [];
    assert Unroll(all, |b|) == Copies(b, times) + [];
    UnrollPrefix(b, repeat, 0);
    assert b[0..] + (Copies(b, times) + []) == Copies(b, times + 1);
    UnrollPreservesMeaning(env, all, 0, s);
  }

  lemma SmallRepeatDecodes(blocks: nat, times: nat)
    requires 1 <= blocks <= 16 && 1 <= times <= 256
    ensures var chunk: u16 := 0x9000 + (blocks - 1) * 256 + times - 1;
            Decode(chunk, 0) == Repeat(blocks, times) && !IsTwoBlock(chunk)
  {
    hide DecodeRun, DecodeByIndex, DecodeLarge;
    var chunk: u16 := 0x9000 + (blocks - 1) * 256 + times - 1;
    assert chunk / 0x1000 == 9 && chunk / 0x100 % 16 == blocks - 1 && chunk % 0x100 == times - 1;
    assert chunk / 0x400 < 0x28;
  }

  /** 0x9000 + (blocks - 1) * 256 + times - 1 repeats the chunks before it once to 256 times. */
  lemma SmallRepeat(env: Env, b: seq<u16>, times: nat, s: State)
    requires 1 <= |b| <= 16 && Aligned(b, 0) && RepeatFree(b, 0) && 1 <= times <= 256
    ensures Exec(env, b + [0x9000 + (|b| - 1) * 256 + times - 1], 0, s, true)
            == Exec(env, Copies(b, times + 1), 0, s, false)
  {
    SmallRepeatDecodes(|b|, times);
    hide Exec, Decode, Aligned, RepeatFree, IsTwoBlock;
    var repeat: seq<u16> := [0x9000 + (|b| - 1) * 256 + times - 1];
    assert Second(b + repeat, |b|) == 0;
    RepeatIsCopies(env, b, repeat, times, s);
  }

  lemma LargeRepeatDecodes(blocks: nat, hi: nat, second: u16)
    requires 1 <= blocks <= 16 && hi < 64
    ensures var first: u16 := 0xB000 + (blocks - 1) * 64 + hi;
            Decode(first, second) == Repeat(blocks, hi * 0x1_0000 + second) && IsTwoBlock(first)
  {
    hide DecodeRun, DecodeByIndex;
    var first: u16 := 0xB000 + (blocks - 1) * 64 + hi;
    LargeParts(first, 0x2C, (blocks - 1) * 64 + hi);
    assert first / 0x40 % 16 == blocks - 1 && first % 0x40 == hi;
  }

  lemma TwoAtEnd(b: seq<u16>, first: u16, second: u16)
    requires IsTwoBlock(first)
    ensures DecodeAt(b + [first, second], |b|) == Decode(first, second) && Length(first) == 2
  {
    hide Decode, IsTwoBlock;
  }

  /** 0xB000 + (blocks - 1) * 64 + hi, second repeats the chunks before it hi * 65536 + second times. */
  lemma LargeRepeat(env: Env, b: seq<u16>, hi: nat, second: u16, s: State)
    requires 1 <= |b| <= 16 && Aligned(b, 0) && RepeatFree(b, 0) && hi < 64
    ensures Exec(env, b + [0xB000 + (|b| - 1) * 64 + hi, second], 0, s, true)
         == Exec(env, Copies(b, hi * 0x1_0000 + second + 1), 0, s, false)
  {
    hide *;
    var first: u16 := 0xB000 + (|b| - 1) * 64 + hi;
    LargeRepeatDecodes(|b|, hi, second);
    TwoAtEnd(b, first, second);
    RepeatIsCopies(env, b, [first, second], hi * 0x1_0000 + second, s);
  }
}
