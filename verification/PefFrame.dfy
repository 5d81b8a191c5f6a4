/**
  Loading an image into a memory that already holds other regions: exactly
  when the other regions do not matter, and the rebase law beside them.
 */
module PefFraming {
  import opened Words
  import opened Attempts
  import opened Numbers
  import opened MemoryModel
  import opened MemoryMapping
  import opened PefRelocation
  import opened PefLoading
  import opened PefRebasing

  // ----- two memories side by side -----

  function Either(own: Regions, rest: Regions, a: int): Cell {
    if At(own, a).Cell? then At(own, a) else At(rest, a)
  }

  /** The memory holds the image's own regions and the rest, and the two do not overlap. */
  ghost predicate Beside(own: Regions, rest: Regions, all: Regions) {
    && Valid(own) && Valid(rest) && Valid(all)
    && (forall a: int :: At(all, a) == Either(own, rest, a))
    && (forall a: int :: At(own, a).Unmapped? || At(rest, a).Unmapped?)
  }

  lemma OneAddress(own: Regions, rest: Regions, all: Regions, a: int)
    requires Beside(own, rest, all)
    ensures At(all, a) == Either(own, rest, a) && (At(own, a).Unmapped? || At(rest, a).Unmapped?)
    ensures Valid(own) && Valid(rest) && Valid(all)
  {
  }

  /** The base of a region is an address in it. */
  lemma BaseIsMapped(rs: Regions, a: int)
    requires Valid(rs) && At(rs, a).Cell?
    ensures At(rs, At(rs, a).base).Cell?
  {
    var i := Find(rs, a, 1);
    AtCovered(rs, rs[i].base, i);
  }

  lemma DifferentBases(own: Regions, rest: Regions, all: Regions, a: int, b: int)
    requires Beside(own, rest, all) && At(own, a).Cell? && At(rest, b).Cell?
    ensures At(own, a).base != At(rest, b).base
  {
    hide At, Valid, Beside, Either;
    OneAddress(own, rest, all, a);
    BaseIsMapped(own, a);
    BaseIsMapped(rest, b);
    OneAddress(own, rest, all, At(own, a).base);
  }

  /** A range lies in one region exactly when it lies in one of the image's own or one of the rest. */
  lemma OneRegionBeside(own: Regions, rest: Regions, all: Regions, a: int, size: nat)
    requires Beside(own, rest, all) && size >= 1
    ensures OneRegion(all, a, size) <==> OneRegion(own, a, size) || OneRegion(rest, a, size)
    ensures OneRegion(own, a, size) ==> At(own, a).Cell? && forall k :: a <= k < a + size ==> At(all, k) == At(own, k)
    ensures OneRegion(rest, a, size) ==> At(rest, a).Cell?
  {
    hide At, Valid, Beside;
    forall k ensures At(all, k) == Either(own, rest, k) && (At(own, k).Unmapped? || At(rest, k).Unmapped?) {
      OneAddress(own, rest, all, k);
    }
    if OneRegion(all, a, size) {
      forall k | a <= k < a + size ensures At(own, a).Cell? == At(own, k).Cell? {
        assert At(all, k).Cell? && At(all, k).base == At(all, a).base;
        if At(own, a).Cell? && At(own, k).Unmapped? { DifferentBases(own, rest, all, a, k); }
        if At(own, k).Cell? && At(own, a).Unmapped? { DifferentBases(own, rest, all, k, a); }
      }
      if At(own, a).Cell? { assert OneRegion(own, a, size); } else { assert OneRegion(rest, a, size); }
    }
  }

  lemma PeekBeside(own: Regions, rest: Regions, all: Regions, a: int, size: nat)
    requires Beside(own, rest, all) && size >= 1
    ensures Peek(own, a, size).Some? ==> Peek(all, a, size) == Peek(own, a, size)
    ensures Peek(own, a, size).None? && Peek(all, a, size).Some? ==> At(rest, a).Cell?
    ensures Peek(own, a, size).Some? ==> At(rest, a).Unmapped?
  {
    OneAddress(own, rest, all, a);
    hide At, Valid, Beside, Peek, OneRegion;
    OneRegionBeside(own, rest, all, a, size);
    PeekIsFlat(own, a, size);
    PeekIsFlat(all, a, size);
    if Peek(own, a, size).Some? {
      PeekLength(own, a, size);
      PeekLength(all, a, size);
      var x, y := Peek(own, a, size).value, Peek(all, a, size).value;
      forall k | 0 <= k < size ensures x[k] == y[k] { assert At(all, a + k) == At(own, a + k); }
      assert x == y;
    }
  }

  /** Writing to the image's own part leaves the rest beside it. */
  lemma PokeBeside(own: Regions, rest: Regions, all: Regions, a: int, data: seq<u8>)
    requires Beside(own, rest, all) && |data| >= 1
    ensures Poke(own, a, data).Some? ==>
              Poke(all, a, data).Some? && Beside(Poke(own, a, data).value, rest, Poke(all, a, data).value)
    ensures Poke(own, a, data).None? && Poke(all, a, data).Some? ==> At(rest, a).Cell?
  {
    hide At, Valid, Beside, Poke, OneRegion, Overwritten, SameLayout;
    OneAddress(own, rest, all, a);
    OneRegionBeside(own, rest, all, a, |data|);
    PokeIsFlat(own, a, data);
    PokeIsFlat(all, a, data);
    if Poke(own, a, data).Some? {
      OverwrittenBeside(own, rest, all, Poke(own, a, data).value, Poke(all, a, data).value, a, data);
    }
  }

  lemma OverwrittenBeside(own: Regions, rest: Regions, all: Regions, own': Regions, all': Regions, a: int,
      data: seq<u8>)
    requires Beside(own, rest, all) && OneRegion(own, a, |data|) && Valid(own') && Valid(all')
    requires Overwritten(own, own', a, data) && Overwritten(all, all', a, data)
    ensures Beside(own', rest, all')
  {
    hide At, Valid;
  }

  lemma AddWordBeside(own: Regions, rest: Regions, all: Regions, a: u32, v: u32)
    requires Beside(own, rest, all)
    ensures AddWord(own, a, v).Some? ==>
              && AddWord(all, a, v).Some? && Beside(AddWord(own, a, v).value, rest, AddWord(all, a, v).value)
              && At(rest, a).Unmapped?
    ensures AddWord(own, a, v).None? && AddWord(all, a, v).Some? ==> At(rest, a).Cell?
  {
    hide At, Valid, Beside, Peek, Poke, Word, WordBytes;
    PeekBeside(own, rest, all, a, 4);
    var b := Peek(all, a, 4);
    if b.Some? {
      PeekLength(all, a, 4);
      var data := WordBytes(Wrap32(Word(b.value) + v));
      PokeBeside(own, rest, all, a, data);
      PeekPokeTogether(own, a, data);
    }
  }

  // ----- relocation, lock step on both memories -----

  /** Some patch went into the rest of memory. */
  predicate Strays(rest: Regions, ps: seq<Patch>) {
    exists i :: 0 <= i < |ps| && At(rest, ps[i].address).Cell?
  }

  /** The same machine on the image alone and with the rest beside it, so far without touching the rest. */
  ghost predicate Framed(rest: Regions, s: State, s': State) {
    s' == s.(mem := s'.mem) && Beside(s.mem, rest, s'.mem) && !Strays(rest, s.patches)
  }

  /** Either both machines did the same, or the one alone failed where the other one patched the rest. */
  ghost predicate Follows(rest: Regions, r: Attempt<State>, r': Attempt<State>) {
    || (r.Done? == r'.Done? && Framed(rest, r.state, r'.state))
    || (r.Failed? && Strays(rest, r'.state.patches))
  }

  lemma StraysOn(rest: Regions, ps: seq<Patch>, qs: seq<Patch>)
    requires Strays(rest, ps) && ps <= qs
    ensures Strays(rest, qs)
  {
    var i :| 0 <= i < |ps| && At(rest, ps[i].address).Cell?;
    assert qs[i] == ps[i];
  }

  lemma StraysByLast(rest: Regions, ps: seq<Patch>, p: Patch)
    ensures Strays(rest, ps + [p]) <==> Strays(rest, ps) || At(rest, p.address).Cell?
  {
    hide At;
    var qs := ps + [p];
    if Strays(rest, ps) { StraysOn(rest, ps, qs); }
    if At(rest, p.address).Cell? { assert qs[|ps|] == p; }
    if Strays(rest, qs) {
      var i :| 0 <= i < |qs| && At(rest, qs[i].address).Cell?;
      if i < |ps| { assert qs[i] == ps[i]; }
    }
  }

  /** Patches are only ever appended. */
  predicate Grows(s: State, r: Attempt<State>) { s.patches <= r.state.patches }

  lemma OneUnitGrows(env: Env, u: Unit, s: State)
    ensures Grows(s, OneUnit(env, u, s))
  {
    hide AddWord;
  }

  lemma {:induction false} UnitsGrow(env: Env, u: Unit, count: nat, s: State)
    ensures Grows(s, Units(env, u, count, s))
    decreases count
  {
    hide OneUnit;
    if count > 0 {
      OneUnitGrows(env, u, s);
      if OneUnit(env, u, s).Done? { UnitsGrow(env, u, count - 1, OneUnit(env, u, s).state); }
    }
  }

  lemma SimpleGrows(env: Env, instr: Instr, s: State)
    ensures Grows(s, Simple(env, instr, s))
  {
    hide AddWord, Units;
    match instr
    case Skip(bytes, count) => UnitsGrow(env, SectD, count, Advance(s, bytes));
    case Run(u, count) => UnitsGrow(env, u, count, s);
    case _ =>
  }

  lemma {:induction false} ExecGrows(env: Env, block: seq<u16>, i: nat, s: State, allowed: bool)
    requires i <= |block|
    ensures Grows(s, Exec(env, block, i, s, allowed))
    decreases if allowed then 1 else 0, |block| - i, 0
  {
    hide Simple, DecodeAt, IsTwoBlock;
    if i < |block| && i + Length(block[i]) <= |block| {
      var instr, next := DecodeAt(block, i), i + Length(block[i]);
      if !instr.Repeat? {
        SimpleGrows(env, instr, s);
        if Simple(env, instr, s).Done? { ExecGrows(env, block, next, Simple(env, instr, s).state, allowed); }
      } else if allowed && instr.blocks <= i {
        var sub := block[i - instr.blocks..i];
        RepeatsGrow(env, sub, instr.times, s);
        if Repeats(env, sub, instr.times, s).Done? {
          ExecGrows(env, block, next, Repeats(env, sub, instr.times, s).state, allowed);
        }
      }
    }
  }

  lemma {:induction false} RepeatsGrow(env: Env, block: seq<u16>, times: nat, s: State)
    ensures Grows(s, Repeats(env, block, times, s))
    decreases 0, |block| + 1, times
  {
    hide Exec;
    if times > 0 {
      ExecGrows(env, block, 0, s, false);
      if Exec(env, block, 0, s, false).Done? {
        RepeatsGrow(env, block, times - 1, Exec(env, block, 0, s, false).state);
      }
    }
  }

  lemma AddFollows(rest: Regions, s: State, s': State, at: u32, v: u32, fromSection: bool)
    requires Framed(rest, s, s')
    ensures Follows(rest, Add(s, at, v, fromSection), Add(s', at, v, fromSection))
  {
    hide AddWord, Beside, At, Strays;
    AddWordBeside(s.mem, rest, s'.mem, at, v);
    StraysByLast(rest, s.patches, Patch(at, v, fromSection));
  }

  lemma AddHereFollows(rest: Regions, s: State, s': State, v: u32, fromSection: bool, n: int)
    requires Framed(rest, s, s')
    ensures Follows(rest, AddHere(s, v, fromSection, n), AddHere(s', v, fromSection, n))
  {
    hide Add, Beside, Strays;
    AddFollows(rest, s, s', s.address, v, fromSection);
  }

  lemma VectorFollows(rest: Regions, s: State, s': State, n: int)
    requires Framed(rest, s, s')
    ensures Follows(rest, Vector(s, n), Vector(s', n))
  {
    hide Add, Beside, Strays;
    AddFollows(rest, s, s', s.address, s.sectionC, true);
    var r, r' := Add(s, s.address, s.sectionC, true), Add(s', s.address, s.sectionC, true);
    if r.Done? {
      AddFollows(rest, r.state, r'.state, Wrap32(s.address + 4), s.sectionD, true);
      AddKeepsRegisters(s, s.address, s.sectionC, true);
    } else if r'.Done? {
      AddGrows(r'.state, Wrap32(s.address + 4), s'.sectionD, true);
      StraysOn(rest, r'.state.patches, Add(r'.state, Wrap32(s.address + 4), s'.sectionD, true).state.patches);
    }
  }

  lemma AddKeepsRegisters(s: State, at: u32, v: u32, fromSection: bool)
    ensures Add(s, at, v, fromSection).state
         == s.(mem := Add(s, at, v, fromSection).state.mem, patches := Add(s, at, v, fromSection).state.patches)
  {
    hide AddWord;
  }

  lemma AddGrows(s: State, at: u32, v: u32, fromSection: bool)
    ensures Grows(s, Add(s, at, v, fromSection))
  {
    hide AddWord;
  }

  lemma OneUnitFollows(rest: Regions, env: Env, u: Unit, s: State, s': State)
    requires Framed(rest, s, s')
    ensures Follows(rest, OneUnit(env, u, s), OneUnit(env, u, s'))
  {
    hide AddHere, Vector, Beside, Strays, Follows;
    match u
    case SectC => AddHereFollows(rest, s, s', s.sectionC, true, 4);
    case SectD => AddHereFollows(rest, s, s', s.sectionD, true, 4);
    case Vector12 => VectorFollows(rest, s, s', 12);
    case Vector8 => VectorFollows(rest, s, s', 8);
    case Table8 => AddHereFollows(rest, s, s', s.sectionD, true, 8);
    case NextImport =>
      var a, i := ImportAddress(env, s.importIndex), Wrap32(s.importIndex + 1);
      var counted, counted' := s.(importIndex := i), s'.(importIndex := i);
      if a.Some? {
        AddHereFollows(rest, counted, counted', a.value, false, 4);
      } else {
        BothStop(rest, counted, counted');
      }
  }

  lemma BothStop(rest: Regions, s: State, s': State)
    requires Framed(rest, s, s')
    ensures Follows(rest, Failed(s), Failed(s')) && Follows(rest, Done(s), Done(s'))
  {
  }

  /** What follows on: the same on both, or more patches after the machine with the rest beside it strayed. */
  lemma FollowsOn(rest: Regions, r: Attempt<State>, r': Attempt<State>, q: Attempt<State>, q': Attempt<State>)
    requires Follows(rest, r, r')
    requires r.Done? && r'.Done? && Framed(rest, r.state, r'.state) ==> Follows(rest, q, q')
    requires r.Failed? ==> q == r
    requires r'.Failed? ==> q' == r'
    requires r'.Done? ==> Grows(r'.state, q')
    ensures Follows(rest, q, q')
  {
    hide Framed, Strays;
    if r.Failed? && Strays(rest, r'.state.patches) {
      StraysOn(rest, r'.state.patches, q'.state.patches);
    }
  }

  lemma {:induction false} UnitsFollow(rest: Regions, env: Env, u: Unit, count: nat, s: State, s': State)
    requires Framed(rest, s, s')
    ensures Follows(rest, Units(env, u, count, s), Units(env, u, count, s'))
    decreases count
  {
    hide OneUnit, Framed, Follows;
    if count == 0 {
      BothStop(rest, s, s');
    } else {
      OneUnitFollows(rest, env, u, s, s');
      var r, r' := OneUnit(env, u, s), OneUnit(env, u, s');
      if r.Done? && r'.Done? && Framed(rest, r.state, r'.state) {
        UnitsFollow(rest, env, u, count - 1, r.state, r'.state);
      }
      if r'.Done? { UnitsGrow(env, u, count - 1, r'.state); }
      FollowsOn(rest, r, r', Units(env, u, count, s), Units(env, u, count, s'));
    }
  }

  lemma SimpleFollows(rest: Regions, env: Env, instr: Instr, s: State, s': State)
    requires Framed(rest, s, s')
    ensures Follows(rest, Simple(env, instr, s), Simple(env, instr, s'))
  {
    hide AddHere, Units, Beside, Strays;
    match instr
    case Skip(bytes, count) => UnitsFollow(rest, env, SectD, count, Advance(s, bytes), Advance(s', bytes));
    case Run(u, count) => UnitsFollow(rest, env, u, count, s, s');
    case ByImport(index) =>
      var a := ImportAddress(env, index);
      if a.Some? { AddHereFollows(rest, s, s', a.value, false, 4); }
    case BySection(index) =>
      var a := SectionAddress(env, index);
      if a.Some? { AddHereFollows(rest, s, s', a.value, true, 4); }
    case _ =>
  }

  lemma {:induction false} ExecFollows(rest: Regions, env: Env, block: seq<u16>, i: nat, s: State, s': State,
      allowed: bool)
    requires Framed(rest, s, s') && i <= |block|
    ensures Follows(rest, Exec(env, block, i, s, allowed), Exec(env, block, i, s', allowed))
    decreases if allowed then 1 else 0, |block| - i, 0
  {
    hide Simple, DecodeAt, IsTwoBlock, Framed, Follows, Repeats;
    BothStop(rest, s, s');
    if i < |block| && i + Length(block[i]) <= |block| {
      var instr, next := DecodeAt(block, i), i + Length(block[i]);
      if !instr.Repeat? || (allowed && instr.blocks <= i) {
        var sub := if instr.Repeat? then block[i - instr.blocks..i] else [];
        var r := if instr.Repeat? then Repeats(env, sub, instr.times, s) else Simple(env, instr, s);
        var r' := if instr.Repeat? then Repeats(env, sub, instr.times, s') else Simple(env, instr, s');
        if instr.Repeat? {
          RepeatsFollow(rest, env, sub, instr.times, s, s');
        } else {
          SimpleFollows(rest, env, instr, s, s');
        }
        if r.Done? && r'.Done? && Framed(rest, r.state, r'.state) {
          ExecFollows(rest, env, block, next, r.state, r'.state, allowed);
        }
        if r'.Done? { ExecGrows(env, block, next, r'.state, allowed); }
        FollowsOn(rest, r, r', Exec(env, block, i, s, allowed), Exec(env, block, i, s', allowed));
      }
    }
  }

  lemma {:induction false} RepeatsFollow(rest: Regions, env: Env, block: seq<u16>, times: nat, s: State, s': State)
    requires Framed(rest, s, s')
    ensures Follows(rest, Repeats(env, block, times, s), Repeats(env, block, times, s'))
    decreases 0, |block| + 1, times
  {
    hide Exec, Framed, Follows;
    if times == 0 {
      BothStop(rest, s, s');
    } else {
      ExecFollows(rest, env, block, 0, s, s', false);
      var r, r' := Exec(env, block, 0, s, false), Exec(env, block, 0, s', false);
      if r.Done? && r'.Done? && Framed(rest, r.state, r'.state) {
        RepeatsFollow(rest, env, block, times - 1, r.state, r'.state);
      }
      if r'.Done? { RepeatsGrow(env, block, times - 1, r'.state); }
      FollowsOn(rest, r, r', Repeats(env, block, times, s), Repeats(env, block, times, s'));
    }
  }

  lemma RelocateSectionFollows(rest: Regions, env: Env, s: State, s': State, r: Relocs)
    requires Framed(rest, s, s') && r.section < |env.sections|
    ensures Follows(rest, RelocateSection(env, s, r), RelocateSection(env, s', r))
    ensures Grows(s', RelocateSection(env, s', r))
  {
    hide Exec, Beside, Strays, Follows;
    BothStop(rest, s, s');
    var base, c, d := env.sections[r.section], AddressOr0(env.sections, 0), AddressOr0(env.sections, 1);
    var t, t' := State(s.mem, base, base, c, d, 0, s.patches), State(s'.mem, base, base, c, d, 0, s'.patches);
    ExecFollows(rest, env, r.chunks, 0, t, t', true);
    ExecGrows(env, r.chunks, 0, t', true);
  }

  lemma {:induction false} RelocateAllGrows(env: Env, s: State, rs: seq<Relocs>)
    requires forall i :: 0 <= i < |rs| ==> rs[i].section < |env.sections|
    ensures Grows(s, RelocateAll(env, s, rs))
    decreases |rs|
  {
    hide Exec;
    if |rs| > 0 {
      var r, base := rs[0], env.sections[rs[0].section];
      ExecGrows(env, r.chunks, 0, State(s.mem, base, base, AddressOr0(env.sections, 0), AddressOr0(env.sections, 1),
          0, s.patches), true);
      if RelocateSection(env, s, r).Done? { RelocateAllGrows(env, RelocateSection(env, s, r).state, rs[1..]); }
    }
  }

  lemma {:induction false} RelocateAllFollows(rest: Regions, env: Env, s: State, s': State, rs: seq<Relocs>)
    requires Framed(rest, s, s')
    requires forall i :: 0 <= i < |rs| ==> rs[i].section < |env.sections|
    ensures Follows(rest, RelocateAll(env, s, rs), RelocateAll(env, s', rs))
    decreases |rs|
  {
    hide RelocateSection, Framed, Follows;
    if |rs| == 0 {
      BothStop(rest, s, s');
    } else {
      RelocateSectionFollows(rest, env, s, s', rs[0]);
      var r, r' := RelocateSection(env, s, rs[0]), RelocateSection(env, s', rs[0]);
      if r.Done? && r'.Done? && Framed(rest, r.state, r'.state) {
        RelocateAllFollows(rest, env, r.state, r'.state, rs[1..]);
      }
      if r'.Done? { RelocateAllGrows(env, r'.state, rs[1..]); }
      FollowsOn(rest, r, r', RelocateAll(env, s, rs), RelocateAll(env, s', rs));
    }
  }

  // ----- placing the sections -----

  /** No address of the range is mapped. */
  ghost predicate RangeFree(rs: Regions, base: int, size: nat) {
    forall a :: base <= a < base + size ==> At(rs, a).Unmapped?
  }

  /** A request is accepted exactly when it is not empty, stays below 2^32 and its range is free. */
  lemma AcceptsFreeRange(rs: Regions, q: Request)
    requires Valid(rs)
    ensures Accepts(rs, q) <==> q.size != 0 && q.End() <= 0x1_0000_0000 && RangeFree(rs, q.base, q.size)
  {
    if Accepts(rs, q) {
      forall a | q.base <= a < q.End() ensures At(rs, a).Unmapped? {
        forall i | 0 <= i < |rs| ensures !rs[i].Covers(a, 1) { assert Apart(rs[i], q); }
      }
    }
    if RangeFree(rs, q.base, q.size) && q.size != 0 {
      forall i | 0 <= i < |rs| ensures Apart(rs[i], q) {
        var a := if q.base >= rs[i].base then q.base else rs[i].base;
        if !Apart(rs[i], q) { AtCovered(rs, a, i); }
      }
    }
  }

  lemma FreeBeside(own: Regions, rest: Regions, all: Regions, base: int, size: nat)
    requires Beside(own, rest, all)
    ensures RangeFree(all, base, size) <==> RangeFree(own, base, size) && RangeFree(rest, base, size)
  {
    hide At, Valid;
    forall a: int ensures At(all, a).Unmapped? <==> At(own, a).Unmapped? && At(rest, a).Unmapped? {
      OneAddress(own, rest, all, a);
    }
    hide Beside;
  }

  lemma MapBeside(own: Regions, rest: Regions, all: Regions, q: Request)
    requires Beside(own, rest, all)
    ensures MapRegion(all, q).Some? <==> MapRegion(own, q).Some? && RangeFree(rest, q.base, q.size)
    ensures MapRegion(all, q).Some? ==> Beside(MapRegion(own, q).value, rest, MapRegion(all, q).value)
  {
    OneAddress(own, rest, all, 0);
    AcceptsFreeRange(own, q);
    AcceptsFreeRange(all, q);
    FreeBeside(own, rest, all, q.base, q.size);
    if MapRegion(all, q).Some? {
      var own', all' := MapRegion(own, q).value, MapRegion(all, q).value;
      MapKeepsValid(own, q);
      MapKeepsValid(all, q);
      hide At, Valid, Accepts, SortByBase;
      forall a: int ensures At(all', a) == Either(own', rest, a) && (At(own', a).Unmapped? || At(rest, a).Unmapped?) {
        MapIsFlat(own, q, a);
        MapIsFlat(all, q, a);
        OneAddress(own, rest, all, a);
      }
    }
  }

  /** With the rest beside it, a section is placed exactly when it is without and its range is free in the rest. */
  lemma PlaceBeside(own: Regions, rest: Regions, all: Regions, h: Section, name: string, at: u32)
    requires Beside(own, rest, all) && h.unpackedLength <= h.totalLength
    ensures var p, p' := PlaceSection(own, h, name, at), PlaceSection(all, h, name, at);
            && (p'.Done? <==> p.Done? && RangeFree(rest, at, h.totalLength))
            && (p'.Done? ==> Beside(p.state, rest, p'.state))
  {
    OneAddress(own, rest, all, 0);
    hide Beside, MapRegion, Contents, SectionPerms, At, RangeFree, Poke, Valid;
    var q := Request(at, h.totalLength, SectionPerms(h.kind), name);
    MapBeside(own, rest, all, q);
    var m, m' := MapRegion(own, q), MapRegion(all, q);
    if m.Some? && Contents(h).Some? {
      var data := Contents(h).value;
      if data != [] {
        ContentsFit(own, q, data);
        if m'.Some? {
          ContentsFit(all, q, data);
          PokeBeside(m.value, rest, m'.value, at, data);
        }
      }
    }
  }

  lemma ContentsFit(rs: Regions, q: Request, data: seq<u8>)
    requires Valid(rs) && MapRegion(rs, q).Some? && 1 <= |data| <= q.size
    ensures Poke(MapRegion(rs, q).value, q.base, data).Some?
  {
    MapKeepsValid(rs, q);
    var m, k := MapRegion(rs, q).value, Rank(rs, q.base);
    InsertedAt(rs, k, q.Region());
    FindUnique(m, q.base, |data|, k);
  }

  /** The rest leaves the ranges of the placed sections free. */
  ghost predicate ClearOf(rest: Regions, hs: seq<Section>, i: nat, sections: seq<u32>)
    requires i <= |hs|
  {
    && |sections| == |hs| - i
    && forall k :: 0 <= k < |sections| ==> Placed(hs[i + k]) ==> RangeFree(rest, sections[k], hs[i + k].totalLength)
  }

  lemma ClearOfCons(rest: Regions, hs: seq<Section>, i: nat, a: u32, sections: seq<u32>)
    requires i < |hs|
    ensures ClearOf(rest, hs, i, [a] + sections)
       <==> ClearOf(rest, hs, i + 1, sections) && (Placed(hs[i]) ==> RangeFree(rest, a, hs[i].totalLength))
  {
    hide Placed, RangeFree;
    var all := [a] + sections;
    if ClearOf(rest, hs, i, all) {
      assert all[0] == a && hs[i + 0] == hs[i];
      forall k | 0 <= k < |sections| && Placed(hs[i + 1 + k])
        ensures RangeFree(rest, sections[k], hs[i + 1 + k].totalLength)
      {
        assert all[k + 1] == sections[k] && hs[i + (k + 1)] == hs[i + 1 + k];
      }
    }
    if ClearOf(rest, hs, i + 1, sections) && (Placed(hs[i]) ==> RangeFree(rest, a, hs[i].totalLength)) {
      forall k | 0 <= k < |all| && Placed(hs[i + k]) ensures RangeFree(rest, all[k], hs[i + k].totalLength) {
        if k > 0 { assert all[k] == sections[k - 1] && hs[i + k] == hs[i + 1 + (k - 1)]; }
      }
    }
  }

  /**
    The layout with the rest beside it: the same addresses, exactly when the
    layout alone exists and the rest is clear of it.
   */
  ghost predicate MapsBeside(rest: Regions, hs: seq<Section>, i: nat, r: Attempt<Layout>, r': Attempt<Layout>)
    requires i <= |hs|
  {
    && (r'.Done? <==> r.Done? && ClearOf(rest, hs, i, r.state.sections))
    && (r'.Done? ==> r'.state.sections == r.state.sections && Beside(r.state.mem, rest, r'.state.mem))
  }

  lemma {:induction false} MapAllBeside(own: Regions, rest: Regions, all: Regions, hs: seq<Section>, i: nat,
      cursor: u32)
    requires i <= |hs| && Beside(own, rest, all)
    requires forall k :: 0 <= k < |hs| ==> hs[k].unpackedLength <= hs[k].totalLength
    ensures MapsBeside(rest, hs, i, MapSections(hs, i, own, cursor), MapSections(hs, i, all, cursor))
    decreases |hs| - i
  {
    hide Placed, PlaceSection, Beside, AlignUp, Pow2, RegionName, RangeFree, ClearOf;
    if i == |hs| {
      assert ClearOf(rest, hs, i, []) by { NothingToClear(rest, hs); }
    } else if !Placed(hs[i]) {
      MapAllBeside(own, rest, all, hs, i + 1, cursor);
      ClearOfCons(rest, hs, i, 0, MapSections(hs, i + 1, own, cursor).state.sections);
    } else if hs[i].alignmentPower < 31 {
      var name, at := RegionName(i, hs[i].kind), AlignUp(cursor, Pow2(hs[i].alignmentPower));
      PlaceBeside(own, rest, all, hs[i], name, at);
      var p, p' := PlaceSection(own, hs[i], name, at), PlaceSection(all, hs[i], name, at);
      var end := Wrap32(at + hs[i].totalLength);
      if p.Done? { ClearOfCons(rest, hs, i, at, MapSections(hs, i + 1, p.state, end).state.sections); }
      if p'.Done? { MapAllBeside(p.state, rest, p'.state, hs, i + 1, end); }
    }
  }

  lemma NothingToClear(rest: Regions, hs: seq<Section>)
    ensures ClearOf(rest, hs, |hs|, [])
  {
  }

  // ----- the frame law -----

  /** The load with the rest beside it gives what the load alone gives, and leaves the rest as it was. */
  ghost predicate LoadsBeside(rest: Regions, a: Loaded, a': Loaded) {
    a' == a.(mem := a'.mem) && Beside(a.mem, rest, a'.mem)
  }

  lemma NothingBeside(rest: Regions)
    requires Valid(rest)
    ensures Beside([], rest, rest)
  {
  }

  /**
    Loading into a memory succeeds without touching what is there exactly when
    the image loads into an empty memory and its sections find their place
    free; then both loads agree, and the memory is the two side by side.
   */
  lemma FrameLaw(image: Image, rest: Regions, base: u32)
    requires Parsed(image) && Valid(rest)
    ensures var r, r' := Load(image, [], base), Load(image, rest, base);
            && (r'.Done? && !Strays(rest, r'.state.patches)
                <==> r.Done? && ClearOf(rest, image.sections, 0, r.state.sections))
            && (r'.Done? && !Strays(rest, r'.state.patches) ==> LoadsBeside(rest, r.state, r'.state))
  {
    hide MapSections, RelocateAll, EntryAddresses, ExportValues, Beside, Strays, ClearOf, Valid;
    NothingBeside(rest);
    MapAllBeside([], rest, rest, image.sections, 0, base);
    var p, p' := MapSections(image.sections, 0, [], base), MapSections(image.sections, 0, rest, base);
    if p'.Done? {
      var env := Env(p.state.sections, image.imports);
      var s, s' := State(p.state.mem, 0, 0, 0, 0, 0, []), State(p'.state.mem, 0, 0, 0, 0, 0, []);
      assert !Strays(rest, []) by { NoPatchStrays(rest); }
      RelocateAllFollows(rest, env, s, s', image.relocs);
    }
  }

  lemma NoPatchStrays(rest: Regions)
    ensures !Strays(rest, [])
  {
  }

  // ----- the rebase law beside other regions -----

  /** Everything of the image moved by d, and the rest where it was. */
  ghost predicate RebasedBeside(image: Image, rest: Regions, d: nat, a: Loaded, a': Loaded) {
    && Rebased(image, d, a, a') && a'.patches == MovedPatches(a.patches, d)
    && forall k :: At(rest, k).Cell? ==> At(a.mem, k) == At(rest, k) && At(a'.mem, k) == At(rest, k)
  }

  lemma RestStays(rest: Regions, a: Loaded, a': Loaded)
    requires LoadsBeside(rest, a, a')
    ensures forall k :: At(rest, k).Cell? ==> At(a'.mem, k) == At(rest, k)
  {
    hide At, Valid;
  }

  /** The image loads beside the rest, and its relocations do not touch the rest. */
  ghost predicate LoadsClean(image: Image, rest: Regions, base: u32)
    requires Parsed(image)
  {
    Load(image, rest, base).Done? && !Strays(rest, Load(image, rest, base).state.patches)
  }

  /** The image loads into an empty memory and its sections are free in the rest. */
  ghost predicate FindsRoom(image: Image, rest: Regions, base: u32)
    requires Parsed(image)
  {
    Load(image, [], base).Done? && ClearOf(rest, image.sections, 0, Load(image, [], base).state.sections)
  }

  /** What a load gives, successful or not. */
  function Result(image: Image, mem: Regions, base: u32): Loaded
    requires Parsed(image)
  {
    Load(image, mem, base).state
  }

  /**
    Where an image loads beside other regions without patching them, it loads
    d further up without patching them exactly when they leave the moved
    sections free. Then the image has moved and the other regions have not.
   */
  lemma RebaseBesideLaw(image: Image, rest: Regions, base: u32, moved: u32)
    requires Parsed(image) && Valid(rest) && base <= moved && Rebasable(image, base, moved - base)
    requires LoadsClean(image, rest, base)
    ensures LoadsClean(image, rest, moved)
       <==> ClearOf(rest, image.sections, 0, Result(image, [], moved).sections)
    ensures LoadsClean(image, rest, moved) ==>
              RebasedBeside(image, rest, moved - base, Result(image, rest, base), Result(image, rest, moved))
  {
    hide *;
    CleanlyLoaded(image, rest, base);
    CleanlyLoaded(image, rest, moved);
    Moves(image, base, moved);
    if LoadsClean(image, rest, moved) {
      BothBeside(image, rest, moved - base, Result(image, [], base), Result(image, [], moved),
                 Result(image, rest, base), Result(image, rest, moved));
    }
  }

  /** The frame law in these terms. */
  lemma CleanlyLoaded(image: Image, rest: Regions, base: u32)
    requires Parsed(image) && Valid(rest)
    ensures LoadsClean(image, rest, base) <==> FindsRoom(image, rest, base)
    ensures FindsRoom(image, rest, base)
       <==> Load(image, [], base).Done? && ClearOf(rest, image.sections, 0, Result(image, [], base).sections)
    ensures LoadsClean(image, rest, base) ==> LoadsBeside(rest, Result(image, [], base), Result(image, rest, base))
  {
    hide Load, Strays, ClearOf, Beside, LoadsBeside, Valid;
    FrameLaw(image, rest, base);
  }

  lemma Moves(image: Image, base: u32, moved: u32)
    requires Parsed(image) && base <= moved && Rebasable(image, base, moved - base)
    ensures var d := moved - base;
            && Load(image, [], base).Done? == Load(image, [], moved).Done?
            && MovedLoads(d, Result(image, [], base), Result(image, [], moved))
            && (Load(image, [], base).Done? ==> Rebased(image, d, Result(image, [], base), Result(image, [], moved)))
  {
    hide Load, Rebasable, MovedLoads, Rebased;
    RebaseLaw(image, base, moved - base);
  }

  lemma BothBeside(image: Image, rest: Regions, d: nat, own: Loaded, own': Loaded, all: Loaded, all': Loaded)
    requires Rebased(image, d, own, own') && MovedLoads(d, own, own')
    requires LoadsBeside(rest, own, all) && LoadsBeside(rest, own', all')
    ensures RebasedBeside(image, rest, d, all, all')
  {
    RestStays(rest, own, all);
    RestStays(rest, own', all');
    hide Beside, Moved, MovedPatches, ApplyPatches, SameBytes, MovedEntries, At;
  }

  /** Word by word, as without the other regions. */
  lemma RebasedWordsBeside(image: Image, rest: Regions, base: u32, moved: u32, a: u32)
    requires Parsed(image) && Valid(rest) && base <= moved && Rebasable(image, base, moved - base)
    requires LoadsClean(image, rest, base) && LoadsClean(image, rest, moved)
    requires Clear(Result(image, rest, base).patches, a)
    requires WordAt(Result(image, [], base).mem, a).Some?
    ensures var d, r, r' := moved - base, Result(image, rest, base), Result(image, rest, moved);
            && WordAt(r.mem, a).Some?
            && WordAt(r'.mem, Shifted(a, d)) == Some(Wrap32(WordAt(r.mem, a).value + d * SectionPatches(r.patches, a)))
  {
    hide *;
    var d, own, own' := moved - base, Result(image, [], base), Result(image, [], moved);
    CleanlyLoaded(image, rest, base);
    CleanlyLoaded(image, rest, moved);
    WordBeside(rest, own, Result(image, rest, base), a);
    WordBeside(rest, own', Result(image, rest, moved), Shifted(a, d));
    WordsMove(image, base, moved, a);
    BothWords(WordAt(own.mem, a), WordAt(own'.mem, Shifted(a, d)), d * SectionPatches(own.patches, a));
  }

  lemma WordsMove(image: Image, base: u32, moved: u32, a: u32)
    requires Parsed(image) && base <= moved && Rebasable(image, base, moved - base)
    requires Clear(Result(image, [], base).patches, a)
    ensures var d, r, r' := moved - base, Result(image, [], base), Result(image, [], moved);
            WordMoved(WordAt(r.mem, a), WordAt(r'.mem, Shifted(a, d)), d * SectionPatches(r.patches, a))
  {
    hide Load, Rebasable, WordMoved, WordAt, Clear;
    RebasedWords(image, base, moved - base, a);
  }

  lemma WordBeside(rest: Regions, own: Loaded, all: Loaded, a: u32)
    requires LoadsBeside(rest, own, all)
    ensures all.patches == own.patches
    ensures WordAt(own.mem, a).Some? ==> WordAt(all.mem, a) == WordAt(own.mem, a)
  {
    hide Beside, Peek, Word;
    PeekBeside(own.mem, rest, all.mem, a, 4);
  }

  lemma BothWords(w: Option<u32>, w': Option<u32>, x: int)
    requires WordMoved(w, w', x) && w.Some?
    ensures w' == Some(Wrap32(w.value + x))
  {
  }

  // ----- why relocations must not touch the other regions -----

  const SMALL: Section := Section(1, 4, 0, 0, [])
  const SMALL_TWO: seq<Section> := [SMALL, SMALL]
  /** Moves the cursor on by 16 and adds the address of section 0. */
  const STRAYING_CHUNKS: seq<u16> := [0x800F, 0x4000]
  const STRAYING: Image := Image(SMALL_TWO, [], [Relocs(0, STRAYING_CHUNKS)], [], [])
  const OTHER: Regions := [Region(32, [0, 0, 0, 0], Perms(true, true, false), "other")]

  function SmallRegion(i: nat, at: u32): Region { Region(at, [0, 0, 0, 0], SectionPerms(1), RegionName(i, 1)) }

  lemma SmallPlaced(mem: Regions, i: nat, at: u32)
    requires Valid(mem) && Below(mem, at) && at + 4 <= 0x1_0000_0000
    ensures PlaceSection(mem, SMALL, RegionName(i, 1), at) == Done(mem + [SmallRegion(i, at)])
    ensures Valid(mem + [SmallRegion(i, at)]) && Below(mem + [SmallRegion(i, at)], at + 4)
  {
    hide PlaceSection, Valid, RegionName;
    PlaceAtEnd(mem, SMALL, RegionName(i, 1), at);
    assert Contents(SMALL) == Some([]) && Padded([], 4) == [0, 0, 0, 0];
  }

  lemma SmallStep(mem: Regions, i: nat, at: u32)
    requires i < 2 && Valid(mem) && Below(mem, at) && at <= 1000
    ensures MapSections(SMALL_TWO, i, mem, at)
         == Prefixed([at], MapSections(SMALL_TWO, i + 1, mem + [SmallRegion(i, at)], at + 4))
  {
    NoAlignment(at);
    hide PlaceSection, RegionName, SmallRegion, Valid, MapSections, AlignUp, Pow2, Below;
    SmallPlaced(mem, i, at);
    StepPlaced(SMALL_TWO, i, mem, at);
  }

  lemma NoAlignment(at: u32)
    ensures AlignUp(at, Pow2(0)) == at
  {
  }

  lemma SmallEnd(mem: Regions, at: u32)
    ensures MapSections(SMALL_TWO, 2, mem, at) == Done(Layout([], mem))
  {
  }

  /** The layout of two sections of four bytes. */
  lemma SmallLayout(base: u32)
    requires base <= 900
    ensures MapSections(SMALL_TWO, 0, [], base)
            == Done(Layout([base, base + 4], [SmallRegion(0, base), SmallRegion(1, base + 4)]))
  {
    hide *;
    var one := [] + [SmallRegion(0, base)];
    var two := one + [SmallRegion(1, base + 4)];
    assert two == [SmallRegion(0, base), SmallRegion(1, base + 4)];
    NothingMapped(base);
    SmallPlaced([], 0, base);
    SmallStep([], 0, base);
    SmallStep(one, 1, base + 4);
    SmallEnd(two, base + 8);
    PrefixedNext([base], base + 4, Done(Layout([], two)));
    assert [base] + [base + 4] == [base, base + 4];
    PrefixedEnd([base, base + 4], two);
  }

  lemma NothingMapped(cursor: int)
    ensures Valid([]) && Below([], cursor)
  {
  }

  lemma PrefixedEnd(done: seq<u32>, mem: Regions)
    ensures Prefixed(done, Done(Layout([], mem))) == Done(Layout(done, mem))
  {
    assert done + [] == done;
  }

  lemma StrayingDecodes()
    ensures DecodeAt(STRAYING_CHUNKS, 0) == Increment(16) && DecodeAt(STRAYING_CHUNKS, 1) == PefRelocation.Run(SectC, 1)
    ensures Length(STRAYING_CHUNKS[0]) == 1 && Length(STRAYING_CHUNKS[1]) == 1
  {
    hide DecodeByIndex, DecodeLarge;
  }

  lemma StrayingRuns(env: Env, s: State)
    ensures Exec(env, STRAYING_CHUNKS, 0, s, true) == AddHere(Advance(s, 16), s.sectionC, true, 4)
  {
    StrayingDecodes();
    hide DecodeAt, Length, AddHere, Exec, Units;
    var t := Advance(s, 16);
    OneStepOf(env, 0, s);
    OneStepOf(env, 1, t);
    assert Units(env, SectC, 1, t) == AddHere(t, t.sectionC, true, 4) by { OneUnitOf(env, t); }
    assert forall u :: Exec(env, STRAYING_CHUNKS, 2, u, true) == Done(u) by { NothingLeft(env); }
  }

  lemma OneStepOf(env: Env, i: nat, s: State)
    requires i < 2 && Length(STRAYING_CHUNKS[i]) == 1 && !DecodeAt(STRAYING_CHUNKS, i).Repeat?
    ensures var r := Simple(env, DecodeAt(STRAYING_CHUNKS, i), s);
            Exec(env, STRAYING_CHUNKS, i, s, true) == if r.Failed? then r
                else Exec(env, STRAYING_CHUNKS, i + 1, r.state, true)
  {
    hide Simple, DecodeAt, Length;
  }

  lemma OneUnitOf(env: Env, s: State)
    ensures Units(env, SectC, 1, s) == AddHere(s, s.sectionC, true, 4)
  {
    hide AddHere;
    assert forall u :: Units(env, SectC, 0, u) == Done(u);
  }

  lemma NothingLeft(env: Env)
    ensures forall u :: Exec(env, STRAYING_CHUNKS, 2, u, true) == Done(u)
  {
  }

  /** Beside the other region at 32: the sections always find room, but only at 16 is the cursor inside that region. */
  lemma StrayingBeside(base: u32)
    requires base == 16 || base == 24
    ensures Load(STRAYING, OTHER, base).Done? <==> base == 16
    ensures ClearOf(OTHER, SMALL_TWO, 0, [base, base + 4])
  {
    StrayingMaps(base);
    var p := MapSections(SMALL_TWO, 0, OTHER, base);
    StrayingRelocates(p.state.mem, base);
    hide MapSections, Beside, ClearOf, Valid, RelocateAll;
  }

  lemma StrayingMaps(base: u32)
    requires base == 16 || base == 24
    ensures ClearOf(OTHER, SMALL_TWO, 0, [base, base + 4])
    ensures var p := MapSections(SMALL_TWO, 0, OTHER, base);
            && p.Done? && p.state.sections == [base, base + 4]
            && Beside([SmallRegion(0, base), SmallRegion(1, base + 4)], OTHER, p.state.mem)
  {
    assert Valid(OTHER);
    hide MapSections, Beside, ClearOf, Valid, SmallRegion;
    NothingBeside(OTHER);
    SmallLayout(base);
    MapAllBeside([], OTHER, OTHER, SMALL_TWO, 0, base);
    RoomBelow32(base);
  }

  lemma StrayingRelocates(all: Regions, base: u32)
    requires base == 16 || base == 24
    requires Beside([SmallRegion(0, base), SmallRegion(1, base + 4)], OTHER, all)
    ensures RelocateAll(Env([base, base + 4], []), State(all, 0, 0, 0, 0, 0, []), [Relocs(0, STRAYING_CHUNKS)]).Done?
       <==> base == 16
  {
    hide *;
    CursorAt([SmallRegion(0, base), SmallRegion(1, base + 4)], all, base, base);
    StreamFrom(all, base);
    AddHereDone(State(all, base, base + 16, base, base + 4, 0, []), base);
  }

  lemma StreamFrom(all: Regions, base: u32)
    requires base == 16 || base == 24
    ensures RelocateAll(Env([base, base + 4], []), State(all, 0, 0, 0, 0, 0, []), [Relocs(0, STRAYING_CHUNKS)])
         == AddHere(State(all, base, base + 16, base, base + 4, 0, []), base, true, 4)
  {
    hide Exec, RelocateAll, AddHere;
    var env := Env([base, base + 4], []);
    StrayingRuns(env, State(all, base, base, base, base + 4, 0, []));
    OneStream(env, State(all, 0, 0, 0, 0, 0, []), Relocs(0, STRAYING_CHUNKS));
  }

  lemma AddHereDone(s: State, v: u32)
    ensures AddHere(s, v, true, 4).Done? <==> AddWord(s.mem, s.address, v).Some?
  {
    hide AddWord;
  }

  lemma OneStream(env: Env, s: State, r: Relocs)
    requires r.section < |env.sections|
    ensures RelocateAll(env, s, [r]) == RelocateSection(env, s, r)
  {
    hide Exec;
    assert [r][1..] == [];
  }

  lemma RoomBelow32(base: u32)
    requires base <= 24
    ensures ClearOf(OTHER, SMALL_TWO, 0, [base, base + 4])
  {
    var sections: seq<u32>, hs := [base, base + 4], SMALL_TWO;
    forall k | 0 <= k < 2 ensures RangeFree(OTHER, sections[k], hs[0 + k].totalLength) {
    }
  }

  /** The word at the cursor is mapped exactly when it is the other region. */
  lemma CursorAt(own: Regions, all: Regions, base: u32, v: u32)
    requires (base == 16 || base == 24) && own == [SmallRegion(0, base), SmallRegion(1, base + 4)]
    requires Beside(own, OTHER, all)
    ensures AddWord(all, base + 16, v).Some? <==> base == 16
  {
    var a := base + 16;
    OneAddress(own, OTHER, all, a);
    assert At(own, a).Unmapped?;
    assert At(OTHER, a).Cell? <==> base == 16;
    OneRegionBeside(own, OTHER, all, a, 4);
    PeekIsFlat(all, a, 4);
    if base == 16 {
      FindUnique(OTHER, 32, 4, 0);
      FindIsOneRegion(OTHER, 32, 4);
    }
    hide At, Beside, Peek, Poke, Valid, Word;
    PeekLength(all, a, 4);
    if Peek(all, a, 4).Some? { PeekPokeTogether(all, a, WordBytes(Wrap32(Word(Peek(all, a, 4).value) + v))); }
  }

  /**
    A memory clear of both layouts is not enough: here the relocations of the
    image reach another region at one base, and nothing at the other.
   */
  lemma StrayingDoesNotRebase()
    ensures Parsed(STRAYING) && Rebasable(STRAYING, 16, 8) && Valid(OTHER)
    ensures ClearOf(OTHER, SMALL_TWO, 0, [16, 20]) && ClearOf(OTHER, SMALL_TWO, 0, [24, 28])
    ensures MapSections(SMALL_TWO, 0, [], 16).state.sections == [16, 20]
    ensures MapSections(SMALL_TWO, 0, [], 24).state.sections == [24, 28]
    ensures Load(STRAYING, OTHER, 16).Done? && Load(STRAYING, OTHER, 24).Failed?
  {
    hide Load, MapSections, ClearOf, SmallRegion, Rebasable;
    StrayingBeside(16);
    StrayingBeside(24);
    SmallLayout(16);
    SmallLayout(24);
    SmallRebasable();
  }

  lemma SmallRebasable()
    ensures Rebasable(STRAYING, 16, 8)
  {
    assert Pow2(0) == 1;
    assert Fits(SMALL_TWO, 2, 24, 8);
    assert Fits(SMALL_TWO, 1, 20, 8);
  }
}
