/** Loading an image somewhere else moves it, and changes nothing but the addresses of its own sections. */
module PefRebasing {
  import opened Words
  import opened Attempts
  import opened Numbers
  import opened MemoryModel
  import opened MemoryMapping
  import opened PefRelocation
  import opened PefLoading

  // ----- memories that differ by where they lie -----

  predicate MovedRegion(r: Region, r': Region, d: nat) {
    r' == r.(base := r'.base, bytes := r'.bytes) && r'.base == r.base + d && |r'.bytes| == |r.bytes|
  }

  /** The same regions d further up; their bytes may differ. */
  ghost predicate Moved(mem: Regions, mem': Regions, d: nat) {
    && Valid(mem) && Valid(mem')
    && |mem| == |mem'|
    && forall i :: 0 <= i < |mem| ==> MovedRegion(mem[i], mem'[i], d)
  }

  ghost predicate SameBytes(mem: Regions, mem': Regions) {
    |mem| == |mem'| && forall i :: 0 <= i < |mem| ==> mem[i].bytes == mem'[i].bytes
  }

  function Shifted(a: u32, d: nat): u32 { Wrap32(a + d) }

  /** Lookups agree after the shift, even where the shifted address wraps. */
  lemma FindMoved(mem: Regions, mem': Regions, d: nat, a: u32, size: nat)
    requires Moved(mem, mem', d) && size >= 1 && d < 0x1_0000_0000
    ensures Find(mem', Shifted(a, d), size) == Find(mem, a, size)
  {
    forall i | 0 <= i < |mem| ensures mem[i].Covers(a, size) == mem'[i].Covers(Shifted(a, d), size) {
      assert MovedRegion(mem[i], mem'[i], d);
    }
    var i, i' := Find(mem, a, size), Find(mem', Shifted(a, d), size);
    assert i != -1 ==> mem'[i].Covers(Shifted(a, d), size);
    assert i' != -1 ==> mem[i'].Covers(a, size);
  }

  lemma LayoutMoved(mem: Regions, mem': Regions, m: Regions, m': Regions, d: nat)
    requires Moved(mem, mem', d) && SameLayout(mem, m) && SameLayout(mem', m') && Valid(m) && Valid(m')
    ensures Moved(m, m', d)
  {
    forall i | 0 <= i < |m| ensures MovedRegion(m[i], m'[i], d) {
      assert MovedRegion(mem[i], mem'[i], d) && SameShape(mem[i], m[i]) && SameShape(mem'[i], m'[i]);
    }
  }

  lemma AddWordMoved(mem: Regions, mem': Regions, d: nat, a: u32, v: u32, v': u32)
    requires Moved(mem, mem', d) && d < 0x1_0000_0000
    ensures AddWord(mem, a, v).Some? == AddWord(mem', Shifted(a, d), v').Some?
    ensures AddWord(mem, a, v).Some? ==> Moved(AddWord(mem, a, v).value, AddWord(mem', Shifted(a, d), v').value, d)
  {
    hide Word, WordBytes, Valid;
    FindMoved(mem, mem', d, a, 4);
    var b, b' := Peek(mem, a, 4), Peek(mem', Shifted(a, d), 4);
    if b.Some? {
      var x, x' := WordBytes(Wrap32(Word(b.value) + v)), WordBytes(Wrap32(Word(b'.value) + v'));
      PokeIsFlat(mem, a, x);
      PokeIsFlat(mem', Shifted(a, d), x');
      assert Poke(mem, a, x).Some? && Poke(mem', Shifted(a, d), x').Some?;
      hide Moved, SameLayout, Poke;
      LayoutMoved(mem, mem', Poke(mem, a, x).value, Poke(mem', Shifted(a, d), x').value, d);
    }
  }

  // ----- relocation runs that differ by where they run -----

  /** What one patch becomes: its address moves, and so does its addend when that is a section's address. */
  function MovedPatch(p: Patch, d: nat): Patch {
    Patch(Shifted(p.address, d), if p.fromSection then Shifted(p.addend, d) else p.addend, p.fromSection)
  }

  function MovedPatches(ps: seq<Patch>, d: nat): seq<Patch> {
    seq(|ps|, i requires 0 <= i < |ps| => MovedPatch(ps[i], d))
  }

  /** The memory a list of patches leads to. */
  function ApplyPatches(mem: Regions, ps: seq<Patch>): Option<Regions> {
    if |ps| == 0 then Some(mem)
    else
      var m, p := ApplyPatches(mem, ps[..|ps| - 1]), ps[|ps| - 1];
      if m.None? then None else AddWord(m.value, p.address, p.addend)
  }

  ghost predicate MovedEnv(env: Env, env': Env, d: nat) {
    && env'.imports == env.imports
    && |env'.sections| == |env.sections|
    && forall i :: 0 <= i < |env.sections| ==>
         if env.sections[i] == 0 then env'.sections[i] == 0 else env'.sections[i] == env.sections[i] + d
  }

  /** Two states of the machine, the second d further up, with the patches that led to their memories. */
  ghost predicate Related(m0: Regions, m0': Regions, d: nat, s: State, s': State) {
    && d < 0x1_0000_0000
    && Moved(s.mem, s'.mem, d)
    && s'.targetBase == Shifted(s.targetBase, d) && s'.address == Shifted(s.address, d)
    && s'.sectionC == Shifted(s.sectionC, d) && s'.sectionD == Shifted(s.sectionD, d)
    && s'.importIndex == s.importIndex
    && s'.patches == MovedPatches(s.patches, d)
    && ApplyPatches(m0, s.patches) == Some(s.mem) && ApplyPatches(m0', s'.patches) == Some(s'.mem)
  }

  ghost predicate RelatedResults(m0: Regions, m0': Regions, d: nat, r: Attempt<State>, r': Attempt<State>) {
    r.Done? == r'.Done? && Related(m0, m0', d, r.state, r'.state)
  }

  lemma PatchAppended(mem: Regions, ps: seq<Patch>, p: Patch, d: nat)
    ensures var m := ApplyPatches(mem, ps);
            ApplyPatches(mem, ps + [p]) == if m.None? then None else AddWord(m.value, p.address, p.addend)
    ensures MovedPatches(ps + [p], d) == MovedPatches(ps, d) + [MovedPatch(p, d)]
  {
    assert (ps + [p])[..|ps|] == ps;
  }

  lemma AddMoved(m0: Regions, m0': Regions, d: nat, s: State, s': State, at: u32, v: u32, v': u32, fromSection: bool)
    requires Related(m0, m0', d, s, s')
    requires v' == if fromSection then Shifted(v, d) else v
    ensures RelatedResults(m0, m0', d, Add(s, at, v, fromSection), Add(s', Shifted(at, d), v', fromSection))
  {
    hide AddWord, Moved, MovedPatches, ApplyPatches;
    AddWordMoved(s.mem, s'.mem, d, at, v, v');
    var p := Patch(at, v, fromSection);
    PatchAppended(m0, s.patches, p, d);
    PatchAppended(m0', s'.patches, MovedPatch(p, d), d);
  }

  lemma ShiftAdvance(a: u32, d: nat, n: int)
    ensures Shifted(Wrap32(a + n), d) == Wrap32(Shifted(a, d) + n)
  {
  }

  lemma AdvanceMoved(m0: Regions, m0': Regions, d: nat, s: State, s': State, n: int)
    requires Related(m0, m0', d, s, s')
    ensures Related(m0, m0', d, Advance(s, n), Advance(s', n))
  {
    hide Moved, ApplyPatches, MovedPatches, Shifted;
    ShiftAdvance(s.address, d, n);
  }

  lemma AddHereMoved(m0: Regions, m0': Regions, d: nat, s: State, s': State, v: u32, v': u32, fromSection: bool, n: int)
    requires Related(m0, m0', d, s, s')
    requires v' == if fromSection then Shifted(v, d) else v
    ensures RelatedResults(m0, m0', d, AddHere(s, v, fromSection, n), AddHere(s', v', fromSection, n))
  {
    hide Add, Moved, ApplyPatches, MovedPatches;
    AddMoved(m0, m0', d, s, s', s.address, v, v', fromSection);
    var r, r' := Add(s, s.address, v, fromSection), Add(s', s'.address, v', fromSection);
    if r.Done? { AdvanceMoved(m0, m0', d, r.state, r'.state, n); }
  }

  lemma VectorMoved(m0: Regions, m0': Regions, d: nat, s: State, s': State, n: int)
    requires Related(m0, m0', d, s, s')
    ensures RelatedResults(m0, m0', d, Vector(s, n), Vector(s', n))
  {
    hide Moved, ApplyPatches, MovedPatches, Shifted, AddWord;
    AddMoved(m0, m0', d, s, s', s.address, s.sectionC, s'.sectionC, true);
    var r, r' := Add(s, s.address, s.sectionC, true), Add(s', s'.address, s'.sectionC, true);
    if r.Done? {
      ShiftAdvance(s.address, d, 4);
      AddMoved(m0, m0', d, r.state, r'.state, Wrap32(s.address + 4), s.sectionD, s'.sectionD, true);
      var q, q' := Add(r.state, Wrap32(s.address + 4), s.sectionD, true),
          Add(r'.state, Wrap32(s'.address + 4), s'.sectionD, true);
      if q.Done? { AdvanceMoved(m0, m0', d, q.state, q'.state, n); }
    }
  }

  lemma OneUnitMoved(m0: Regions, m0': Regions, d: nat, env: Env, env': Env, u: Unit, s: State, s': State)
    requires MovedEnv(env, env', d) && Related(m0, m0', d, s, s')
    ensures RelatedResults(m0, m0', d, OneUnit(env, u, s), OneUnit(env', u, s'))
  {
    hide AddHere, Vector, Moved, ApplyPatches, MovedPatches, RelatedResults;
    match u
    case SectC => AddHereMoved(m0, m0', d, s, s', s.sectionC, s'.sectionC, true, 4);
    case SectD => AddHereMoved(m0, m0', d, s, s', s.sectionD, s'.sectionD, true, 4);
    case Vector12 => VectorMoved(m0, m0', d, s, s', 12);
    case Vector8 => VectorMoved(m0, m0', d, s, s', 8);
    case Table8 => AddHereMoved(m0, m0', d, s, s', s.sectionD, s'.sectionD, true, 8);
    case NextImport =>
      var a := ImportAddress(env, s.importIndex);
      var i := Wrap32(s.importIndex + 1);
      var counted, counted' := s.(importIndex := i), s'.(importIndex := i);
      if a.Some? {
        AddHereMoved(m0, m0', d, counted, counted', a.value, a.value, false, 4);
      } else {
        BothFail(m0, m0', d, counted, counted');
      }
  }

  lemma BothFail(m0: Regions, m0': Regions, d: nat, s: State, s': State)
    requires Related(m0, m0', d, s, s')
    ensures RelatedResults(m0, m0', d, Failed(s), Failed(s'))
  {
  }

  lemma {:induction false} UnitsMoved(m0: Regions, m0': Regions, d: nat, env: Env, env': Env, u: Unit, count: nat,
      s: State, s': State)
    requires MovedEnv(env, env', d) && Related(m0, m0', d, s, s')
    ensures RelatedResults(m0, m0', d, Units(env, u, count, s), Units(env', u, count, s'))
    decreases count
  {
    hide OneUnit, Related, MovedEnv;
    if count > 0 {
      OneUnitMoved(m0, m0', d, env, env', u, s, s');
      var r, r' := OneUnit(env, u, s), OneUnit(env', u, s');
      if r.Done? { UnitsMoved(m0, m0', d, env, env', u, count - 1, r.state, r'.state); }
    }
  }

  lemma SectionMoved(env: Env, env': Env, d: nat, index: nat)
    requires MovedEnv(env, env', d)
    ensures SectionAddress(env, index).Some? == SectionAddress(env', index).Some?
    ensures SectionAddress(env, index).Some?
            ==> SectionAddress(env', index).value == Shifted(SectionAddress(env, index).value, d)
  {
  }

  lemma SimpleMoved(m0: Regions, m0': Regions, d: nat, env: Env, env': Env, instr: Instr, s: State, s': State)
    requires MovedEnv(env, env', d) && Related(m0, m0', d, s, s')
    ensures RelatedResults(m0, m0', d, Simple(env, instr, s), Simple(env', instr, s'))
  {
    hide AddHere, Units, Moved, ApplyPatches, MovedPatches, Shifted, MovedEnv, SectionAddress;
    match instr
    case Skip(bytes, count) =>
      AdvanceMoved(m0, m0', d, s, s', bytes);
      UnitsMoved(m0, m0', d, env, env', SectD, count, Advance(s, bytes), Advance(s', bytes));
    case Run(u, count) => UnitsMoved(m0, m0', d, env, env', u, count, s, s');
    case ByImport(index) =>
      ImportsSame(env, env', d, index);
      var a := ImportAddress(env, index);
      if a.Some? { AddHereMoved(m0, m0', d, s, s', a.value, a.value, false, 4); }
    case SetSectC(index) => SectionMoved(env, env', d, index);
    case SetSectD(index) => SectionMoved(env, env', d, index);
    case BySection(index) =>
      SectionMoved(env, env', d, index);
      var a, a' := SectionAddress(env, index), SectionAddress(env', index);
      if a.Some? { AddHereMoved(m0, m0', d, s, s', a.value, a'.value, true, 4); }
    case Increment(bytes) => AdvanceMoved(m0, m0', d, s, s', bytes);
    case SetPosition(offset) => ShiftAdvance(s.targetBase, d, offset);
    case Repeat(_, _) =>
    case Invalid =>
  }

  lemma ImportsSame(env: Env, env': Env, d: nat, index: nat)
    requires MovedEnv(env, env', d)
    ensures ImportAddress(env, index) == ImportAddress(env', index)
  {
  }

  lemma {:induction false} ExecMoved(m0: Regions, m0': Regions, d: nat, env: Env, env': Env, block: seq<u16>, i: nat,
      s: State, s': State, allowed: bool)
    requires MovedEnv(env, env', d) && Related(m0, m0', d, s, s') && i <= |block|
    ensures RelatedResults(m0, m0', d, Exec(env, block, i, s, allowed), Exec(env', block, i, s', allowed))
    decreases if allowed then 1 else 0, |block| - i, 0
  {
    hide Simple, Decode, Related, MovedEnv, IsTwoBlock;
    if i < |block| && i + Length(block[i]) <= |block| {
      var instr := DecodeAt(block, i);
      if instr.Repeat? {
        if allowed && instr.blocks <= i {
          var sub := block[i - instr.blocks..i];
          RepeatsMoved(m0, m0', d, env, env', sub, instr.times, s, s');
          var r, r' := Repeats(env, sub, instr.times, s), Repeats(env', sub, instr.times, s');
          if r.Done? { ExecMoved(m0, m0', d, env, env', block, i + Length(block[i]), r.state, r'.state, allowed); }
        }
      } else {
        SimpleMoved(m0, m0', d, env, env', instr, s, s');
        var r, r' := Simple(env, instr, s), Simple(env', instr, s');
        if r.Done? { ExecMoved(m0, m0', d, env, env', block, i + Length(block[i]), r.state, r'.state, allowed); }
      }
    }
  }

  lemma {:induction false} RepeatsMoved(m0: Regions, m0': Regions, d: nat, env: Env, env': Env, block: seq<u16>,
      times: nat, s: State, s': State)
    requires MovedEnv(env, env', d) && Related(m0, m0', d, s, s')
    ensures RelatedResults(m0, m0', d, Repeats(env, block, times, s), Repeats(env', block, times, s'))
    decreases 0, |block| + 1, times
  {
    hide Exec, Related, MovedEnv;
    if times > 0 {
      ExecMoved(m0, m0', d, env, env', block, 0, s, s', false);
      var r, r' := Exec(env, block, 0, s, false), Exec(env', block, 0, s', false);
      if r.Done? { RepeatsMoved(m0, m0', d, env, env', block, times - 1, r.state, r'.state); }
    }
  }

  // ----- placing the sections -----

  /** The layout from the i-th section on, placed d above the cursor, stays below 2^32. */
  predicate Fits(hs: seq<Section>, i: nat, cursor: int, d: nat)
    requires i <= |hs|
    decreases |hs| - i
  {
    if i == |hs| then cursor + d < 0x1_0000_0000
    else if !Placed(hs[i]) then Fits(hs, i + 1, cursor, d)
    else
      hs[i].alignmentPower < 31 ==>
        var end := RoundUp(cursor, Pow2(hs[i].alignmentPower)) + hs[i].totalLength;
        end + d < 0x1_0000_0000 && Fits(hs, i + 1, end, d)
  }

  /** The shift is a multiple of every section's alignment. */
  predicate Multiple(hs: seq<Section>, d: nat) {
    forall i :: 0 <= i < |hs| && Placed(hs[i]) ==> d % Pow2(hs[i].alignmentPower) == 0
  }

  predicate Below(mem: Regions, cursor: int) {
    forall i :: 0 <= i < |mem| ==> mem[i].End() <= cursor
  }

  /** The contents of a section, or nothing if they do not decode. */
  function Known(h: Section): (c: seq<u8>)
    ensures |c| <= h.unpackedLength
  {
    if Contents(h).Some? then Contents(h).value else []
  }

  function Padded(contents: seq<u8>, size: nat): seq<u8>
    requires |contents| <= size
  {
    contents + seq(size - |contents|, _ => 0)
  }

  lemma MapAtEnd(mem: Regions, q: Request)
    requires Valid(mem) && Below(mem, q.base) && q.size > 0 && q.End() <= 0x1_0000_0000
    ensures MapRegion(mem, q) == Some(mem + [q.Region()]) && Valid(mem + [q.Region()])
  {
    MapKeepsValid(mem, q);
    assert Rank(mem, q.base) == |mem|;
    assert Inserted(mem, |mem|, q.Region()) == mem + [q.Region()];
  }

  /** Above all regions placed so far a section always fits; it fails only if its contents do not decode. */
  lemma PlaceAtEnd(mem: Regions, h: Section, name: string, at: u32)
    requires Valid(mem) && Below(mem, at) && Placed(h) && h.unpackedLength <= h.totalLength
    requires at + h.totalLength <= 0x1_0000_0000
    ensures PlaceSection(mem, h, name, at)
         == Tried(Contents(h).Some?, mem + [Region(at, Padded(Known(h), h.totalLength), SectionPerms(h.kind), name)])
    ensures var m := PlaceSection(mem, h, name, at).state; Valid(m) && Below(m, at + h.totalLength)
  {
    hide MapRegion, Contents, SectionPerms;
    var q := Request(at, h.totalLength, SectionPerms(h.kind), name);
    MapAtEnd(mem, q);
    var m := mem + [q.Region()];
    var c := Known(h);
    if c == [] {
      assert Padded(c, h.totalLength) == q.Region().bytes;
    } else {
      FindUnique(m, at, |c|, |mem|);
      PokeIsFlat(m, at, c);
      assert Splice(q.Region().bytes, 0, c) == Padded(c, h.totalLength);
      var r := q.Region().(bytes := Padded(c, h.totalLength));
      assert m[|mem| := r] == mem + [r];
    }
  }

  lemma AlignedAt(cursor: u32, power: nat, d: nat, end: int)
    requires end >= RoundUp(cursor, Pow2(power)) && end + d < 0x1_0000_0000
    requires d % Pow2(power) == 0 && cursor + d < 0x1_0000_0000
    ensures AlignUp(cursor, Pow2(power)) == RoundUp(cursor, Pow2(power)) >= cursor
    ensures AlignUp(cursor + d, Pow2(power)) == AlignUp(cursor, Pow2(power)) + d
  {
    hide RoundUp, Pow2;
    RoundUpBounds(cursor, Pow2(power));
    RoundUpShift(cursor, Pow2(power), d);
    RoundUpBounds(cursor + d, Pow2(power));
  }

  /** The addresses the sections get, from the given cursor and d further up. */
  ghost predicate MovedSections(hs: seq<Section>, i: nat, cursor: u32, d: nat, a: seq<u32>, a': seq<u32>)
    requires i <= |hs|
  {
    && |a| == |a'| == |hs| - i
    && forall k :: 0 <= k < |a| ==>
         if Placed(hs[i + k]) then cursor <= a[k] && a'[k] == a[k] + d else a[k] == a'[k] == 0
  }

  lemma MovedPlaced(mem: Regions, mem': Regions, d: nat, r: Region, r': Region)
    requires Moved(mem, mem', d) && SameBytes(mem, mem') && MovedRegion(r, r', d) && r.bytes == r'.bytes
    requires Valid(mem + [r]) && Valid(mem' + [r'])
    ensures Moved(mem + [r], mem' + [r'], d) && SameBytes(mem + [r], mem' + [r'])
  {
    hide Valid;
  }

  lemma BelowMoved(mem: Regions, mem': Regions, d: nat, cursor: int)
    requires Moved(mem, mem', d) && Below(mem, cursor)
    ensures Below(mem', cursor + d)
  {
    forall i | 0 <= i < |mem'| ensures mem'[i].End() <= cursor + d {
      assert MovedRegion(mem[i], mem'[i], d);
    }
  }

  /** Both mappings fail, or both succeed, with the second one d further up. */
  ghost predicate MovedMapping(hs: seq<Section>, i: nat, cursor: u32, d: nat, r: Attempt<Layout>, r': Attempt<Layout>)
    requires i <= |hs|
  {
    && r.Done? == r'.Done?
    && Moved(r.state.mem, r'.state.mem, d) && SameBytes(r.state.mem, r'.state.mem)
    && (r.Done? ==> MovedSections(hs, i, cursor, d, r.state.sections, r'.state.sections))
  }

  lemma {:induction false} MapMoved(hs: seq<Section>, i: nat, mem: Regions, mem': Regions, cursor: u32, d: nat)
    requires i <= |hs| && Moved(mem, mem', d) && SameBytes(mem, mem') && Below(mem, cursor)
    requires Fits(hs, i, cursor, d) && Multiple(hs, d) && cursor + d < 0x1_0000_0000
    requires forall k :: 0 <= k < |hs| ==> hs[k].unpackedLength <= hs[k].totalLength
    ensures MovedMapping(hs, i, cursor, d, MapSections(hs, i, mem, cursor), MapSections(hs, i, mem', cursor + d))
    decreases |hs| - i, 1
  {
    hide Placed, PlaceSection, Moved, SameBytes, AlignUp, RoundUp, Pow2, Below, RegionName, MovedSections, Multiple;
    if i == |hs| {
      NoSections(hs, cursor, d);
    } else if !Placed(hs[i]) {
      MapMoved(hs, i + 1, mem, mem', cursor, d);
      StepNotPlaced(hs, i, mem, cursor);
      StepNotPlaced(hs, i, mem', cursor + d);
      var r, r' := MapSections(hs, i + 1, mem, cursor), MapSections(hs, i + 1, mem', cursor + d);
      if r.Done? { ConsSections(hs, i, cursor, cursor, d, 0, 0, r.state.sections, r'.state.sections); }
    } else if hs[i].alignmentPower < 31 {
      MapPlacedMoved(hs, i, mem, mem', cursor, d);
    }
  }

  lemma NoSections(hs: seq<Section>, cursor: u32, d: nat)
    ensures MovedSections(hs, |hs|, cursor, d, [], [])
  {
  }

  lemma {:induction false} MapPlacedMoved(hs: seq<Section>, i: nat, mem: Regions, mem': Regions, cursor: u32, d: nat)
    requires i < |hs| && Placed(hs[i]) && hs[i].alignmentPower < 31
    requires Moved(mem, mem', d) && SameBytes(mem, mem') && Below(mem, cursor)
    requires Fits(hs, i, cursor, d) && Multiple(hs, d) && cursor + d < 0x1_0000_0000
    requires forall k :: 0 <= k < |hs| ==> hs[k].unpackedLength <= hs[k].totalLength
    ensures MovedMapping(hs, i, cursor, d, MapSections(hs, i, mem, cursor), MapSections(hs, i, mem', cursor + d))
    decreases |hs| - i, 0
  {
    hide Placed, PlaceSection, Moved, SameBytes, AlignUp, RoundUp, Pow2, Below, RegionName, MovedSections, MapSections;
    var h := hs[i];
    var name, at := RegionName(i, h.kind), AlignUp(cursor, Pow2(h.alignmentPower));
    var end := RoundUp(cursor, Pow2(h.alignmentPower)) + h.totalLength;
    AlignedAt(cursor, h.alignmentPower, d, end);
    PlaceMoved(mem, mem', h, name, cursor, at, d);
    var m, m' := PlaceSection(mem, h, name, at), PlaceSection(mem', h, name, at + d);
    StepPlaced(hs, i, mem, cursor);
    StepPlaced(hs, i, mem', cursor + d);
    if m.Done? {
      hide Multiple;
      MapMoved(hs, i + 1, m.state, m'.state, end, d);
      var r, r' := MapSections(hs, i + 1, m.state, end), MapSections(hs, i + 1, m'.state, end + d);
      if r.Done? { ConsSections(hs, i, cursor, end, d, at, at + d, r.state.sections, r'.state.sections); }
    }
  }

  lemma StepNotPlaced(hs: seq<Section>, i: nat, mem: Regions, cursor: u32)
    requires i < |hs| && !Placed(hs[i])
    ensures MapSections(hs, i, mem, cursor) == Prefixed([0], MapSections(hs, i + 1, mem, cursor))
  {
  }

  lemma StepPlaced(hs: seq<Section>, i: nat, mem: Regions, cursor: u32)
    requires i < |hs| && Placed(hs[i]) && hs[i].alignmentPower < 31
    ensures var at := AlignUp(cursor, Pow2(hs[i].alignmentPower));
            var m := PlaceSection(mem, hs[i], RegionName(i, hs[i].kind), at);
            MapSections(hs, i, mem, cursor)
            == if m.Failed? then Failed(Layout([], m.state))
               else Prefixed([at], MapSections(hs, i + 1, m.state, Wrap32(at + hs[i].totalLength)))
  {
    hide PlaceSection, AlignUp, RegionName;
  }

  lemma ConsSections(hs: seq<Section>, i: nat, cursor: u32, next: u32, d: nat, x: u32, x': u32, a: seq<u32>,
      a': seq<u32>)
    requires i < |hs| && cursor <= next && MovedSections(hs, i + 1, next, d, a, a')
    requires if Placed(hs[i]) then cursor <= x && x' == x + d else x == x' == 0
    ensures MovedSections(hs, i, cursor, d, [x] + a, [x'] + a')
  {
    hide Placed;
    var b, b' := [x] + a, [x'] + a';
    forall k | 0 <= k < |b|
      ensures if Placed(hs[i + k]) then cursor <= b[k] && b'[k] == b[k] + d else b[k] == b'[k] == 0
    {
      if k > 0 { assert b[k] == a[k - 1] && b'[k] == a'[k - 1] && hs[i + k] == hs[i + 1 + (k - 1)]; }
    }
  }

  lemma PlaceMoved(mem: Regions, mem': Regions, h: Section, name: string, cursor: u32, at: u32, d: nat)
    requires Moved(mem, mem', d) && SameBytes(mem, mem') && Below(mem, cursor) && cursor <= at
    requires Placed(h) && h.unpackedLength <= h.totalLength && at + h.totalLength + d < 0x1_0000_0000
    ensures var m, m' := PlaceSection(mem, h, name, at), PlaceSection(mem', h, name, at + d);
            && m.Done? == m'.Done?
            && Moved(m.state, m'.state, d) && SameBytes(m.state, m'.state) && Below(m.state, at + h.totalLength)
  {
    hide PlaceSection, Contents, SectionPerms, Padded, Known;
    BelowMoved(mem, mem', d, cursor);
    PlaceAtEnd(mem, h, name, at);
    PlaceAtEnd(mem', h, name, at + d);
    var bytes := Padded(Known(h), h.totalLength);
    assert |bytes| == h.totalLength by { PaddedLength(Known(h), h.totalLength); }
    MovedPlaced(mem, mem', d, Region(at, bytes, SectionPerms(h.kind), name),
        Region(at + d, bytes, SectionPerms(h.kind), name));
  }

  lemma PaddedLength(contents: seq<u8>, size: nat)
    requires |contents| <= size
    ensures |Padded(contents, size)| == size
  {
  }

  // ----- the whole load -----

  /** The second run of relocations so far is the first one moved; the registers do not matter between streams. */
  ghost predicate RelatedMemories(m0: Regions, m0': Regions, d: nat, s: State, s': State) {
    && d < 0x1_0000_0000
    && Moved(s.mem, s'.mem, d)
    && s'.patches == MovedPatches(s.patches, d)
    && ApplyPatches(m0, s.patches) == Some(s.mem) && ApplyPatches(m0', s'.patches) == Some(s'.mem)
  }

  ghost predicate FirstTwoPlaced(env: Env) {
    |env.sections| >= 2 && env.sections[0] != 0 && env.sections[1] != 0
  }

  lemma RelocateSectionMoved(m0: Regions, m0': Regions, d: nat, env: Env, env': Env, s: State, s': State, r: Relocs)
    requires MovedEnv(env, env', d) && FirstTwoPlaced(env) && RelatedMemories(m0, m0', d, s, s')
    requires r.section < |env.sections|
    ensures var q, q' := RelocateSection(env, s, r), RelocateSection(env', s', r);
            q.Done? == q'.Done? && RelatedMemories(m0, m0', d, q.state, q'.state)
  {
    hide Exec, Moved, MovedPatches, ApplyPatches;
    var base, base' := env.sections[r.section], env'.sections[r.section];
    var t := State(s.mem, base, base, AddressOr0(env.sections, 0), AddressOr0(env.sections, 1), 0, s.patches);
    var t' := State(s'.mem, base', base', AddressOr0(env'.sections, 0), AddressOr0(env'.sections, 1), 0, s'.patches);
    if base != 0 {
      ExecMoved(m0, m0', d, env, env', r.chunks, 0, t, t', true);
    }
  }

  lemma {:induction false} RelocateAllMoved(m0: Regions, m0': Regions, d: nat, env: Env, env': Env, s: State,
      s': State, rs: seq<Relocs>)
    requires MovedEnv(env, env', d) && FirstTwoPlaced(env) && RelatedMemories(m0, m0', d, s, s')
    requires forall i :: 0 <= i < |rs| ==> rs[i].section < |env.sections|
    ensures var q, q' := RelocateAll(env, s, rs), RelocateAll(env', s', rs);
            q.Done? == q'.Done? && RelatedMemories(m0, m0', d, q.state, q'.state)
    decreases |rs|
  {
    hide RelocateSection, RelatedMemories, FirstTwoPlaced;
    if |rs| > 0 {
      RelocateSectionMoved(m0, m0', d, env, env', s, s', rs[0]);
      var r, r' := RelocateSection(env, s, rs[0]), RelocateSection(env', s', rs[0]);
      if r.Done? { RelocateAllMoved(m0, m0', d, env, env', r.state, r'.state, rs[1..]); }
    }
  }

  /** An address computed from a section's moves with it; 0 stands for no section. */
  function MovedAddress(a: u32, fromSection: bool, d: nat): u32 {
    if fromSection then Shifted(a, d) else a
  }

  predicate SectionRelative(sections: seq<u32>, section: int) {
    0 <= section < |sections| && sections[section] != 0
  }

  lemma ExportMoved(env: Env, env': Env, d: nat, e: Export)
    requires MovedEnv(env, env', d)
    ensures ExportValue(env'.sections, e) == MovedAddress(ExportValue(env.sections, e),
            SectionRelative(env.sections, e.section), d)
  {
    if SectionRelative(env.sections, e.section) {
      var a := env.sections[e.section];
      ShiftAdvance(a, d, e.value);
      assert env'.sections[e.section] == a + d == Shifted(a, d);
      hide Shifted, Wrap32;
    }
  }

  lemma EntryMoved(hs: seq<Section>, env: Env, env': Env, d: nat, e: Entry)
    requires MovedEnv(env, env', d) && |hs| == |env.sections|
    ensures var a, a' := EntryAddress(hs, env.sections, e), EntryAddress(hs, env'.sections, e);
            a.Some? == a'.Some? && (a.Some? ==> a'.value == MovedAddress(a.value, e.section >= 0, d))
  {
    if 0 <= e.section < |hs| && env.sections[e.section] != 0 {
      var a := env.sections[e.section];
      assert env'.sections[e.section] == a + d;
      hide Shifted, Wrap32;
      ShiftedSection(a, d, e.offset);
    }
  }

  lemma ShiftedSection(a: u32, d: nat, offset: u32)
    ensures Wrap32(a + d + offset) == Shifted(Wrap32(a + offset), d)
  {
  }

  /** The same entries are found, up to the same failure. */
  ghost predicate MovedEntries(es: seq<Entry>, d: nat, a: seq<u32>, a': seq<u32>) {
    |a'| == |a| <= |es| && forall i :: 0 <= i < |a| ==> a'[i] == MovedAddress(a[i], es[i].section >= 0, d)
  }

  lemma {:induction false} EntriesMoved(hs: seq<Section>, env: Env, env': Env, d: nat, es: seq<Entry>)
    requires MovedEnv(env, env', d) && |hs| == |env.sections|
    ensures |hs| == |env'.sections|
    ensures var r, r' := EntryAddresses(hs, env.sections, es), EntryAddresses(hs, env'.sections, es);
            r.Done? == r'.Done? && MovedEntries(es, d, r.state, r'.state)
    decreases |es|
  {
    assert |hs| == |env'.sections|;
    if |es| > 0 {
      EntryMoved(hs, env, env', d, es[0]);
      hide EntryAddress, MovedAddress, MovedEnv;
      EntriesMoved(hs, env, env', d, es[1..]);
    }
  }

  /** What loading at base + d gives, compared with loading at base. */
  ghost predicate Rebased(image: Image, d: nat, a: Loaded, a': Loaded) {
    && |a.sections| == |a'.sections| == |image.sections|
    && (forall i :: 0 <= i < |a.sections| ==>
          if Placed(image.sections[i]) then a'.sections[i] == a.sections[i] + d
              else a.sections[i] == a'.sections[i] == 0)
    && |a.exports| == |a'.exports| == |image.exports|
    && (forall i :: 0 <= i < |image.exports| ==>
          a'.exports[i] == MovedAddress(a.exports[i], SectionRelative(a.sections, image.exports[i].section), d))
    && |a.entries| == |image.entries| && MovedEntries(image.entries, d, a.entries, a'.entries)
  }

  /**
    The conditions of the rebase law: sections 0 and 1 are instantiated, the
    base is not 0, and the moved layout neither wraps nor loses alignment.
   */
  predicate Rebasable(image: Image, base: u32, d: nat) {
    && |image.sections| >= 2 && Placed(image.sections[0]) && Placed(image.sections[1])
    && base > 0 && base + d < 0x1_0000_0000
    && Fits(image.sections, 0, base, d) && Multiple(image.sections, d)
  }

  lemma MovedSectionsEnv(image: Image, base: u32, d: nat, a: seq<u32>, a': seq<u32>)
    requires Rebasable(image, base, d) && MovedSections(image.sections, 0, base, d, a, a')
    ensures MovedEnv(Env(a, image.imports), Env(a', image.imports), d) && FirstTwoPlaced(Env(a, image.imports))
  {
    hide Placed, Fits, Multiple;
    assert image.sections[0 + 0] == image.sections[0] && image.sections[0 + 1] == image.sections[1];
  }

  lemma ExportsMoved(env: Env, env': Env, d: nat, es: seq<Export>)
    requires MovedEnv(env, env', d)
    ensures var a, a' := ExportValues(env.sections, es), ExportValues(env'.sections, es);
            forall i :: 0 <= i < |es| ==> a'[i] == MovedAddress(a[i], SectionRelative(env.sections, es[i].section), d)
  {
    hide ExportValue, MovedEnv, SectionRelative, MovedAddress;
    forall i | 0 <= i < |es|
      ensures ExportValue(env'.sections, es[i])
           == MovedAddress(ExportValue(env.sections, es[i]), SectionRelative(env.sections, es[i].section), d)
    {
      ExportMoved(env, env', d, es[i]);
    }
  }

  /** The memories a load leaves behind, successful or not, differ by where they lie and by the addends that moved. */
  ghost predicate MovedLoads(d: nat, a: Loaded, a': Loaded) {
    && Moved(a.mem, a'.mem, d)
    && a'.patches == MovedPatches(a.patches, d)
    && exists m0: Regions, m0': Regions :: Moved(m0, m0', d) && SameBytes(m0, m0')
         && ApplyPatches(m0, a.patches) == Some(a.mem) && ApplyPatches(m0', a'.patches) == Some(a'.mem)
  }

  /**
    Loading an image d further up succeeds exactly when loading it at its base
    does, and then everything has moved by d and nothing else has changed; if
    both fail, they leave behind what differs by d.
   */
  lemma RebaseLaw(image: Image, base: u32, d: nat)
    requires Parsed(image) && Rebasable(image, base, d)
    ensures var r, r' := Load(image, [], base), Load(image, [], base + d);
            && r.Done? == r'.Done? && MovedLoads(d, r.state, r'.state)
            && (r.Done? ==> Rebased(image, d, r.state, r'.state))
  {
    hide MapSections, RelocateAll, EntryAddresses, ExportValues, MovedEnv, FirstTwoPlaced, MovedAddress;
    hide SectionRelative;
    hide Placed, Moved, SameBytes, MovedPatches, ApplyPatches, MovedSections, MovedEntries, Fits, Multiple;
    EmptyMoved(d);
    MapMoved(image.sections, 0, [], [], base, d);
    var p, p' := MapSections(image.sections, 0, [], base), MapSections(image.sections, 0, [], base + d);
    var m, m' := p.state.mem, p'.state.mem;
    NothingPatched(m, m', d);
    if p.Done? {
      var a, a' := p.state.sections, p'.state.sections;
      MovedSectionsEnv(image, base, d, a, a');
      var env, env' := Env(a, image.imports), Env(a', image.imports);
      RelocateAllMoved(m, m', d, env, env', State(m, 0, 0, 0, 0, 0, []), State(m', 0, 0, 0, 0, 0, []), image.relocs);
      EntriesMoved(image.sections, env, env', d, image.entries);
      ExportsMoved(env, env', d, image.exports);
      SectionsByIndex(image, base, d, a, a');
      ExportCount(a, image.exports);
      ExportCount(a', image.exports);
    }
  }

  lemma ExportCount(sections: seq<u32>, es: seq<Export>)
    ensures |ExportValues(sections, es)| == |es|
  {
  }

  lemma SectionsByIndex(image: Image, base: u32, d: nat, a: seq<u32>, a': seq<u32>)
    requires MovedSections(image.sections, 0, base, d, a, a')
    ensures |a| == |a'| == |image.sections|
    ensures forall i :: 0 <= i < |a| ==> if Placed(image.sections[i]) then a'[i] == a[i] + d else a[i] == a'[i] == 0
  {
    hide Placed;
    forall i | 0 <= i < |a| ensures if Placed(image.sections[i]) then a'[i] == a[i] + d else a[i] == a'[i] == 0 {
      assert image.sections[0 + i] == image.sections[i];
    }
  }

  lemma EmptyMoved(d: nat)
    ensures Moved([], [], d) && SameBytes([], []) && forall cursor: int :: Below([], cursor)
  {
  }

  lemma NothingPatched(m: Regions, m': Regions, d: nat)
    ensures MovedPatches([], d) == [] && ApplyPatches(m, []) == Some(m) && ApplyPatches(m', []) == Some(m')
  {
  }

  // ----- the words of the moved image -----

  /** Every patch is at the address or does not touch the word there. */
  predicate Clear(ps: seq<Patch>, a: int) {
    forall i :: 0 <= i < |ps| ==> ps[i].address == a || ps[i].address + 4 <= a || a + 4 <= ps[i].address
  }

  /** How many section addresses were added to the word. */
  function SectionPatches(ps: seq<Patch>, a: int): nat {
    if |ps| == 0 then 0
    else
      var p := ps[|ps| - 1];
      SectionPatches(ps[..|ps| - 1], a) + (if p.address == a && p.fromSection then 1 else 0)
  }

  function WordAt(mem: Regions, a: int): Option<u32> {
    var b := Peek(mem, a, 4);
    if b.None? then None else Some(Word(b.value))
  }

  lemma WordAfterAdd(mem: Regions, p: u32, v: u32, a: int)
    requires Valid(mem) && AddWord(mem, p, v).Some? && (p == a || p + 4 <= a || a + 4 <= p)
    ensures Valid(AddWord(mem, p, v).value) && SameLayout(mem, AddWord(mem, p, v).value)
    ensures var w, w' := WordAt(mem, a), WordAt(AddWord(mem, p, v).value, a);
            w.Some? == w'.Some? && (w.Some? ==> w'.value == if p == a then Wrap32(w.value + v) else w.value)
  {
    hide Valid, Peek, Poke, Word;
    var b := Peek(mem, p, 4);
    assert |b.value| == 4 by { PeekLength(mem, p, 4); }
    var x := WordBytes(Wrap32(Word(b.value) + v));
    PokeIsFlat(mem, p, x);
    if p == a { ReadAfterWrite(mem, p, x); } else { WriteFrame(mem, p, x, a, 4); }
  }

  lemma MappedDoesNotWrap(mem: Regions, mem': Regions, d: nat, a: u32)
    requires Moved(mem, mem', d) && Peek(mem, a, 4).Some?
    ensures Shifted(a, d) == a + d
  {
    var i := Find(mem, a, 4);
    assert MovedRegion(mem[i], mem'[i], d);
  }

  lemma SameWordsAtFirst(m0: Regions, m0': Regions, d: nat, a: u32)
    requires Moved(m0, m0', d) && SameBytes(m0, m0') && d < 0x1_0000_0000
    ensures WordAt(m0', Shifted(a, d)) == WordAt(m0, a)
  {
    hide Word;
    FindMoved(m0, m0', d, a, 4);
    var i := Find(m0, a, 4);
    if i != -1 {
      MappedDoesNotWrap(m0, m0', d, a);
      assert MovedRegion(m0[i], m0'[i], d);
    }
  }

  /** Both words exist and the second is larger by x, or neither exists. */
  predicate WordMoved(w: Option<u32>, w': Option<u32>, x: int) {
    w.Some? == w'.Some? && (w.Some? ==> w'.value == Wrap32(w.value + x))
  }

  /** The patched memories of two related runs, and what a word in them went through. */
  lemma {:induction false} PatchedWords(m0: Regions, m0': Regions, d: nat, ps: seq<Patch>, a: u32)
    requires Moved(m0, m0', d) && SameBytes(m0, m0') && d < 0x1_0000_0000 && Clear(ps, a)
    requires ApplyPatches(m0, ps).Some? && ApplyPatches(m0', MovedPatches(ps, d)).Some?
    ensures Moved(ApplyPatches(m0, ps).value, ApplyPatches(m0', MovedPatches(ps, d)).value, d)
    ensures WordMoved(WordAt(ApplyPatches(m0, ps).value, a),
            WordAt(ApplyPatches(m0', MovedPatches(ps, d)).value, Shifted(a, d)),
                      d * SectionPatches(ps, a))
    decreases |ps|
  {
    hide Moved, SameBytes, AddWord, WordAt, Shifted, WordMoved, MovedPatch;
    if |ps| == 0 {
      SameWordsAtFirst(m0, m0', d, a);
      SameWordMoved(WordAt(m0, a));
    } else {
      var n := |ps| - 1;
      var qs, p := ps[..n], ps[n];
      assert qs + [p] == ps;
      PatchAppended(m0, qs, p, d);
      PatchAppended(m0', MovedPatches(qs, d), MovedPatch(p, d), d);
      PatchedWords(m0, m0', d, qs, a);
      hide ApplyPatches, MovedPatches, Clear;
      assert MovedPatch(p, d).address == Shifted(p.address, d) by { MovedPatchAddress(p, d); }
      WordStep(ApplyPatches(m0, qs).value, ApplyPatches(m0', MovedPatches(qs, d)).value, d, p, a,
          d * SectionPatches(qs, a));
      assert d * (SectionPatches(qs, a) + 1) == d * SectionPatches(qs, a) + d;
    }
  }

  lemma MovedPatchAddress(p: Patch, d: nat)
    ensures MovedPatch(p, d).address == Shifted(p.address, d)
  {
  }

  lemma SameWordMoved(w: Option<u32>)
    ensures WordMoved(w, w, 0)
  {
  }

  lemma WordStep(mem: Regions, mem': Regions, d: nat, p: Patch, a: u32, x: int)
    requires Moved(mem, mem', d) && d < 0x1_0000_0000
    requires p.address == a || p.address + 4 <= a || a + 4 <= p.address
    requires AddWord(mem, p.address, p.addend).Some?
            && AddWord(mem', Shifted(p.address, d), MovedPatch(p, d).addend).Some?
    requires WordMoved(WordAt(mem, a), WordAt(mem', Shifted(a, d)), x)
    ensures Moved(AddWord(mem, p.address, p.addend).value,
            AddWord(mem', Shifted(p.address, d), MovedPatch(p, d).addend).value, d)
    ensures WordMoved(WordAt(AddWord(mem, p.address, p.addend).value, a),
                      WordAt(AddWord(mem', Shifted(p.address, d), MovedPatch(p, d).addend).value, Shifted(a, d)),
                      x + (if p.address == a && p.fromSection then d else 0))
  {
    hide *;
    var v', at', a' := MovedPatch(p, d).addend, Shifted(p.address, d), Shifted(a, d);
    AddWordMoved(mem, mem', d, p.address, p.addend, v');
    MovedIsValid(mem, mem', d);
    NoWrapOfPatch(mem, mem', d, p.address, p.addend);
    var dx := if p.address == a && p.fromSection then d else 0;
    if WordAt(mem, a).Some? {
      NoWrapOfWord(mem, mem', d, a);
      AddendMoved(WordAt(mem, a).value, p, d, x);
      BothAdd(mem, p.address, p.addend, a, mem', at', v', a', x, dx);
    } else {
      NeitherThere(mem, p.address, p.addend, a, mem', at', v', a', x, dx);
    }
  }

  lemma MovedIsValid(mem: Regions, mem': Regions, d: nat)
    requires Moved(mem, mem', d)
    ensures Valid(mem) && Valid(mem')
  {
  }

  lemma AddendMoved(w: u32, p: Patch, d: nat, x: int)
    ensures Wrap32(Wrap32(w + x) + MovedPatch(p, d).addend)
            == Wrap32(Wrap32(w + p.addend) + (x + (if p.fromSection then d else 0)))
  {
    AddedAlike(w, p.addend, d, x);
    hide Wrap32;
  }

  lemma BothAdd(mem: Regions, at: u32, v: u32, a: u32, mem': Regions, at': u32, v': u32, a': u32, x: int, dx: int)
    requires Valid(mem) && Valid(mem') && AddWord(mem, at, v).Some? && AddWord(mem', at', v').Some?
    requires at == a || at + 4 <= a || a + 4 <= at
    requires if at == a then at' == a' else at' + 4 <= a' || a' + 4 <= at'
    requires WordAt(mem, a).Some? && WordMoved(WordAt(mem, a), WordAt(mem', a'), x)
    requires if at == a then Wrap32(Wrap32(WordAt(mem, a).value + x) + v')
            == Wrap32(Wrap32(WordAt(mem, a).value + v) + (x + dx)) else dx == 0
    ensures WordMoved(WordAt(AddWord(mem, at, v).value, a), WordAt(AddWord(mem', at', v').value, a'), x + dx)
  {
    hide Valid, AddWord, WordAt, SameLayout, Wrap32;
    WordAfterAdd(mem, at, v, a);
    WordAfterAdd(mem', at', v', a');
  }

  lemma NeitherThere(mem: Regions, at: u32, v: u32, a: u32, mem': Regions, at': u32, v': u32, a': u32, x: int, dx: int)
    requires Valid(mem) && Valid(mem') && AddWord(mem, at, v).Some? && AddWord(mem', at', v').Some?
    requires WordAt(mem, a).None? && WordMoved(WordAt(mem, a), WordAt(mem', a'), x)
    ensures WordMoved(WordAt(AddWord(mem, at, v).value, a), WordAt(AddWord(mem', at', v').value, a'), x + dx)
  {
    hide Valid, AddWord, WordAt;
    SameDomain(mem, at, v, a);
    SameDomain(mem', at', v', a');
  }

  lemma NoWrapOfPatch(mem: Regions, mem': Regions, d: nat, at: u32, v: u32)
    requires Moved(mem, mem', d) && AddWord(mem, at, v).Some?
    ensures Shifted(at, d) == at + d
  {
    hide Moved;
    MappedDoesNotWrap(mem, mem', d, at);
  }

  lemma NoWrapOfWord(mem: Regions, mem': Regions, d: nat, a: u32)
    requires Moved(mem, mem', d) && WordAt(mem, a).Some?
    ensures Shifted(a, d) == a + d
  {
    hide Moved;
    MappedDoesNotWrap(mem, mem', d, a);
  }

  lemma SameDomain(mem: Regions, p: u32, v: u32, a: int)
    requires Valid(mem) && AddWord(mem, p, v).Some?
    ensures WordAt(AddWord(mem, p, v).value, a).Some? == WordAt(mem, a).Some?
  {
    hide Valid, Word, WordBytes;
    PeekLength(mem, p, 4);
    PokeIsFlat(mem, p, WordBytes(Wrap32(Word(Peek(mem, p, 4).value) + v)));
    LayoutFind(mem, AddWord(mem, p, v).value, a, 4);
  }

  lemma WrapSum(a: int, b: int)
    ensures Wrap32(Wrap32(a) + Wrap32(b)) == Wrap32(a + b)
    ensures Wrap32(Wrap32(a) + b) == Wrap32(a + b)
  {
  }

  lemma AddedAlike(w: u32, v: u32, d: nat, x: int)
    ensures Wrap32(Wrap32(w + x) + v) == Wrap32(Wrap32(w + v) + x)
    ensures Wrap32(Wrap32(w + x) + Wrap32(v + d)) == Wrap32(Wrap32(w + v) + (x + d))
  {
    hide Wrap32;
    WrapSum(w + x, v);
    WrapSum(w + v, x);
    WrapSum(w + x, v + d);
    WrapSum(w + v, x + d);
  }

  /**
    Word by word: a word of the loaded image that no patch overlaps in part is,
    d further up, larger by d for every section address added to it and
    otherwise the same. In particular words patched with imports only, and
    words not patched at all, are the same.
   */
  lemma RebasedWords(image: Image, base: u32, d: nat, a: u32)
    requires Parsed(image) && Rebasable(image, base, d)
    requires Clear(Load(image, [], base).state.patches, a)
    ensures var r, r' := Load(image, [], base).state, Load(image, [], base + d).state;
            WordMoved(WordAt(r.mem, a), WordAt(r'.mem, Shifted(a, d)), d * SectionPatches(r.patches, a))
  {
    hide WordMoved, Load, Moved, SameBytes, ApplyPatches, MovedPatches, WordAt, Fits, Multiple, Placed;
    RebaseLaw(image, base, d);
    var r, r' := Load(image, [], base).state, Load(image, [], base + d).state;
    var m0: Regions, m0': Regions :| Moved(m0, m0', d) && SameBytes(m0, m0')
      && ApplyPatches(m0, r.patches) == Some(r.mem) && ApplyPatches(m0', r'.patches) == Some(r'.mem);
    PatchedWords(m0, m0', d, r.patches, a);
  }
}
