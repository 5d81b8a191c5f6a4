/**
  Where the sections of a PEF image are put and what is there afterwards, and
  the state in which their relocation streams start (src/PefLoader.cpp).
 */
module PefLayout {
  import opened Words
  import opened Numbers
  import opened Attempts
  import opened MemoryModel
  import opened MemoryMapping
  import opened PefRelocation
  import opened PefLoading
  import opened PefWords
  import opened PefChunks

  // ----- one section -----

  /** Code (0), unpacked data (1), pattern data (2), constants (3) and executable data (6) can be instantiated. */
  predicate Instantiated(h: Section) { h.kind in {0, 1, 2, 3, 6} && h.totalLength > 0 }

  /** All can be read; data can be written, and code and executable data executed. */
  predicate Permits(kind: u8, p: Perms) {
    p.read && (p.write <==> kind in {1, 2, 6}) && (p.execute <==> kind in {0, 6})
  }

  /** The first multiple of 2^power from the given address on, modulo 2^32. */
  ghost predicate FirstAligned(from: u32, power: nat, at: u32) {
    exists t: nat :: Aligns(from, power, t) && at == t % 0x1_0000_0000
  }

  predicate Aligns(from: nat, power: nat, t: nat) { from <= t < from + Pow2(power) && t % Pow2(power) == 0 }

  lemma AlignUpIsFirst(from: u32, power: nat)
    ensures FirstAligned(from, power, AlignUp(from, Pow2(power)))
  {
    var p := Pow2(power);
    var t := if p <= 1 then from else RoundUp(from, p);
    hide Pow2;
    assert Aligns(from, power, t) by { if p > 1 { RoundsUp(from, p); } }
  }

  lemma RoundsUp(v: nat, p: nat)
    requires p >= 1
    ensures v <= RoundUp(v, p) < v + p && RoundUp(v, p) % p == 0
  {
    var q := (v + p - 1) / p;
    DivUnique(q * p, p, q, 0);
  }

  /** Byte k of a section: of the unpacked pattern data, or of what the container holds, and zero after that. */
  predicate HoldsByte(h: Section, k: nat, b: u8) {
    if h.kind == 2 then
      var d := PatternData.Decoded(h.data, h.unpackedLength);
      d.Some? && b == if k < |d.value| then d.value[k] else 0
    else b == if k < h.unpackedLength && k < |h.data| then h.data[k] else 0
  }

  /** The first bytes are those and the rest zeros. */
  predicate StartsAs(c: seq<u8>, k: nat, b: u8) { b == if k < |c| then c[k] else 0 }

  lemma ContentsAre(h: Section, k: nat, b: u8)
    requires Contents(h).Some? && StartsAs(Contents(h).value, k, b)
    ensures HoldsByte(h, k, b)
  {
    hide PatternData.Decoded;
  }

  /** An address in a section holds the section's byte, with the section's permissions, in a region of its own. */
  predicate InSection(mem: Regions, h: Section, at: u32, a: int) {
    var cell := At(mem, a);
    at <= a && cell.Cell? && HoldsByte(h, a - at, cell.byte) && Permits(h.kind, cell.perms) && cell.base == at
  }

  /** Addresses of the section were free and are the section's now; all others are as before. */
  predicate PlacedByte(mem: Regions, mem': Regions, h: Section, at: u32, a: int) {
    if at <= a < at + h.totalLength then At(mem, a) == Unmapped && InSection(mem', h, at, a)
    else At(mem', a) == At(mem, a)
  }

  lemma PlacedIs(mem: Regions, h: Section, name: string, at: u32)
    requires PlaceSection(mem, h, name, at).Done?
    ensures at + h.totalLength <= 0x1_0000_0000 && Contents(h).Some?
    ensures var m, c := MapRegion(mem, Request(at, h.totalLength, SectionPerms(h.kind), name)), Contents(h).value;
            && m.Some?
            && if c == [] then PlaceSection(mem, h, name, at).state == m.value
               else Poke(m.value, at, c) == Some(PlaceSection(mem, h, name, at).state)
  {
    hide MapRegion, Contents, Poke, SectionPerms;
  }

  lemma OneByte(mem: Regions, h: Section, name: string, at: u32, a: int)
    requires Valid(mem) && h.totalLength > 0 && h.unpackedLength <= h.totalLength
    requires PlaceSection(mem, h, name, at).Done?
    ensures PlacedByte(mem, PlaceSection(mem, h, name, at).state, h, at, a)
  {
    hide PlaceSection, MapRegion, Contents, Poke, At, Valid, HoldsByte;
    var q := Request(at, h.totalLength, SectionPerms(h.kind), name);
    var mem' := PlaceSection(mem, h, name, at).state;
    PlacedIs(mem, h, name, at);
    var m, c := MapRegion(mem, q).value, Contents(h).value;
    MapKeepsValid(mem, q);
    MapIsFlat(mem, q, a);
    if c != [] { PokedCell(m, at, c, a); }
    if at <= a < at + h.totalLength {
      WasUnmapped(mem, q, a);
      ContentsAre(h, a - at, At(mem', a).byte);
    }
  }

  lemma PlacedBytes(mem: Regions, h: Section, name: string, at: u32)
    requires Valid(mem) && h.totalLength > 0 && h.unpackedLength <= h.totalLength
    requires PlaceSection(mem, h, name, at).Done?
    ensures var mem' := PlaceSection(mem, h, name, at).state;
            Valid(mem') && at + h.totalLength <= 0x1_0000_0000 && forall a :: PlacedByte(mem, mem', h, at, a)
  {
    hide PlaceSection, MapRegion, Contents, Poke, Valid, PlacedByte;
    var q := Request(at, h.totalLength, SectionPerms(h.kind), name);
    PlacedIs(mem, h, name, at);
    MapKeepsValid(mem, q);
    if Contents(h).value != [] { PokeKeepsLayout(MapRegion(mem, q).value, at, Contents(h).value); }
    forall a ensures PlacedByte(mem, PlaceSection(mem, h, name, at).state, h, at, a) {
      OneByte(mem, h, name, at, a);
    }
  }

  lemma WasUnmapped(mem: Regions, q: Request, a: int)
    requires MapRegion(mem, q).Some? && q.base <= a < q.End()
    ensures At(mem, a) == Unmapped
  {
    assert forall i :: 0 <= i < |mem| ==> MemoryMapping.Apart(mem[i], q);
  }

  lemma OverlapIsMapped(mem: Regions, q: Request)
    requires Valid(mem) && q.size > 0 && q.End() <= 0x1_0000_0000 && !Accepts(mem, q)
    ensures exists a :: q.base <= a < q.End() && At(mem, a) != Unmapped
  {
    var i :| 0 <= i < |mem| && !MemoryMapping.Apart(mem[i], q);
    var a := if mem[i].base <= q.base then q.base else mem[i].base;
    AtCovered(mem, a, i);
  }

  lemma FreshRegion(mem: Regions, q: Request)
    requires Valid(mem) && MapRegion(mem, q).Some?
    ensures Find(MapRegion(mem, q).value, q.base, q.size) != -1
  {
    hide MapRegion;
    MapKeepsValid(mem, q);
    var k := Rank(mem, q.base);
    InsertedAt(mem, k, q.Region());
    FindUnique(MapRegion(mem, q).value, q.base, q.size, k);
  }

  /** A section goes to an address exactly when its range ends below 2^32, is free, and its pattern data decodes. */
  lemma PlacesExactly(mem: Regions, h: Section, name: string, at: u32)
    requires Valid(mem) && h.totalLength > 0 && h.unpackedLength <= h.totalLength
    ensures PlaceSection(mem, h, name, at).Done?
       <==> && at + h.totalLength <= 0x1_0000_0000
            && (forall a :: at <= a < at + h.totalLength ==> At(mem, a) == Unmapped)
            && (h.kind == 2 ==> PatternData.Decoded(h.data, h.unpackedLength).Some?)
  {
    var q := Request(at, h.totalLength, SectionPerms(h.kind), name);
    hide At, Valid, PatternData.Decoded, SectionPerms;
    if at + h.totalLength <= 0x1_0000_0000 {
      if !Accepts(mem, q) {
        OverlapIsMapped(mem, q);
      } else {
        forall a | at <= a < q.End() ensures At(mem, a) == Unmapped {
          WasUnmapped(mem, q, a);
        }
        hide Accepts, MapRegion;
        assert MapRegion(mem, q).Some? by { AcceptedMaps(mem, q); }
        MapKeepsValid(mem, q);
        FreshRegion(mem, q);
        if Contents(h).Some? { PokesPrefix(MapRegion(mem, q).value, at, Contents(h).value, h.totalLength); }
      }
    }
  }

  lemma AcceptedMaps(mem: Regions, q: Request)
    requires Accepts(mem, q)
    ensures MapRegion(mem, q).Some?
  {
  }

  lemma PokesPrefix(mem: Regions, at: int, c: seq<u8>, size: nat)
    requires Find(mem, at, size) != -1 && |c| <= size
    ensures Poke(mem, at, c).Some?
  {
    var i := Find(mem, at, size);
    assert mem[i].Covers(at, |c|);
  }

  // ----- all sections -----

  /** Where section i may begin: after the last one placed before it, or at the base of the image. */
  function CursorAt(hs: seq<Section>, sections: seq<u32>, i: nat, start: u32): u32
    requires i <= |hs| && i <= |sections|
  {
    if i == 0 then start
    else if Instantiated(hs[i - 1]) then (sections[i - 1] + hs[i - 1].totalLength) % 0x1_0000_0000
    else CursorAt(hs, sections, i - 1, start)
  }

  /** Section i is at the first address of its alignment from the cursor on, with its bytes and permissions. */
  ghost predicate Lies(hs: seq<Section>, l: Layout, i: nat, start: u32)
    requires i < |hs| && |l.sections| == |hs|
  {
    if !Instantiated(hs[i]) then l.sections[i] == 0
    else
      && FirstAligned(CursorAt(hs, l.sections, i, start), hs[i].alignmentPower, l.sections[i])
      && forall a :: l.sections[i] <= a < l.sections[i] + hs[i].totalLength ==>
           InSection(l.mem, hs[i], l.sections[i], a)
  }

  predicate OccupiedBy(h: Section, at: u32, a: int) { Instantiated(h) && at <= a < at + h.totalLength }

  /** An address lies in one of the sections placed. */
  predicate Occupied(hs: seq<Section>, sections: seq<u32>, a: int)
    requires |sections| == |hs|
  {
    exists i :: 0 <= i < |hs| && OccupiedBy(hs[i], sections[i], a)
  }

  /** The sections lie where they should, in addresses that were free, and everywhere else memory is as before. */
  ghost predicate LaidOut(hs: seq<Section>, mem: Regions, start: u32, l: Layout) {
    && Valid(l.mem) && |l.sections| == |hs|
    && (forall i :: 0 <= i < |hs| ==> Lies(hs, l, i, start))
    && (forall a :: if Occupied(hs, l.sections, a) then At(mem, a) == Unmapped else At(l.mem, a) == At(mem, a))
  }

  lemma {:induction false} CursorAfterFirst(hs: seq<Section>, sections: seq<u32>, h: Section, at: u32, i: nat,
      start: u32)
    requires i <= |hs| && i <= |sections|
    ensures CursorAt([h] + hs, [at] + sections, i + 1, start)
         == CursorAt(hs, sections, i, CursorAt([h] + hs, [at] + sections, 1, start))
  {
    if i > 0 { CursorAfterFirst(hs, sections, h, at, i - 1, start); }
  }

  lemma OccupiedFirst(hs: seq<Section>, sections: seq<u32>, h: Section, at: u32, a: int)
    requires |sections| == |hs|
    ensures Occupied([h] + hs, [at] + sections, a) <==> OccupiedBy(h, at, a) || Occupied(hs, sections, a)
  {
    hide OccupiedBy;
    var hs', ss' := [h] + hs, [at] + sections;
    if OccupiedBy(h, at, a) { assert OccupiedBy(hs'[0], ss'[0], a); }
    if Occupied(hs, sections, a) {
      var i :| 0 <= i < |hs| && OccupiedBy(hs[i], sections[i], a);
      assert OccupiedBy(hs'[i + 1], ss'[i + 1], a);
    }
  }

  /** One more section before a layout: it keeps its bytes, because the others go where memory was free. */
  lemma FirstBefore(hs: seq<Section>, h: Section, at: u32, mem: Regions, m: Regions, start: u32, next: u32, l: Layout)
    requires LaidOut(hs, m, next, l) && next == CursorAt([h] + hs, [at] + l.sections, 1, start)
    requires if Instantiated(h) then
               FirstAligned(start, h.alignmentPower, at) && forall a :: PlacedByte(mem, m, h, at, a)
             else m == mem && at == 0
    ensures LaidOut([h] + hs, mem, start, Layout([at] + l.sections, l.mem))
  {
    var hs', l' := [h] + hs, Layout([at] + l.sections, l.mem);
    hide InSection, Occupied, OccupiedBy, FirstAligned, At, CursorAt, Valid;
    forall a
      ensures if Occupied(hs', l'.sections, a) then At(mem, a) == Unmapped else At(l.mem, a) == At(mem, a)
    {
      OccupiedFirst(hs, l.sections, h, at, a);
      BeforeIs(hs, h, at, mem, m, l, a);
    }
    forall i | 0 <= i < |hs'| ensures Lies(hs', l', i, start) {
      if i > 0 {
        CursorAfterFirst(hs, l.sections, h, at, i - 1, start);
        assert Lies(hs, l, i - 1, next);
      } else if Instantiated(h) {
        FirstStays(hs, h, at, mem, m, l, next);
        assert CursorAt(hs', l'.sections, 0, start) == start by { FirstCursor(hs', l'.sections, start); }
      }
    }
  }

  lemma FirstCursor(hs: seq<Section>, sections: seq<u32>, start: u32)
    ensures CursorAt(hs, sections, 0, start) == start
  {
  }

  lemma BeforeIs(hs: seq<Section>, h: Section, at: u32, mem: Regions, m: Regions, l: Layout, a: int)
    requires |l.sections| == |hs|
    requires if Occupied(hs, l.sections, a) then At(m, a) == Unmapped else At(l.mem, a) == At(m, a)
    requires if Instantiated(h) then PlacedByte(mem, m, h, at, a) else m == mem
    ensures if OccupiedBy(h, at, a) || Occupied(hs, l.sections, a) then At(mem, a) == Unmapped
            else At(l.mem, a) == At(mem, a)
  {
    hide At, Occupied;
  }

  lemma FirstStays(hs: seq<Section>, h: Section, at: u32, mem: Regions, m: Regions, l: Layout, next: u32)
    requires LaidOut(hs, m, next, l) && forall a :: PlacedByte(mem, m, h, at, a)
    ensures forall a :: at <= a < at + h.totalLength ==> InSection(l.mem, h, at, a)
  {
    hide Occupied, At, Lies, Valid, HoldsByte;
    forall a | at <= a < at + h.totalLength ensures InSection(l.mem, h, at, a) {
      assert PlacedByte(mem, m, h, at, a);
      assert At(m, a) != Unmapped;
    }
  }

  /**
    Every instantiated section is at the first address of its alignment after
    the one before it, holds its bytes and zeros with its permissions, and was
    put where memory was free; nothing else in memory changed.
   */
  lemma {:induction false} SectionsLie(hs: seq<Section>, i: nat, mem: Regions, cursor: u32)
    requires Valid(mem) && i <= |hs| && MapSections(hs, i, mem, cursor).Done?
    requires forall j :: 0 <= j < |hs| ==> hs[j].unpackedLength <= hs[j].totalLength
    ensures LaidOut(hs[i..], mem, cursor, MapSections(hs, i, mem, cursor).state)
    decreases |hs| - i
  {
    hide LaidOut, PlaceSection, RegionName, Pow2, FirstAligned, PlacedByte, Valid;
    if i == |hs| {
      assert hs[i..] == [];
      NothingLaid(mem, cursor);
    } else {
      var h, rest := hs[i], hs[i + 1..];
      assert hs[i..] == [h] + rest;
      if Instantiated(h) {
        var at := AlignUp(cursor, Pow2(h.alignmentPower));
        AlignUpIsFirst(cursor, h.alignmentPower);
        var m := PlaceSection(mem, h, RegionName(i, h.kind), at).state;
        PlacedBytes(mem, h, RegionName(i, h.kind), at);
        var next := Wrap32(at + h.totalLength);
        SectionsLie(hs, i + 1, m, next);
        FirstBefore(rest, h, at, mem, m, cursor, next, MapSections(hs, i + 1, m, next).state);
      } else {
        SectionsLie(hs, i + 1, mem, cursor);
        FirstBefore(rest, h, 0, mem, mem, cursor, cursor, MapSections(hs, i + 1, mem, cursor).state);
      }
    }
  }

  lemma NothingLaid(mem: Regions, cursor: u32)
    requires Valid(mem)
    ensures LaidOut([], mem, cursor, Layout([], mem))
  {
  }

  // ----- how a relocation stream starts -----

  function SectionOr0(env: Env, i: nat): u32 { if i < |env.sections| then env.sections[i] else 0 }

  /** The cursor at the start of the section, the first two sections and the first import at hand. */
  function StartState(env: Env, s: State, base: u32): State {
    s.(targetBase := base, address := base, sectionC := SectionOr0(env, 0), sectionD := SectionOr0(env, 1),
       importIndex := 0)
  }

  lemma StreamStarts(env: Env, s: State, r: Relocs)
    requires r.section < |env.sections|
    ensures var base := env.sections[r.section];
            RelocateSection(env, s, r)
            == if base == 0 then Failed(s) else Exec(env, r.chunks, 0, StartState(env, s, base), true)
  {
    hide Exec;
  }

  /** The two words grew by the values, and no other byte changed. */
  ghost predicate GrewBoth(mem: Regions, mem': Regions, p: u32, v: u32, q: u32, w: u32) {
    && Grew(mem, mem', p, v) && Grew(mem, mem', q, w)
    && forall a: int :: Touches(p, a) || Touches(q, a) || At(mem', a) == At(mem, a)
  }

  /** A vector at the start of a stream is at the start of its section, and has the first two sections added. */
  lemma FirstVector(env: Env, s: State, section: nat)
    requires Valid(s.mem) && section < |env.sections|
    ensures var r, base := RelocateSection(env, s, Relocs(section, [0x4400])), env.sections[section];
            && (r.Done? <==> (base != 0 && Mapped(s.mem, base) && Mapped(s.mem, Place(base, 4))))
            && (r.Done? ==>
                GrewBoth(s.mem, r.state.mem, base, SectionOr0(env, 0), Place(base, 4), SectionOr0(env, 1)))
  {
    hide RelocateSection, Exec, Valid, Mapped, PairRun;
    StreamStarts(env, s, Relocs(section, [0x4400]));
    var base := env.sections[section];
    var t := StartState(env, s, base);
    VectorRun12(env, 1, t);
    OneVectorMapped(s.mem, base);
    var r := Run1(env, 0x4400, t);
    if r.Done? { OneVector(t, r.state); }
  }

  lemma OneVectorMapped(mem: Regions, a: u32)
    ensures SpotsMapped(mem, a, 12, 1, 0) <==> Mapped(mem, a)
    ensures SpotsMapped(mem, a, 12, 1, 4) <==> Mapped(mem, Place(a, 4))
  {
    hide Mapped;
    assert Spot(a, 12, 0, 0) == a && Spot(a, 12, 0, 4) == Place(a, 4);
  }

  lemma OneVector(s: State, t: State)
    requires PairRun(s, t, 1, 12)
    ensures GrewBoth(s.mem, t.mem, s.address, s.sectionC, Place(s.address, 4), s.sectionD)
  {
    hide Grew, At, Touches, SameLayout, RegistersKept;
    var v, w := Always(s.sectionC), Always(s.sectionD);
    assert Spot(s.address, 12, 0, 0) == s.address && Spot(s.address, 12, 0, 4) == Place(s.address, 4);
    assert Grew(s.mem, t.mem, Spot(s.address, 12, 0, 0), v(0)) && Grew(s.mem, t.mem, Spot(s.address, 12, 0, 4), w(0));
  }

  /** An import at the start of a stream is the first one. */
  lemma FirstImport(env: Env, s: State, section: nat)
    requires Valid(s.mem) && section < |env.sections| && env.sections[section] != 0
    ensures var r, base := RelocateSection(env, s, Relocs(section, [0x4A00])), env.sections[section];
            && (r.Done? <==> (|env.imports| > 0 && env.imports[0].Some? && Mapped(s.mem, base)))
            && (r.Done? ==> Grew(s.mem, r.state.mem, base, env.imports[0].value))
  {
    hide RelocateSection, Exec, Valid, Mapped, WordRun;
    StreamStarts(env, s, Relocs(section, [0x4A00]));
    var base := env.sections[section];
    var t := StartState(env, s, base);
    ImportRun(env, 1, t);
    OneImport(env, t);
    var r := Run1(env, 0x4A00, t);
    if r.Done? { OneImportGrew(env, t, r.state); }
  }

  lemma OneImport(env: Env, s: State)
    requires s.importIndex == 0
    ensures ImportsResolved(env, s, 1) <==> |env.imports| > 0 && env.imports[0].Some?
    ensures SpotsMapped(s.mem, s.address, 4, 1, 0) <==> Mapped(s.mem, s.address)
  {
    hide Mapped;
    assert Spot(s.address, 4, 0, 0) == s.address;
    assert ImportAt(env, s, 0) == if |env.imports| > 0 then env.imports[0] else None;
  }

  lemma OneImportGrew(env: Env, s: State, t: State)
    requires WordRun(s, t, 1, 4, Imports(env, s)) && s.importIndex == 0 && |env.imports| > 0 && env.imports[0].Some?
    ensures Grew(s.mem, t.mem, s.address, env.imports[0].value)
  {
    hide Grew, At, OnlySpots;
    var v := Imports(env, s);
    assert Spot(s.address, 4, 0, 0) == s.address && ImportAt(env, s, 0) == env.imports[0];
    assert Grew(s.mem, t.mem, Spot(s.address, 4, 0, 0), v(0));
  }

  // ----- exports and entries -----

  /** A value in a section that has an address is counted from it; any other is kept. */
  predicate ExportMoved(sections: seq<u32>, e: Export, value: u32) {
    value == if e.section < |sections| && sections[e.section] > 0 then (sections[e.section] + e.value) % 0x1_0000_0000
             else e.value
  }

  /** No section means no entry; otherwise the entry is inside a section that has an address. */
  predicate EntryFound(hs: seq<Section>, sections: seq<u32>, e: Entry, address: u32)
    requires |hs| == |sections|
  {
    if e.section < 0 then address == 0
    else
      && e.section < |sections| && sections[e.section] > 0 && e.offset < hs[e.section].totalLength
      && address == (sections[e.section] + e.offset) % 0x1_0000_0000
  }

  lemma LoadedSymbols(image: Image, mem: Regions, base: u32)
    requires Parsed(image) && Load(image, mem, base).Done?
    ensures var l := Load(image, mem, base).state;
            && |l.sections| == |image.sections|
            && |l.exports| == |image.exports| && |l.entries| == |image.entries|
            && (forall i :: 0 <= i < |image.exports| ==> ExportMoved(l.sections, image.exports[i], l.exports[i]))
            && forall i :: 0 <= i < |image.entries| ==>
                 EntryFound(image.sections, l.sections, image.entries[i], l.entries[i])
  {
    hide RelocateAll, MapSections;
    var l := Load(image, mem, base).state;
    forall i | 0 <= i < |image.entries|
      ensures EntryFound(image.sections, l.sections, image.entries[i], l.entries[i])
    {
      assert EntryAddress(image.sections, l.sections, image.entries[i]) == Some(l.entries[i]);
    }
  }
}
