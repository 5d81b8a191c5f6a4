/**
  Loading a parsed PEF container: placing the sections, running the
  relocation streams, moving exports and entry points (src/PefLoader.cpp).
 */
module PefLoading {
  import opened Words
  import opened Attempts
  import opened Numbers
  import opened MemoryModel
  import opened MemoryMapping
  import opened PefRelocation
  import PatternData
  import PatternUnpacker

  /** A section header and the container bytes it names. */
  datatype Section = Section(kind: u8, totalLength: u32, unpackedLength: u32, alignmentPower: u8, data: seq<u8>)

  /** Relocations of one section. */
  datatype Relocs = Relocs(section: nat, chunks: seq<u16>)

  /** An exported symbol; absolute and re-exported ones name no section. */
  datatype Export = Export(section: nat, value: u32)
  datatype Entry = Entry(section: int, offset: u32)

  datatype Image = Image(sections: seq<Section>, imports: seq<Option<u32>>, relocs: seq<Relocs>, exports: seq<Export>,
      entries: seq<Entry>)

  /** What the parser checked. */
  predicate Parsed(image: Image) {
    && (forall i :: 0 <= i < |image.sections| ==> image.sections[i].unpackedLength <= image.sections[i].totalLength)
    && (forall i :: 0 <= i < |image.relocs| ==> image.relocs[i].section < |image.sections|)
  }

  predicate Placed(h: Section) {
    (h.kind == 0 || h.kind == 1 || h.kind == 2 || h.kind == 3 || h.kind == 6) && h.totalLength != 0
  }

  function SectionPerms(kind: u8): Perms {
    Perms(true, kind == 1 || kind == 2 || kind == 6, kind == 0 || kind == 6)
  }

  function AlignUp(v: u32, alignment: nat): u32 {
    if alignment <= 1 then v else Wrap32(RoundUp(v, alignment))
  }

  /** The bytes a section starts with: unpacked pattern data, or what the container holds of it. */
  function Contents(h: Section): (c: Option<seq<u8>>)
    ensures c.Some? ==> |c.value| <= h.unpackedLength
  {
    if h.kind == 2 then
      PatternData.DecodableExactlyWhenEncoded(h.data, h.unpackedLength);
      PatternData.Decoded(h.data, h.unpackedLength)
    else Some(h.data[..if |h.data| < h.unpackedLength then |h.data| else h.unpackedLength])
  }

  function Decimal(n: nat): string {
    if n < 10 then ["0123456789"[n]] else Decimal(n / 10) + ["0123456789"[n % 10]]
  }

  function KindName(kind: u8): string {
    if kind == 0 then "code" else if kind == 1 then "unpacked-data" else if kind == 2 then "pattern-data"
    else if kind == 3 then "constant" else if kind == 6 then "executable-data" else "unknown"
  }

  function RegionName(i: nat, kind: u8): string {
    "pef:section[" + Decimal(i) + "]:" + KindName(kind)
  }

  /** On failure the region may be mapped already, still filled with zeros. */
  function PlaceSection(mem: Regions, h: Section, name: string, at: u32): Attempt<Regions> {
    if at + h.totalLength > 0x1_0000_0000 then Failed(mem)
    else
      var m := MapRegion(mem, Request(at, h.totalLength, SectionPerms(h.kind), name));
      if m.None? then Failed(mem)
      else if Contents(h).None? then Failed(m.value)
      else if Contents(h).value == [] then Done(m.value)
      else
        var p := Poke(m.value, at, Contents(h).value);
        if p.None? then Failed(m.value) else Done(p.value)
  }

  /** The addresses of the sections placed, 0 for those that are not instantiated, and the memory that holds them. */
  datatype Layout = Layout(sections: seq<u32>, mem: Regions)

  /** The layout of the sections from the i-th on; on failure, of those before the one that failed. */
  function MapSections(hs: seq<Section>, i: nat, mem: Regions, cursor: u32): (r: Attempt<Layout>)
    requires i <= |hs|
    ensures r.Done? ==> |r.state.sections| == |hs| - i
    decreases |hs| - i
  {
    if i == |hs| then Done(Layout([], mem))
    else if !Placed(hs[i]) then Prefixed([0], MapSections(hs, i + 1, mem, cursor))
    else if hs[i].alignmentPower >= 31 then Failed(Layout([], mem))
    else
      var at := AlignUp(cursor, Pow2(hs[i].alignmentPower));
      var m := PlaceSection(mem, hs[i], RegionName(i, hs[i].kind), at);
      if m.Failed? then Failed(Layout([], m.state))
      else Prefixed([at], MapSections(hs, i + 1, m.state, Wrap32(at + hs[i].totalLength)))
  }

  function Prefixed(done: seq<u32>, rest: Attempt<Layout>): Attempt<Layout> {
    Tried(rest.Done?, Layout(done + rest.state.sections, rest.state.mem))
  }

  function AddressOr0(sections: seq<u32>, i: nat): u32 {
    if i < |sections| then sections[i] else 0
  }

  /** One relocation stream, from the start of its section. */
  function RelocateSection(env: Env, s: State, r: Relocs): Attempt<State>
    requires r.section < |env.sections|
  {
    var base := env.sections[r.section];
    if base == 0 then Failed(s)
    else Exec(env, r.chunks, 0, State(s.mem, base, base, AddressOr0(env.sections, 0), AddressOr0(env.sections, 1), 0,
        s.patches), true)
  }

  function RelocateAll(env: Env, s: State, rs: seq<Relocs>): Attempt<State>
    requires forall i :: 0 <= i < |rs| ==> rs[i].section < |env.sections|
    decreases |rs|
  {
    if |rs| == 0 then Done(s)
    else
      var r := RelocateSection(env, s, rs[0]);
      if r.Failed? then r else RelocateAll(env, r.state, rs[1..])
  }

  function ExportValue(sections: seq<u32>, e: Export): u32 {
    if e.section < |sections| && sections[e.section] != 0 then Wrap32(sections[e.section] + e.value) else e.value
  }

  function EntryAddress(hs: seq<Section>, sections: seq<u32>, e: Entry): Option<u32>
    requires |hs| == |sections|
  {
    if e.section < 0 then Some(0)
    else if e.section >= |sections| || sections[e.section] == 0 || e.offset >= hs[e.section].totalLength then None
    else Some(Wrap32(sections[e.section] + e.offset))
  }

  /** The entries in order, up to the first that lies in no section. */
  function EntryAddresses(hs: seq<Section>, sections: seq<u32>, es: seq<Entry>): (r: Attempt<seq<u32>>)
    requires |hs| == |sections|
    ensures |r.state| <= |es| && forall i ::
              0 <= i < |r.state| ==> EntryAddress(hs, sections, es[i]) == Some(r.state[i])
    ensures r.Done? ==> |r.state| == |es|
    ensures r.Failed? ==> |r.state| < |es| && EntryAddress(hs, sections, es[|r.state|]).None?
  {
    if |es| == 0 then Done([])
    else
      var a := EntryAddress(hs, sections, es[0]);
      if a.None? then Failed([])
      else
        var rest := EntryAddresses(hs, sections, es[1..]);
        Tried(rest.Done?, [a.value] + rest.state)
  }

  datatype Loaded = Loaded(sections: seq<u32>, mem: Regions, patches: seq<Patch>, exports: seq<u32>, entries: seq<u32>)

  /** A load that fails leaves the regions mapped and the words patched so far. */
  function Load(image: Image, mem: Regions, base: u32): Attempt<Loaded>
    requires Parsed(image)
  {
    var placed := MapSections(image.sections, 0, mem, base);
    if placed.Failed? then Failed(Loaded(placed.state.sections, placed.state.mem, [], [], []))
    else
      var sections := placed.state.sections;
      var r := RelocateAll(Env(sections, image.imports), State(placed.state.mem, 0, 0, 0, 0, 0, []), image.relocs);
      if r.Failed? then Failed(Loaded(sections, r.state.mem, r.state.patches, [], []))
      else
        var entries := EntryAddresses(image.sections, sections, image.entries);
        Tried(entries.Done?, Loaded(sections, r.state.mem, r.state.patches, ExportValues(sections, image.exports),
            entries.state))
  }

  function ExportValues(sections: seq<u32>, exports: seq<Export>): seq<u32> {
    seq(|exports|, i requires 0 <= i < |exports| => ExportValue(sections, exports[i]))
  }

  // ----- the loader's loops -----

  method PlaceOne(memory: Memory, h: Section, name: string, at: u32) returns (ok: bool)
    requires Valid(memory.regions) && h.unpackedLength <= h.totalLength
    modifies memory
    ensures Tried(ok, memory.regions) == PlaceSection(old(memory.regions), h, name, at)
    ensures Valid(memory.regions)
  {
    hide Valid, Accepts, SortByBase, Peek, Poke, PatternData.Decoded;
    if at + h.totalLength > 0x1_0000_0000 { return false; }
    ok := memory.Map(at, h.totalLength, SectionPerms(h.kind), name);
    if !ok { return false; }
    var bytes;
    if h.kind == 2 {
      ok, bytes := PatternUnpacker.UnpackPattern(h.data, h.unpackedLength);
      if !ok { return false; }
    } else {
      bytes := h.data[..if |h.data| < h.unpackedLength then |h.data| else h.unpackedLength];
    }
    if |bytes| != 0 {
      ghost var mapped := memory.regions;
      ok := memory.DirectWrite(at, bytes);
      if ok { PokeIsFlat(mapped, at, bytes); }
    }
  }

  method MapAllSections(memory: Memory, hs: seq<Section>, imageBase: u32) returns (ok: bool, sections: seq<u32>)
    requires Valid(memory.regions)
    requires forall i :: 0 <= i < |hs| ==> hs[i].unpackedLength <= hs[i].totalLength
    modifies memory
    ensures Tried(ok, Layout(sections, memory.regions)) == MapSections(hs, 0, old(memory.regions), imageBase)
    ensures Valid(memory.regions)
  {
    hide PlaceSection, Valid, AlignUp, Placed;
    var cursor := imageBase;
    sections := [];
    ghost var whole := MapSections(hs, 0, memory.regions, imageBase);
    PrefixedNothing(whole);
    for i := 0 to |hs|
      invariant Valid(memory.regions)
      invariant whole == Prefixed(sections, MapSections(hs, i, memory.regions, cursor))
    {
      if !Placed(hs[i]) {
        PrefixedNext(sections, 0, MapSections(hs, i + 1, memory.regions, cursor));
        sections := sections + [0];
        continue;
      }
      if hs[i].alignmentPower >= 31 {
        assert sections + [] == sections;
        return false, sections;
      }
      var at := AlignUp(cursor, Pow2(hs[i].alignmentPower));
      ok := PlaceOne(memory, hs[i], RegionName(i, hs[i].kind), at);
      if !ok {
        assert sections + [] == sections;
        return false, sections;
      }
      cursor := Wrap32(at + hs[i].totalLength);
      PrefixedNext(sections, at, MapSections(hs, i + 1, memory.regions, cursor));
      sections := sections + [at];
    }
    assert sections + [] == sections;
    return true, sections;
  }

  lemma PrefixedNothing(r: Attempt<Layout>)
    ensures Prefixed([], r) == r
  {
    assert [] + r.state.sections == r.state.sections;
  }

  lemma PrefixedNext(done: seq<u32>, a: u32, rest: Attempt<Layout>)
    ensures Prefixed(done, Prefixed([a], rest)) == Prefixed(done + [a], rest)
  {
    assert done + ([a] + rest.state.sections) == done + [a] + rest.state.sections;
  }

  method ApplyRelocations(memory: Memory, env: Env, rs: seq<Relocs>) returns (ok: bool, ghost patches: seq<Patch>)
    requires forall i :: 0 <= i < |rs| ==> rs[i].section < |env.sections|
    modifies memory
    ensures var r := RelocateAll(env, State(old(memory.regions), 0, 0, 0, 0, 0, []), rs);
            ok == r.Done? && r.state.mem == memory.regions && r.state.patches == patches
  {
    hide Exec;
    patches := [];
    ghost var s := State(memory.regions, 0, 0, 0, 0, 0, []);
    ghost var whole := RelocateAll(env, s, rs);
    for i := 0 to |rs|
      invariant s.mem == memory.regions && s.patches == patches
      invariant whole == RelocateAll(env, s, rs[i..])
    {
      assert rs[i..][0] == rs[i] && rs[i..][1..] == rs[i + 1..];
      var base := env.sections[rs[i].section];
      if base == 0 { return false, patches; }
      var machine := new RelocInterpreter(memory, env, base, AddressOr0(env.sections, 0), AddressOr0(env.sections, 1));
      machine.patches := patches;
      assert rs[i].chunks[0..|rs[i].chunks|] == rs[i].chunks;
      ok := machine.Execute(rs[i].chunks, 0, |rs[i].chunks|, true);
      s := machine.Now();
      patches := machine.patches;
      if !ok { return false, patches; }
    }
    return true, patches;
  }

  /** Section-relative exports get their section's address added; the others keep their raw value. */
  method RelocateExports(sections: seq<u32>, exports: seq<Export>) returns (values: seq<u32>)
    ensures values == ExportValues(sections, exports)
  {
    values := [];
    for i := 0 to |exports|
      invariant |values| == i
      invariant forall k :: 0 <= k < i ==> values[k] == ExportValue(sections, exports[k])
    {
      var e := exports[i];
      var value := e.value;
      if e.section < |sections| && sections[e.section] != 0 { value := Wrap32(sections[e.section] as int + value); }
      values := values + [value];
    }
  }

  function Behind(found: seq<u32>, rest: Attempt<seq<u32>>): Attempt<seq<u32>> {
    Tried(rest.Done?, found + rest.state)
  }

  /** One more entry found, or none there. */
  lemma NextEntry(hs: seq<Section>, sections: seq<u32>, es: seq<Entry>, i: nat, found: seq<u32>)
    requires |hs| == |sections| && i <= |es|
    ensures i == |es| ==> Behind(found, EntryAddresses(hs, sections, es[i..])) == Done(found)
    ensures i < |es| ==>
              var a := EntryAddress(hs, sections, es[i]);
              Behind(found, EntryAddresses(hs, sections, es[i..]))
              == if a.None? then Failed(found) else Behind(found + [a.value], EntryAddresses(hs, sections, es[i + 1..]))
  {
    hide EntryAddress;
    assert found + [] == found;
    if i < |es| {
      assert es[i..][0] == es[i] && es[i..][1..] == es[i + 1..];
      var a, rest := EntryAddress(hs, sections, es[i]), EntryAddresses(hs, sections, es[i + 1..]);
      if a.Some? { assert found + ([a.value] + rest.state) == found + [a.value] + rest.state; }
    }
  }

  /** The main, init and term entries, in that order. */
  method DiscoverEntries(hs: seq<Section>, sections: seq<u32>, es: seq<Entry>) returns (ok: bool, entries: seq<u32>)
    requires |hs| == |sections|
    ensures Tried(ok, entries) == EntryAddresses(hs, sections, es)
  {
    hide EntryAddress, EntryAddresses, Behind;
    entries := [];
    NothingFound(EntryAddresses(hs, sections, es));
    assert es[0..] == es;
    for i := 0 to |es|
      invariant Behind(entries, EntryAddresses(hs, sections, es[i..])) == EntryAddresses(hs, sections, es)
    {
      NextEntry(hs, sections, es, i, entries);
      var a := EntryAddress(hs, sections, es[i]);
      if a.None? { return false, entries; }
      entries := entries + [a.value];
    }
    NextEntry(hs, sections, es, |es|, entries);
    return true, entries;
  }

  lemma NothingFound(r: Attempt<seq<u32>>)
    ensures Behind([], r) == r
  {
    assert [] + r.state == r.state;
  }

  method LoadImage(memory: Memory, image: Image, imageBase: u32)
    returns (ok: bool, sections: seq<u32>, exports: seq<u32>, entries: seq<u32>, ghost patches: seq<Patch>)
    requires Parsed(image) && Valid(memory.regions)
    modifies memory
    ensures Tried(ok, Loaded(sections, memory.regions, patches, exports, entries))
            == Load(image, old(memory.regions), imageBase)
  {
    hide Valid, MapSections, RelocateAll, EntryAddresses, ExportValues;
    sections, exports, entries, patches := [], [], [], [];
    ok, sections := MapAllSections(memory, image.sections, imageBase);
    if !ok { return; }
    ok, patches := ApplyRelocations(memory, Env(sections, image.imports), image.relocs);
    if !ok { return; }
    exports := RelocateExports(sections, image.exports);
    ok, entries := DiscoverEntries(image.sections, sections, image.entries);
  }
}
