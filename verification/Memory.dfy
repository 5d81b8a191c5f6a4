/**
  The address space: disjoint permissioned regions sorted by base, and the
  flat byte map they refine (src/Memory.cpp, include/ppclab/ppc/Memory.hpp).
 */
module MemoryModel {
  import opened Words

  datatype Perms = Perms(read: bool, write: bool, execute: bool)

  datatype Region = Region(base: u32, bytes: seq<u8>, perms: Perms, name: string) {
    function End(): int { base + |bytes| }

    predicate Covers(address: int, size: nat) {
      base <= address && address + size <= End()
    }
  }

  type Regions = seq<Region>

  /** Nonempty regions inside the 32-bit space, sorted by base and disjoint. */
  ghost predicate Valid(rs: Regions) {
    && (forall i :: 0 <= i < |rs| ==> 0 < |rs[i].bytes| && rs[i].End() <= 0x1_0000_0000)
    && (forall i, j :: 0 <= i < j < |rs| ==> rs[i].End() <= rs[j].base)
  }

  /** The first region holding the whole range, or -1. */
  function FindFrom(rs: Regions, address: int, size: nat, k: nat): (i: int)
    requires k <= |rs|
    ensures i == -1 || (k <= i < |rs| && rs[i].Covers(address, size))
    ensures forall j :: k <= j < (if i == -1 then |rs| else i) ==> !rs[j].Covers(address, size)
    decreases |rs| - k
  {
    if k == |rs| then -1
    else if rs[k].Covers(address, size) then k
    else FindFrom(rs, address, size, k + 1)
  }

  function Find(rs: Regions, address: int, size: nat): (i: int)
    ensures i == -1 || (0 <= i < |rs| && rs[i].Covers(address, size))
    ensures forall j :: 0 <= j < (if i == -1 then |rs| else i) ==> !rs[j].Covers(address, size)
  {
    FindFrom(rs, address, size, 0)
  }

  /** With at least one byte asked for, the containing region is unique, so the order of the search does not matter. */
  lemma FindUnique(rs: Regions, address: int, size: nat, i: nat)
    requires Valid(rs) && size >= 1
    requires i < |rs| && rs[i].Covers(address, size)
    ensures Find(rs, address, size) == i
  {
    assert forall j :: 0 <= j < i ==> rs[j].End() <= rs[i].base;
  }

  // ----- reading and writing -----

  /** The bytes of a range held by one region, whatever its permissions. */
  function Peek(rs: Regions, address: int, size: nat): Option<seq<u8>> {
    var i := Find(rs, address, size);
    if i == -1 then None
    else Some(rs[i].bytes[address - rs[i].base..address - rs[i].base + size])
  }

  function Splice(bytes: seq<u8>, at: nat, data: seq<u8>): (r: seq<u8>)
    requires at + |data| <= |bytes|
    ensures |r| == |bytes|
    ensures forall k :: 0 <= k < |r| ==> r[k] == if at <= k < at + |data| then data[k - at] else bytes[k]
  {
    bytes[..at] + data + bytes[at + |data|..]
  }

  /** The regions after overwriting a range held by one region, whatever its permissions. */
  function Poke(rs: Regions, address: int, data: seq<u8>): Option<Regions> {
    var i := Find(rs, address, |data|);
    if i == -1 then None
    else Some(rs[i := rs[i].(bytes := Splice(rs[i].bytes, address - rs[i].base, data))])
  }

  predicate Allows(rs: Regions, address: int, size: nat, need: Perms -> bool) {
    var i := Find(rs, address, size);
    i != -1 && need(rs[i].perms)
  }

  predicate Readable(rs: Regions, address: int, size: nat) { Allows(rs, address, size, (p: Perms) => p.read) }
  predicate Writable(rs: Regions, address: int, size: nat) { Allows(rs, address, size, (p: Perms) => p.write) }
  predicate Executable(rs: Regions, address: int, size: nat) { Allows(rs, address, size, (p: Perms) => p.execute) }

  function ReadBytes(rs: Regions, address: int, size: nat): Option<seq<u8>> {
    if Readable(rs, address, size) then Peek(rs, address, size) else None
  }

  function WriteBytes(rs: Regions, address: int, data: seq<u8>): Option<Regions> {
    if Writable(rs, address, |data|) then Poke(rs, address, data) else None
  }

  // ----- the flat memory -----

  /** What an address holds: its byte, its permissions and the region it lies in. */
  datatype Cell = Unmapped | Cell(byte: u8, perms: Perms, base: u32)

  function At(rs: Regions, address: int): Cell {
    var i := Find(rs, address, 1);
    if i == -1 then Unmapped
    else Cell(rs[i].bytes[address - rs[i].base], rs[i].perms, rs[i].base)
  }

  /** The size addresses from the given one are mapped in one region. */
  predicate OneRegion(rs: Regions, address: int, size: nat) {
    forall k :: address <= k < address + size ==>
        At(rs, k).Cell? && At(rs, address).Cell? && At(rs, k).base == At(rs, address).base
  }

  predicate SameShape(r: Region, r': Region) {
    r' == r.(bytes := r'.bytes) && |r.bytes| == |r'.bytes|
  }

  /** The two memories have the same regions up to the bytes they hold. */
  predicate SameLayout(rs: Regions, rs': Regions) {
    && |rs| == |rs'|
    && forall i :: 0 <= i < |rs| ==> SameShape(rs[i], rs'[i])
  }

  lemma LayoutTransitive(a: Regions, b: Regions, c: Regions)
    requires SameLayout(a, b) && SameLayout(b, c)
    ensures SameLayout(a, c)
  {
    forall i | 0 <= i < |a| ensures SameShape(a[i], c[i]) {
      assert SameShape(a[i], b[i]) && SameShape(b[i], c[i]);
    }
  }

  lemma PeekLength(rs: Regions, address: int, size: nat)
    ensures Peek(rs, address, size).Some? ==> |Peek(rs, address, size).value| == size
    ensures ReadBytes(rs, address, size).Some? ==> |ReadBytes(rs, address, size).value| == size
  {
  }

  lemma PeekPokeTogether(mem: Regions, place: int, data: seq<u8>)
    ensures Peek(mem, place, |data|).Some? == Poke(mem, place, data).Some?
  {
  }

  lemma AtCovered(rs: Regions, address: int, i: nat)
    requires Valid(rs) && i < |rs| && rs[i].Covers(address, 1)
    ensures At(rs, address) == Cell(rs[i].bytes[address - rs[i].base], rs[i].perms, rs[i].base)
  {
    FindUnique(rs, address, 1, i);
  }

  /** A lookup succeeds exactly when the range is mapped and does not cross into a neighbouring region. */
  lemma FindIsOneRegion(rs: Regions, address: int, size: nat)
    requires Valid(rs) && size >= 1
    ensures Find(rs, address, size) != -1 <==> OneRegion(rs, address, size)
  {
    var i := Find(rs, address, size);
    if i != -1 {
      forall k | address <= k < address + size
        ensures At(rs, k).Cell? && At(rs, k).base == rs[i].base
      {
        AtCovered(rs, k, i);
      }
    }
    if OneRegion(rs, address, size) {
      var a, z := Find(rs, address, 1), Find(rs, address + size - 1, 1);
      assert At(rs, address).Cell? && At(rs, address + size - 1).Cell?;
      assert rs[a].base == rs[z].base;
      assert a == z;
      assert rs[a].Covers(address, size);
    }
  }

  /** Reads are reads of the flat memory. */
  lemma {:induction false} PeekIsFlat(rs: Regions, address: int, size: nat)
    requires Valid(rs) && size >= 1
    ensures Peek(rs, address, size).Some? <==> OneRegion(rs, address, size)
    ensures Peek(rs, address, size).Some? ==>
              forall k :: 0 <= k < size ==>
                  At(rs, address + k).Cell? && Peek(rs, address, size).value[k] == At(rs, address + k).byte
  {
    FindIsOneRegion(rs, address, size);
    var i := Find(rs, address, size);
    if i != -1 {
      forall k | 0 <= k < size
        ensures At(rs, address + k).Cell? && Peek(rs, address, size).value[k] == At(rs, address + k).byte
      {
        AtCovered(rs, address + k, i);
      }
    }
  }

  ghost predicate Overwritten(rs: Regions, rs': Regions, address: int, data: seq<u8>) {
    forall k :: At(rs', k) == if address <= k < address + |data| && At(rs, k).Cell?
                              then At(rs, k).(byte := data[k - address]) else At(rs, k)
  }

  /** Writes are updates of the flat memory; they keep the layout. */
  lemma {:induction false} PokeIsFlat(rs: Regions, address: int, data: seq<u8>)
    requires Valid(rs) && |data| >= 1
    ensures Poke(rs, address, data).Some? <==> OneRegion(rs, address, |data|)
    ensures Poke(rs, address, data).Some? ==>
              var rs' := Poke(rs, address, data).value;
              Valid(rs') && SameLayout(rs, rs') && Overwritten(rs, rs', address, data)
  {
    FindIsOneRegion(rs, address, |data|);
    if Poke(rs, address, data).Some? {
      PokeKeepsLayout(rs, address, data);
      var rs' := Poke(rs, address, data).value;
      hide At, Valid, Poke, OneRegion, SameLayout;
      forall k ensures At(rs', k) == if address <= k < address + |data| && At(rs, k).Cell?
                              then At(rs, k).(byte := data[k - address]) else At(rs, k) {
        PokedCell(rs, address, data, k);
      }
    }
  }

  lemma PokeKeepsLayout(rs: Regions, address: int, data: seq<u8>)
    requires Valid(rs) && Poke(rs, address, data).Some?
    ensures Valid(Poke(rs, address, data).value) && SameLayout(rs, Poke(rs, address, data).value)
  {
    var rs' := Poke(rs, address, data).value;
    assert SameLayout(rs, rs');
  }

  /** One address after a write. */
  lemma PokedCell(rs: Regions, address: int, data: seq<u8>, k: int)
    requires Valid(rs) && Poke(rs, address, data).Some?
    ensures At(Poke(rs, address, data).value, k)
         == if address <= k < address + |data| && At(rs, k).Cell? then At(rs, k).(byte := data[k - address])
             else At(rs, k)
  {
    var rs', i := Poke(rs, address, data).value, Find(rs, address, |data|);
    PokeKeepsLayout(rs, address, data);
    LayoutFind(rs, rs', k, 1);
    if address <= k < address + |data| { FindUnique(rs, k, 1, i); }
  }

  /** Lookups depend on the layout only. */
  lemma {:induction false} LayoutFind(rs: Regions, rs': Regions, address: int, size: nat)
    requires SameLayout(rs, rs')
    ensures Find(rs, address, size) == Find(rs', address, size)
  {
    var i, i' := Find(rs, address, size), Find(rs', address, size);
    assert forall j :: 0 <= j < |rs| ==> rs[j].Covers(address, size) == rs'[j].Covers(address, size);
  }

  /** Two memories with one layout and one flat content are the same memory. */
  lemma {:induction false} FlatExtensional(rs: Regions, rs': Regions)
    requires Valid(rs) && SameLayout(rs, rs')
    requires forall k :: At(rs, k) == At(rs', k)
    ensures rs == rs'
  {
    forall i | 0 <= i < |rs| ensures rs[i] == rs'[i] {
      assert Valid(rs');
      forall o | 0 <= o < |rs[i].bytes| ensures rs[i].bytes[o] == rs'[i].bytes[o] {
        assert At(rs, rs[i].base + o) == At(rs', rs[i].base + o);
        AtCovered(rs, rs[i].base + o, i);
        AtCovered(rs', rs[i].base + o, i);
      }
    }
  }

  /** A range reads back as what was just written to it. */
  lemma {:induction false} ReadAfterWrite(rs: Regions, address: int, data: seq<u8>)
    requires Valid(rs) && |data| >= 1
    requires Poke(rs, address, data).Some?
    ensures Peek(Poke(rs, address, data).value, address, |data|) == Some(data)
  {
    var rs' := Poke(rs, address, data).value;
    LayoutFind(rs, rs', address, |data|);
    var i := Find(rs, address, |data|);
    assert rs'[i].bytes[address - rs[i].base..address - rs[i].base + |data|] == data;
  }

  /** A write leaves every range it does not touch as it was. */
  lemma {:induction false} WriteFrame(rs: Regions, address: int, data: seq<u8>, other: int, size: nat)
    requires Valid(rs) && Poke(rs, address, data).Some?
    requires size >= 1
    requires other + size <= address || address + |data| <= other
    ensures Peek(Poke(rs, address, data).value, other, size) == Peek(rs, other, size)
  {
    var rs' := Poke(rs, address, data).value;
    LayoutFind(rs, rs', other, size);
    var i, j := Find(rs, address, |data|), Find(rs, other, size);
    if j != -1 {
      assert rs'[j].bytes[other - rs[j].base..other - rs[j].base + size]
          == rs[j].bytes[other - rs[j].base..other - rs[j].base + size];
    }
  }
}

/** Building the address space: `map` and the imperative `Memory` object. */
module MemoryMapping {
  import opened Words
  import opened MemoryModel
  import opened Folds

  datatype Request = Request(base: u32, size: nat, perms: Perms, name: string) {
    function End(): int { base + size }
    function Region(): MemoryModel.Region { MemoryModel.Region(base, seq(size, _ => 0), perms, name) }
  }

  predicate Apart(r: Region, q: Request) {
    q.End() <= r.base || q.base >= r.End()
  }

  predicate Accepts(rs: Regions, q: Request) {
    && q.size != 0
    && q.End() <= 0x1_0000_0000
    && forall i :: 0 <= i < |rs| ==> Apart(rs[i], q)
  }

  /** Insertion into a list sorted by base. */
  function Insert(rs: Regions, r: Region): Regions {
    if |rs| == 0 || r.base < rs[0].base then [r] + rs else [rs[0]] + Insert(rs[1..], r)
  }

  function SortByBase(rs: Regions): Regions {
    if |rs| == 0 then [] else Insert(SortByBase(rs[..|rs| - 1]), rs[|rs| - 1])
  }

  /** `Memory::map`: refuse, or append the zeroed region and sort by base. */
  function MapRegion(rs: Regions, q: Request): Option<Regions> {
    if Accepts(rs, q) then Some(SortByBase(rs + [q.Region()])) else None
  }

  /** How many regions lie below the base. */
  function Rank(rs: Regions, base: int): (k: nat)
    ensures k <= |rs|
    ensures k < |rs| ==> base < rs[k].base
    ensures forall i :: 0 <= i < k ==> rs[i].base <= base
  {
    if |rs| == 0 || base < rs[0].base then 0 else 1 + Rank(rs[1..], base)
  }

  lemma {:induction false} InsertAt(rs: Regions, r: Region)
    ensures Insert(rs, r) == rs[..Rank(rs, r.base)] + [r] + rs[Rank(rs, r.base)..]
  {
    if |rs| != 0 && r.base >= rs[0].base {
      InsertAt(rs[1..], r);
      var k := Rank(rs[1..], r.base);
      assert rs[..k + 1] == [rs[0]] + rs[1..][..k];
      assert rs[k + 1..] == rs[1..][k..];
    }
  }

  lemma InsertLargest(rs: Regions, r: Region)
    requires forall i :: 0 <= i < |rs| ==> rs[i].base <= r.base
    ensures Insert(rs, r) == rs + [r]
  {
    InsertAt(rs, r);
    assert Rank(rs, r.base) == |rs|;
    assert rs[|rs|..] == [] && rs[..|rs|] == rs;
  }

  lemma LastIsLargest(rs: Regions)
    requires Valid(rs) && |rs| > 0
    ensures forall i :: 0 <= i < |rs| - 1 ==> rs[i].base <= rs[|rs| - 1].base
    ensures Valid(rs[..|rs| - 1])
  {
    ValidParts(rs, 0, |rs| - 1);
    assert rs[0..|rs| - 1] == rs[..|rs| - 1];
  }

  lemma {:induction false} SortOfSorted(rs: Regions)
    requires Valid(rs)
    ensures SortByBase(rs) == rs
  {
    hide Valid, Insert;
    if |rs| > 0 {
      var m := |rs| - 1;
      LastIsLargest(rs);
      SortOfSorted(rs[..m]);
      InsertLargest(rs[..m], rs[m]);
      assert rs == rs[..m] + [rs[m]];
    }
  }

  function Inserted(rs: Regions, k: nat, r: Region): Regions
    requires k <= |rs|
  {
    rs[..k] + [r] + rs[k..]
  }

  lemma InsertedAt(rs: Regions, k: nat, r: Region)
    requires k <= |rs|
    ensures var rs' := Inserted(rs, k, r);
            && |rs'| == |rs| + 1 && rs'[k] == r
            && (forall i :: 0 <= i < |rs'| ==> rs'[i] == if i < k then rs[i] else if i == k then r else rs[i - 1])
            && multiset(rs') == multiset(rs) + multiset{r}
  {
    assert rs == rs[..k] + rs[k..];
  }

  lemma InsertedValid(rs: Regions, k: nat, r: Region)
    requires Valid(rs) && k <= |rs|
    requires 0 < |r.bytes| && r.End() <= 0x1_0000_0000
    requires forall i :: 0 <= i < |rs| ==> if i < k then rs[i].End() <= r.base else r.End() <= rs[i].base
    ensures Valid(Inserted(rs, k, r))
  {
    InsertedAt(rs, k, r);
  }

  /** A successful `map` puts the new region at its place among the old ones, and keeps the list valid. */
  lemma {:induction false} MapKeepsValid(rs: Regions, q: Request)
    requires Valid(rs) && MapRegion(rs, q).Some?
    ensures Valid(MapRegion(rs, q).value)
    ensures MapRegion(rs, q).value == Inserted(rs, Rank(rs, q.base), q.Region())
  {
    var r := q.Region();
    assert (rs + [r])[..|rs|] == rs;
    SortOfSorted(rs);
    InsertAt(rs, r);
    var k := Rank(rs, r.base);
    forall i | 0 <= i < |rs| ensures if i < k then rs[i].End() <= r.base else r.End() <= rs[i].base {
      assert Apart(rs[i], q);
      assert k < i ==> rs[k].End() <= rs[i].base;
    }
    InsertedValid(rs, k, r);
  }

  lemma InsertedFlat(rs: Regions, k: nat, r: Region, a: int)
    requires Valid(rs) && k <= |rs| && Valid(Inserted(rs, k, r))
    ensures At(Inserted(rs, k, r), a) == if r.Covers(a, 1) then Cell(r.bytes[a - r.base], r.perms, r.base)
            else At(rs, a)
  {
    var rs' := Inserted(rs, k, r);
    var i := Find(rs, a, 1);
    if r.Covers(a, 1) {
      assert rs'[k] == r;
      AtCovered(rs', a, k);
    } else if i != -1 {
      assert rs'[if i < k then i else i + 1] == rs[i];
      AtCovered(rs', a, if i < k then i else i + 1);
    } else {
      InsertedAt(rs, k, r);
      assert forall j :: 0 <= j < |rs'| ==> !rs'[j].Covers(a, 1);
    }
  }

  /** Mapping adds a zeroed block to the flat memory and changes nothing else. */
  lemma MapIsFlat(rs: Regions, q: Request, a: int)
    requires Valid(rs) && MapRegion(rs, q).Some?
    ensures At(MapRegion(rs, q).value, a) == if q.base <= a < q.End() then Cell(0, q.perms, q.base) else At(rs, a)
  {
    MapKeepsValid(rs, q);
    InsertedFlat(rs, Rank(rs, q.base), q.Region(), a);
  }

  lemma HeadIsLeast(rs: Regions, ss: Regions)
    requires Valid(rs) && Valid(ss) && |rs| > 0 && |ss| > 0
    requires rs[0] in ss && ss[0] in rs
    ensures rs[0] == ss[0]
  {
    var i :| 0 <= i < |ss| && ss[i] == rs[0];
    var j :| 0 <= j < |rs| && rs[j] == ss[0];
    assert forall k :: 0 < k < |ss| ==> ss[0].base < ss[k].base;
    assert forall k :: 0 < k < |rs| ==> rs[0].base < rs[k].base;
  }

  lemma MultisetTails(rs: Regions, ss: Regions)
    requires |rs| > 0 && |ss| > 0 && rs[0] == ss[0] && multiset(rs) == multiset(ss)
    ensures multiset(rs[1..]) == multiset(ss[1..])
  {
    MultisetWithout(rs, 0);
    MultisetWithout(ss, 0);
    assert rs[..0] + rs[1..] == rs[1..] && ss[..0] + ss[1..] == ss[1..];
  }

  lemma ValidParts(rs: Regions, i: nat, j: nat)
    requires Valid(rs) && i <= j <= |rs|
    ensures Valid(rs[i..j])
  {
    var ss := rs[i..j];
    assert forall k :: 0 <= k < |ss| ==> ss[k] == rs[i + k];
  }

  /** A valid list is determined by the regions in it. */
  lemma {:induction false} SameRegionsSameList(rs: Regions, ss: Regions)
    requires Valid(rs) && Valid(ss)
    requires multiset(rs) == multiset(ss)
    ensures rs == ss
  {
    hide Valid;
    assert |multiset(rs)| == |rs| && |multiset(ss)| == |ss|;
    if |rs| > 0 {
      assert rs[0] in multiset(rs) && ss[0] in multiset(ss);
      HeadIsLeast(rs, ss);
      MultisetTails(rs, ss);
      ValidParts(rs, 1, |rs|);
      ValidParts(ss, 1, |ss|);
      assert rs[1..|rs|] == rs[1..] && ss[1..|ss|] == ss[1..];
      SameRegionsSameList(rs[1..], ss[1..]);
      assert rs == [rs[0]] + rs[1..] && ss == [ss[0]] + ss[1..];
    }
  }

  /** Two requests may be made in either order. */
  lemma MapsCommute(rs: Regions, q: Request, p: Request)
    requires Valid(rs)
    ensures Then(MapRegion, MapRegion(rs, q), p) == Then(MapRegion, MapRegion(rs, p), q)
  {
    MapTwice(rs, q, p);
    MapTwice(rs, p, q);
    var qp, pq := Then(MapRegion, MapRegion(rs, q), p), Then(MapRegion, MapRegion(rs, p), q);
    if qp.Some? && pq.Some? {
      SameRegionsSameList(qp.value, pq.value);
    }
  }

  lemma AcceptsInserted(rs: Regions, k: nat, r: Region, p: Request)
    requires k <= |rs|
    ensures Accepts(Inserted(rs, k, r), p) <==> Accepts(rs, p) && Apart(r, p)
  {
    hide Apart;
    var rs' := Inserted(rs, k, r);
    assert rs'[k] == r;
    assert forall i :: 0 <= i < |rs| ==> rs[i] == rs'[if i < k then i else i + 1];
    assert forall i :: 0 <= i < |rs'| ==> rs'[i] == if i < k then rs[i] else if i == k then r else rs[i - 1];
  }

  lemma AcceptsAfter(rs: Regions, q: Request, p: Request)
    requires Valid(rs) && Accepts(rs, q)
    ensures Accepts(MapRegion(rs, q).value, p) <==> Accepts(rs, p) && Apart(q.Region(), p)
  {
    MapKeepsValid(rs, q);
    AcceptsInserted(rs, Rank(rs, q.base), q.Region(), p);
  }

  lemma MapTwice(rs: Regions, q: Request, p: Request)
    requires Valid(rs)
    ensures var r := Then(MapRegion, MapRegion(rs, q), p);
            && (r.Some? <==> Accepts(rs, q) && Accepts(rs, p) && (q.End() <= p.base || p.End() <= q.base))
            && (r.Some? ==>
                Valid(r.value) && multiset(r.value) == multiset(rs) + multiset{q.Region()} + multiset{p.Region()})
  {
    if Accepts(rs, q) {
      AcceptsAfter(rs, q, p);
      MapKeepsValid(rs, q);
      InsertedAt(rs, Rank(rs, q.base), q.Region());
      var rs1 := MapRegion(rs, q).value;
      if Accepts(rs1, p) {
        MapKeepsValid(rs1, p);
        InsertedAt(rs1, Rank(rs1, p.base), p.Region());
      }
    }
  }

  /** Any order of the same requests builds the same memory or is refused as a whole. */
  lemma {:induction false} MapsInAnyOrder(rs: Regions, qs: seq<Request>, ps: seq<Request>)
    requires Valid(rs) && multiset(qs) == multiset(ps)
    ensures Fold(MapRegion, Some(rs), qs) == Fold(MapRegion, Some(rs), ps)
    ensures Fold(MapRegion, Some(rs), qs).Some? ==> Valid(Fold(MapRegion, Some(rs), qs).value)
  {
    var inv := (s: Regions) => Valid(s);
    forall i | 0 <= i < |qs| ensures Keeps(MapRegion, inv, qs[i]) {
      forall s | inv(s) && MapRegion(s, qs[i]).Some? { MapKeepsValid(s, qs[i]); }
    }
    forall q, p ensures Commute(MapRegion, inv, q, p) {
      forall s | inv(s) { MapsCommute(s, q, p); }
    }
    FoldAnyOrder(MapRegion, inv, Some(rs), qs, ps);
    FoldKeeps(MapRegion, inv, Some(rs), qs);
  }

  /** The memory object of the engine. */
  class Memory {
    var regions: Regions

    constructor ()
      ensures regions == [] && Valid(regions)
    {
      regions := [];
    }

    method Map(base: u32, size: nat, perms: Perms, name: string) returns (ok: bool)
      modifies this
      ensures ok == Accepts(old(regions), Request(base, size, perms, name))
      ensures Some(regions) == if ok then MapRegion(old(regions), Request(base, size, perms, name))
              else Some(old(regions))
      ensures Valid(old(regions)) ==> Valid(regions)
    {
      ghost var q := Request(base, size, perms, name);
      if size == 0 { return false; }
      var end := base + size;
      if end > 0x1_0000_0000 { return false; }
      for i := 0 to |regions|
        invariant regions == old(regions)
        invariant forall j :: 0 <= j < i ==> Apart(regions[j], q)
      {
        if !(end <= regions[i].base || base >= regions[i].End()) { return false; }
      }
      var region := Region(base, seq(size, _ => 0), perms, name);
      assert region == q.Region();
      regions := regions + [region];
      regions := SortByBase(regions);
      if Valid(old(regions)) { MapKeepsValid(old(regions), q); }
      return true;
    }

    method FindRegion(address: u32, size: nat) returns (index: int)
      ensures index == Find(regions, address, size)
    {
      var k := 0;
      while k < |regions|
        invariant 0 <= k <= |regions|
        invariant Find(regions, address, size) == FindFrom(regions, address, size, k)
      {
        if address >= regions[k].base && address + size <= regions[k].End() { return k; }
        k := k + 1;
      }
      return -1;
    }

    method Read(address: u32, size: nat) returns (bytes: Option<seq<u8>>)
      ensures bytes == ReadBytes(regions, address, size)
    {
      var i := FindRegion(address, size);
      if i == -1 || !regions[i].perms.read { return None; }
      var o := address - regions[i].base;
      return Some(regions[i].bytes[o..o + size]);
    }

    method Write(address: u32, data: seq<u8>) returns (ok: bool)
      modifies this
      ensures ok == WriteBytes(old(regions), address, data).Some?
      ensures regions == if ok then WriteBytes(old(regions), address, data).value else old(regions)
    {
      var i := FindRegion(address, |data|);
      if i == -1 || !regions[i].perms.write { return false; }
      var o := address - regions[i].base;
      regions := regions[i := regions[i].(bytes := Splice(regions[i].bytes, o, data))];
      return true;
    }

    /** The loaders' accesses, which ignore permissions. */
    method DirectRead(address: u32, size: nat) returns (bytes: Option<seq<u8>>)
      ensures bytes == Peek(regions, address, size)
    {
      var i := FindRegion(address, size);
      if i == -1 { return None; }
      var o := address - regions[i].base;
      return Some(regions[i].bytes[o..o + size]);
    }

    method DirectWrite(address: u32, data: seq<u8>) returns (ok: bool)
      modifies this
      ensures ok == Poke(old(regions), address, data).Some?
      ensures regions == if ok then Poke(old(regions), address, data).value else old(regions)
    {
      var i := FindRegion(address, |data|);
      if i == -1 { return false; }
      var o := address - regions[i].base;
      regions := regions[i := regions[i].(bytes := Splice(regions[i].bytes, o, data))];
      return true;
    }
  }
}
