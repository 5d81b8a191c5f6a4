/**
  Relocation of PowerPC ELF images: one patch, and whole tables
  (src/Elf32Loader.cpp; System V ABI, PowerPC Processor Supplement, chapter 4).
 */
module ElfRelocation {
  import opened Words
  import opened MemoryModel
  import opened MemoryMapping
  import opened Folds

  type i32 = x: int | -0x8000_0000 <= x <= 0x7FFF_FFFF

  /** A table entry with its symbol looked up: no symbol address when it is unresolved, no section when it has none. */
  datatype Entry = Entry(place: u32, kind: nat, symbol: Option<u32>, section: Option<u32>, addend: i32, hasAddend: bool)

  /** What an entry patches. */
  datatype Field = Word32 | Half16 | Branch24 | Branch14

  function FieldOf(kind: nat): Option<Field> {
    // ADDR32 GLOB_DAT JMP_SLOT RELATIVE UADDR32 REL32 PLT32 PLTREL32 SECTOFF
    if kind in {1, 20, 21, 22, 24, 26, 27, 28, 33} then Some(Word32)
    else if kind in {3, 4, 5, 6, 25, 34, 35, 36} then Some(Half16) // ADDR16 _LO _HI _HA UADDR16 SECTOFF_LO _HI _HA
    else if kind in {2, 10, 18, 23} then Some(Branch24) // ADDR24 REL24 PLTREL24 LOCAL24PC
    else if kind in {7, 8, 9, 11, 12, 13} then Some(Branch14) // ADDR14 REL14 and their BRTAKEN/BRNTAKEN forms
    else None // COPY and everything else
  }

  predicate IsRelative(kind: nat) { kind in {10, 11, 12, 13, 18, 23, 26, 28} }
  predicate IsSectionOffset(kind: nat) { kind in {33, 34, 35, 36} }
  predicate IsHigh(kind: nat) { kind == 5 || kind == 35 }
  predicate IsHighAdjusted(kind: nat) { kind == 6 || kind == 36 }

  function SizeOf(kind: nat): nat {
    match FieldOf(kind)
    case None => 0
    case Some(Half16) => 2
    case Some(_) => 4
  }

  predicate FitsSigned(value: int, bits: nat)
    requires bits >= 1
  {
    -(Pow2(bits - 1) as int) <= value < Pow2(bits - 1)
  }

  /** The 24- and 14-bit displacement fields, the two flag bits and the rest of the word kept. */
  function PutLi(word: u32, value: int): u32 {
    word / 0x400_0000 * 0x400_0000 + value % 0x400_0000 / 4 * 4 + word % 4
  }

  function PutBd(word: u32, value: int): u32 {
    word / 0x1_0000 * 0x1_0000 + value % 0x1_0000 / 4 * 4 + word % 4
  }

  lemma PutLiParts(word: u32, value: int)
    ensures var w := PutLi(word, value);
            w / 0x400_0000 == word / 0x400_0000 && w % 0x400_0000 / 4 * 4 == value % 0x400_0000 / 4 * 4
                && w % 4 == word % 4
  {
    var v := value % 0x400_0000 / 4;
    assert 0 <= v * 4 + word % 4 < 0x400_0000;
  }

  lemma PutBdParts(word: u32, value: int)
    ensures var w := PutBd(word, value);
            w / 0x1_0000 == word / 0x1_0000 && w % 0x1_0000 / 4 * 4 == value % 0x1_0000 / 4 * 4 && w % 4 == word % 4
  {
    var v := value % 0x1_0000 / 4;
    assert 0 <= v * 4 + word % 4 < 0x1_0000;
  }

  function SignExtend(value: nat, bits: nat): int
    requires bits >= 1
  {
    if value < Pow2(bits - 1) then value else value - Pow2(bits)
  }

  /** The addend an entry without one finds in the bytes it patches. */
  function ImplicitAddend(field: Field, found: seq<u8>): int
    requires |found| == (if field == Half16 then 2 else 4)
  {
    match field
    case Word32 => SignExtend(Word(found), 32)
    case Half16 => SignExtend(Half(found), 16)
    case Branch24 => SignExtend(Word(found) % 0x400_0000 / 4 * 4, 26)
    case Branch14 => SignExtend(Word(found) % 0x1_0000 / 4 * 4, 16)
  }

  /** S + A, B + A, S + A - P or the offset in the symbol's section. */
  function Value(bias: u32, e: Entry, addend: int): int {
    if e.kind == 22 then bias + addend
    else
      var s := if e.symbol.Some? then e.symbol.value else 0;
      var v := s + addend;
      if IsRelative(e.kind) then v - e.place
      else if IsSectionOffset(e.kind) && e.section.Some? then v - e.section.value
      else v
  }

  predicate Ready(e: Entry) {
    (e.kind != 22 ==> e.symbol.Some?) && (IsSectionOffset(e.kind) ==> e.section.Some?)
  }

  function HalfOf(kind: nat, value: int): u16 {
    var half := if IsHigh(kind) then value / 0x1_0000
                else if IsHighAdjusted(kind) then (value + 0x8000) / 0x1_0000 else value;
    half % 0x1_0000
  }

  /** The bytes that replace the old ones, unless the value does not fit. */
  function Encoded(kind: nat, field: Field, value: int, found: seq<u8>): (r: Option<seq<u8>>)
    requires |found| == (if field == Half16 then 2 else 4)
    ensures r.Some? ==> |r.value| == |found|
  {
    match field
    case Word32 => Some(WordBytes(Wrap32(value)))
    case Half16 => Some(HalfBytes(HalfOf(kind, value)))
    case Branch24 => if value % 4 != 0 || !FitsSigned(value, 26) then None
        else Some(WordBytes(PutLi(Word(found), value)))
    case Branch14 => if value % 4 != 0 || !FitsSigned(value, 16) then None
        else Some(WordBytes(PutBd(Word(found), value)))
  }

  function NewBytes(bias: u32, e: Entry, found: seq<u8>): (r: Option<seq<u8>>)
    requires |found| == SizeOf(e.kind)
    ensures r.Some? ==> |r.value| == |found| >= 2
  {
    var field := FieldOf(e.kind);
    if field.None? || !Ready(e) then None
    else
      var addend := if e.hasAddend then e.addend else ImplicitAddend(field.value, found);
      Encoded(e.kind, field.value, Value(bias, e, addend), found)
  }

  /** The memory after one relocation. */
  function Apply(bias: u32, mem: Regions, e: Entry): Option<Regions> {
    if e.kind == 0 then Some(mem)
    else
      var found := Peek(mem, e.place, SizeOf(e.kind));
      if found.None? then None
      else
        var patched := NewBytes(bias, e, found.value);
        if patched.None? then None else Poke(mem, e.place, patched.value)
  }

  function Applier(bias: u32): (Regions, Entry) -> Option<Regions> {
    (m: Regions, e: Entry) => Apply(bias, m, e)
  }

  function ApplyTable(bias: u32, mem: Regions, table: seq<Entry>): Option<Regions> {
    Fold(Applier(bias), Some(mem), table)
  }

  // ----- the loader's own order of steps -----

  method WriteBranch(memory: Memory, place: u32, field: Field, value: int) returns (ok: bool)
    requires field == Branch24 || field == Branch14
    modifies memory
    ensures var found, kind := Peek(old(memory.regions), place, 4), 0;
            var written := if found.None? || Encoded(kind, field, value, found.value).None? then None
                           else Poke(old(memory.regions), place, Encoded(kind, field, value, found.value).value);
            ok == written.Some? && memory.regions == if ok then written.value else old(memory.regions)
  {
    if value % 4 != 0 || !FitsSigned(value, if field == Branch24 then 26 else 16) { return false; }
    var word := memory.DirectRead(place, 4);
    if word.None? { return false; }
    var patched := if field == Branch24 then PutLi(Word(word.value), value) else PutBd(Word(word.value), value);
    ok := memory.DirectWrite(place, WordBytes(patched));
  }

  method ApplyOneRelocation(bias: u32, memory: Memory, e: Entry) returns (ok: bool)
    modifies memory
    ensures ok == Apply(bias, old(memory.regions), e).Some?
    ensures memory.regions == if ok then Apply(bias, old(memory.regions), e).value else old(memory.regions)
  {
    hide Value, HalfOf, ImplicitAddend, FitsSigned, PutLi, PutBd, Peek, Poke;
    if e.kind == 0 { return true; }
    var field := FieldOf(e.kind);
    if field.None? || !Ready(e) { return false; }
    var size := if field.value == Half16 then 2 else 4;
    var addend: int := e.addend;
    if !e.hasAddend {
      var found := memory.DirectRead(e.place, size);
      if found.None? { return false; }
      PeekLength(memory.regions, e.place, size);
      addend := ImplicitAddend(field.value, found.value);
    }
    var value := Value(bias, e, addend);
    PeekLength(memory.regions, e.place, size);
    match field.value
    case Word32 =>
      PeekPokeTogether(memory.regions, e.place, WordBytes(Wrap32(value)));
      ok := memory.DirectWrite(e.place, WordBytes(Wrap32(value)));
    case Half16 =>
      PeekPokeTogether(memory.regions, e.place, HalfBytes(HalfOf(e.kind, value)));
      ok := memory.DirectWrite(e.place, HalfBytes(HalfOf(e.kind, value)));
    case Branch24 => ok := WriteBranch(memory, e.place, Branch24, value);
    case Branch14 => ok := WriteBranch(memory, e.place, Branch14, value);
  }

  /** The whole table in order; a failing entry leaves the patches made before it. */
  method ApplyRelocations(bias: u32, memory: Memory, table: seq<Entry>) returns (ok: bool)
    modifies memory
    ensures ok == ApplyTable(bias, old(memory.regions), table).Some?
    ensures ok ==> Some(memory.regions) == ApplyTable(bias, old(memory.regions), table)
    ensures !ok ==> exists k ::
              0 <= k < |table| && Some(memory.regions) == ApplyTable(bias, old(memory.regions), table[..k])
              && Apply(bias, memory.regions, table[k]).None?
  {
    hide Apply;
    ghost var f := Applier(bias);
    ghost var start := memory.regions;
    for i := 0 to |table|
      invariant Fold(f, Some(start), table[..i]) == Some(memory.regions)
    {
      assert table[..i + 1] == table[..i] + [table[i]];
      assert table == table[..i] + ([table[i]] + table[i + 1..]);
      FoldConcat(f, Some(start), table[..i], [table[i]]);
      FoldConcat(f, Some(start), table[..i], [table[i]] + table[i + 1..]);
      assert ([table[i]] + table[i + 1..])[1..] == table[i + 1..];
      FoldOfNone(f, table[i + 1..]);
      ok := ApplyOneRelocation(bias, memory, table[i]);
      if !ok { return; }
    }
    assert table[..|table|] == table;
    return true;
  }
}
