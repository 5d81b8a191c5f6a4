/**
  What each relocation kind of a PowerPC ELF image leaves in memory, as numbers
  read from the patched bytes (src/Elf32Loader.cpp).
 */
module ElfWords {
  import opened Words
  import opened Numbers
  import opened MemoryModel
  import opened BlockMoves
  import opened ElfRelocation
  import Accesses

  /** The number at an address, most significant byte first. */
  predicate Reads(mem: Regions, place: int, size: nat, n: int) {
    Peek(mem, place, size).Some? && Accesses.BigEndian(Peek(mem, place, size).value) == n
  }

  /** The patch is made if the place is mapped, puts the number there and changes nothing else. */
  ghost predicate Puts(r: Option<Regions>, mem: Regions, place: int, size: nat, n: int) {
    && (r.Some? <==> Peek(mem, place, size).Some?)
    && (r.Some? ==> Valid(r.value) && OnlyBlockChanged(mem, r.value, place, size) && Reads(r.value, place, size, n))
  }

  lemma PokedBlock(mem: Regions, place: int, data: seq<u8>)
    requires Valid(mem) && |data| >= 1 && Poke(mem, place, data).Some?
    ensures var mem' := Poke(mem, place, data).value;
            Valid(mem') && OnlyBlockChanged(mem, mem', place, |data|) && Peek(mem', place, |data|) == Some(data)
  {
    hide Find, Poke, Peek, Valid;
    PokeIsFlat(mem, place, data);
    ReadAfterWrite(mem, place, data);
  }

  /** An entry with a field, by the bytes it makes of those it finds. */
  lemma Patches(bias: u32, mem: Regions, e: Entry, data: seq<u8>)
    requires Valid(mem) && FieldOf(e.kind).Some? && |data| == SizeOf(e.kind)
    requires Peek(mem, e.place, SizeOf(e.kind)).Some? ==>
               NewBytes(bias, e, Peek(mem, e.place, SizeOf(e.kind)).value) == Some(data)
    ensures Puts(Apply(bias, mem, e), mem, e.place, |data|, Accesses.BigEndian(data))
  {
    hide Peek, Poke, NewBytes, Valid, OnlyBlockChanged, Accesses.BigEndian;
    PeekLength(mem, e.place, SizeOf(e.kind)) by { hide Peek; }
    PeekPokeTogether(mem, e.place, data);
    if Poke(mem, e.place, data).Some? { PokedBlock(mem, e.place, data); }
  }

  lemma Unready(bias: u32, mem: Regions, e: Entry)
    requires e.kind != 0 && (FieldOf(e.kind).None? || !Ready(e))
    ensures Apply(bias, mem, e) == None
  {
    hide Peek, FieldOf, Ready;
  }

  lemma WordPatch(bias: u32, mem: Regions, e: Entry, v: int)
    requires Valid(mem) && e.hasAddend && FieldOf(e.kind) == Some(Word32) && Ready(e) && v == Value(bias, e, e.addend)
    ensures Puts(Apply(bias, mem, e), mem, e.place, 4, v % 0x1_0000_0000)
  {
    hide Peek, Value, Ready, FieldOf, Valid, Puts, Accesses.BigEndian, WordBytes, Word;
    PeekLength(mem, e.place, 4);
    Accesses.BigEndian4(WordBytes(Wrap32(v)));
    Patches(bias, mem, e, WordBytes(Wrap32(v)));
  }

  lemma HalfPatch(bias: u32, mem: Regions, e: Entry, v: int)
    requires Valid(mem) && e.hasAddend && FieldOf(e.kind) == Some(Half16) && Ready(e) && v == Value(bias, e, e.addend)
    ensures Puts(Apply(bias, mem, e), mem, e.place, 2, HalfOf(e.kind, v))
  {
    hide Peek, Value, Ready, FieldOf, Valid, Puts, Accesses.BigEndian, HalfBytes, Half, HalfOf;
    PeekLength(mem, e.place, 2);
    Accesses.BigEndian2(HalfBytes(HalfOf(e.kind, v)));
    Patches(bias, mem, e, HalfBytes(HalfOf(e.kind, v)));
  }

  // ----- explicit addends -----

  /** R_PPC_NONE leaves memory alone; a kind with no meaning here, R_PPC_COPY among them, fails. */
  lemma OtherKinds(bias: u32, mem: Regions, e: Entry)
    ensures e.kind == 0 ==> Apply(bias, mem, e) == Some(mem)
    ensures e.kind in {14, 15, 16, 17, 19, 29, 30, 31, 32} || e.kind > 36 ==> Apply(bias, mem, e) == None
  {
    hide Peek, NewBytes;
    if e.kind != 0 && FieldOf(e.kind).None? { Unready(bias, mem, e); }
  }

  /** S + A: ADDR32, GLOB_DAT, JMP_SLOT, UADDR32 and PLT32. */
  lemma AbsoluteWord(bias: u32, mem: Regions, e: Entry)
    requires Valid(mem) && e.hasAddend && e.kind in {1, 20, 21, 24, 27}
    ensures if e.symbol.None? then Apply(bias, mem, e) == None
            else Puts(Apply(bias, mem, e), mem, e.place, 4, (e.symbol.value + e.addend) % 0x1_0000_0000)
  {
    hide Apply, Puts;
    if e.symbol.Some? { WordPatch(bias, mem, e, e.symbol.value + e.addend); } else { Unready(bias, mem, e); }
  }

  /** B + A: RELATIVE, which needs no symbol. */
  lemma BaseWord(bias: u32, mem: Regions, e: Entry)
    requires Valid(mem) && e.hasAddend && e.kind == 22
    ensures Puts(Apply(bias, mem, e), mem, e.place, 4, (bias + e.addend) % 0x1_0000_0000)
  {
    hide Apply, Puts;
    WordPatch(bias, mem, e, bias + e.addend);
  }

  /** S + A - P: REL32 and PLTREL32. */
  lemma PlaceWord(bias: u32, mem: Regions, e: Entry)
    requires Valid(mem) && e.hasAddend && e.kind in {26, 28}
    ensures if e.symbol.None? then Apply(bias, mem, e) == None
            else Puts(Apply(bias, mem, e), mem, e.place, 4, (e.symbol.value + e.addend - e.place) % 0x1_0000_0000)
  {
    hide Apply, Puts;
    if e.symbol.Some? { WordPatch(bias, mem, e, e.symbol.value + e.addend - e.place); } else { Unready(bias, mem, e); }
  }

  /** The offset of S + A in the symbol's section: SECTOFF. */
  lemma SectionWord(bias: u32, mem: Regions, e: Entry)
    requires Valid(mem) && e.hasAddend && e.kind == 33
    ensures if e.symbol.None? || e.section.None? then Apply(bias, mem, e) == None
            else Puts(Apply(bias, mem, e), mem, e.place, 4,
                (e.symbol.value + e.addend - e.section.value) % 0x1_0000_0000)
  {
    hide Apply, Puts;
    if e.symbol.None? || e.section.None? {
      Unready(bias, mem, e);
    } else {
      WordPatch(bias, mem, e, e.symbol.value + e.addend - e.section.value);
    }
  }

  /** The low half of S + A, its high half, or the high half that goes with a sign-extended low half. */
  lemma AddressHalf(bias: u32, mem: Regions, e: Entry)
    requires Valid(mem) && e.hasAddend && e.kind in {3, 4, 5, 6, 25}
    ensures if e.symbol.None? then Apply(bias, mem, e) == None
            else
              var v := e.symbol.value + e.addend;
              Puts(Apply(bias, mem, e), mem, e.place, 2,
                  if e.kind == 5 then v / 0x1_0000 % 0x1_0000
                  else if e.kind == 6 then (v + 0x8000) / 0x1_0000 % 0x1_0000 else v % 0x1_0000)
  {
    hide Apply, Puts;
    if e.symbol.Some? { HalfPatch(bias, mem, e, e.symbol.value + e.addend); } else { Unready(bias, mem, e); }
  }

  /** The same halves of the offset in the symbol's section. */
  lemma OffsetHalf(bias: u32, mem: Regions, e: Entry)
    requires Valid(mem) && e.hasAddend && e.kind in {34, 35, 36}
    ensures if e.symbol.None? || e.section.None? then Apply(bias, mem, e) == None
            else
              var v := e.symbol.value + e.addend - e.section.value;
              Puts(Apply(bias, mem, e), mem, e.place, 2,
                  if e.kind == 35 then v / 0x1_0000 % 0x1_0000
                  else if e.kind == 36 then (v + 0x8000) / 0x1_0000 % 0x1_0000 else v % 0x1_0000)
  {
    hide Apply, Puts;
    if e.symbol.None? || e.section.None? {
      Unready(bias, mem, e);
    } else {
      HalfPatch(bias, mem, e, e.symbol.value + e.addend - e.section.value);
    }
  }

  // ----- branches -----

  /** The displacement a branch kind asks for, in a field of so many bits counting the two flag bits. */
  function Displacement(e: Entry): int
    requires e.symbol.Some?
  {
    if e.kind in {2, 7, 8, 9} then e.symbol.value + e.addend else e.symbol.value + e.addend - e.place
  }

  /** The field holds the displacement, and the opcode, the other fields and the two flags are as before. */
  predicate Redirected(old': nat, new': nat, displacement: int, range: nat)
    requires range > 0
  {
    new' / range == old' / range && new' % 4 == old' % 4 && new' % range - new' % 4 == displacement % range
  }

  lemma BranchWord(word: u32, v: int)
    requires v % 4 == 0
    ensures Redirected(word, PutLi(word, v), v, 0x400_0000) && Redirected(word, PutBd(word, v), v, 0x1_0000)
  {
    hide PutLi, PutBd;
    PutLiParts(word, v);
    PutBdParts(word, v);
    FieldAndFlags(PutLi(word, v), v);
    FieldAndFlags(PutBd(word, v), v);
  }

  lemma FieldAndFlags(w: nat, v: int)
    requires v % 4 == 0
    ensures w % 0x400_0000 - w % 4 == w % 0x400_0000 / 4 * 4 && v % 0x400_0000 / 4 * 4 == v % 0x400_0000
    ensures w % 0x1_0000 - w % 4 == w % 0x1_0000 / 4 * 4 && v % 0x1_0000 / 4 * 4 == v % 0x1_0000
  {
    FlagsOfRest(w, 0x400_0000);
    FlagsOfRest(w, 0x1_0000);
    FlagsOfRest(v, 0x400_0000);
    FlagsOfRest(v, 0x1_0000);
  }

  lemma BranchRanges(v: int)
    ensures FitsSigned(v, 26) <==> -0x200_0000 <= v < 0x200_0000
    ensures FitsSigned(v, 16) <==> -0x8000 <= v < 0x8000
  {
    Powers();
  }

  /**
    A branch is redirected exactly when its place and symbol are there and the
    displacement is aligned and in range.
   */
  lemma BranchKinds(bias: u32, mem: Regions, e: Entry)
    requires Valid(mem) && e.hasAddend && e.kind in {2, 7, 8, 9, 10, 11, 12, 13, 18, 23}
    ensures var r, old', range := Apply(bias, mem, e), Peek(mem, e.place, 4),
                if e.kind in {2, 10, 18, 23} then 0x400_0000 else 0x1_0000;
            && (r.Some?
                <==> (old'.Some? && e.symbol.Some? && Displacement(e) % 4 == 0
                      && -range <= 2 * Displacement(e) < range))
            && (r.Some? ==>
                var new' := Peek(r.value, e.place, 4);
                && Valid(r.value) && OnlyBlockChanged(mem, r.value, e.place, 4) && new'.Some?
                && Redirected(Accesses.BigEndian(old'.value), Accesses.BigEndian(new'.value), Displacement(e), range))
  {
    hide Peek, Poke, Valid, OnlyBlockChanged, Accesses.BigEndian, WordBytes, Word, PutLi, PutBd, FitsSigned, Redirected;
    var old' := Peek(mem, e.place, 4);
    PeekLength(mem, e.place, 4);
    if old'.Some? && e.symbol.Some? {
      var v, wide := Displacement(e), e.kind in {2, 10, 18, 23};
      BranchRanges(v);
      if v % 4 == 0 && FitsSigned(v, if wide then 26 else 16) {
        var word := Word(old'.value);
        var data := WordBytes(if wide then PutLi(word, v) else PutBd(word, v));
        BranchWord(word, v);
        Accesses.BigEndian4(old'.value);
        Accesses.BigEndian4(data);
        PeekPokeTogether(mem, e.place, data);
        PokedBlock(mem, e.place, data);
      }
    }
  }

  // ----- implicit addends -----

  /** The signed reading of a number of so many values. */
  function Signed(n: int, values: nat): int
    requires values > 0
  {
    if 2 * n < values then n else n - values
  }

  /** The addend in the bytes an entry finds: the word, the halfword or the displacement there, as a signed number. */
  function FoundAddend(kind: nat, n: nat): int {
    if kind in {2, 10, 18, 23} then Signed(n % 0x400_0000 - n % 4, 0x400_0000)
    else if kind in {7, 8, 9, 11, 12, 13} then Signed(n % 0x1_0000 - n % 4, 0x1_0000)
    else if kind in {3, 4, 5, 6, 25, 34, 35, 36} then Signed(n, 0x1_0000)
    else Signed(n, 0x1_0000_0000)
  }

  lemma SignedReadings(n: nat)
    ensures n < 0x1_0000_0000 ==> SignExtend(n, 32) == Signed(n, 0x1_0000_0000)
    ensures n < 0x400_0000 ==> SignExtend(n, 26) == Signed(n, 0x400_0000)
    ensures n < 0x1_0000 ==> SignExtend(n, 16) == Signed(n, 0x1_0000)
  {
    Powers();
    hide Pow2;
  }

  lemma FoundIsImplicit(kind: nat, found: seq<u8>)
    requires FieldOf(kind).Some? && |found| == SizeOf(kind)
    ensures FoundAddend(kind, Accesses.BigEndian(found)) == ImplicitAddend(FieldOf(kind).value, found)
    ensures -0x8000_0000 <= FoundAddend(kind, Accesses.BigEndian(found)) <= 0x7FFF_FFFF
  {
    hide Accesses.BigEndian, Word, Half, SignExtend;
    if FieldOf(kind) == Some(Half16) {
      Accesses.BigEndian2(found);
      SignedReadings(Half(found));
    } else {
      Accesses.BigEndian4(found);
      var n := Word(found);
      FieldAndFlags(n, 0);
      SignedReadings(n);
      SignedReadings(n % 0x400_0000 - n % 4);
      SignedReadings(n % 0x1_0000 - n % 4);
    }
  }

  lemma Powers()
    ensures Pow2(15) == 0x8000 && Pow2(16) == 0x1_0000 && Pow2(25) == 0x200_0000 && Pow2(26) == 0x400_0000
    ensures Pow2(31) == 0x8000_0000 && Pow2(32) == 0x1_0000_0000
  {
    HighPowers();
    assert Pow2(5) == 0x20;
    assert Pow2(10) == 0x400;
    assert Pow2(20) == 0x10_0000 by { assert Pow2(15) == 0x8000; }
  }

  /** An entry without an addend is the entry with the one found at its place. */
  lemma ImplicitAddendIsFound(bias: u32, mem: Regions, e: Entry)
    requires !e.hasAddend && FieldOf(e.kind).Some? && Peek(mem, e.place, SizeOf(e.kind)).Some?
    ensures var a := FoundAddend(e.kind, Accesses.BigEndian(Peek(mem, e.place, SizeOf(e.kind)).value));
            && -0x8000_0000 <= a <= 0x7FFF_FFFF
            && Apply(bias, mem, e) == Apply(bias, mem, e.(hasAddend := true, addend := a))
  {
    hide Peek, Poke, FieldOf, FoundAddend, ImplicitAddend, Encoded, Accesses.BigEndian;
    PeekLength(mem, e.place, SizeOf(e.kind));
    FoundIsImplicit(e.kind, Peek(mem, e.place, SizeOf(e.kind)).value);
  }
}
