/** stmw and lmw as a pair: saving registers and restoring them (src/BuiltinInterpreter.cpp). */
module SaveRestore {
  import opened Words
  import opened MemoryModel
  import opened CpuModel
  import opened Interpreter

  /** The address of the k-th word from ea on, wrapping around. */
  function Slot(ea: u32, k: nat): u32 { Wrap32(ea + 4 * k) }

  predicate Apart(a: int, b: int) { a + 4 <= b || b + 4 <= a }

  lemma NextSlot(ea: u32, k: nat)
    ensures Slot(Wrap32(ea + 4), k) == Slot(ea, k + 1) && Slot(ea, 0) == ea
  {
  }

  /** A slot that does not itself wrap around is apart from the 31 after it. */
  lemma SlotsApart(ea: u32, k: nat)
    requires 1 <= k < 32 && ea + 4 <= 0x1_0000_0000 && Slot(ea, k) + 4 <= 0x1_0000_0000
    ensures Apart(ea, Slot(ea, k))
  {
  }

  lemma MappedFits(mem: Regions, a: u32)
    requires Valid(mem) && Find(mem, a, 4) != -1
    ensures a + 4 <= 0x1_0000_0000
  {
  }

  lemma WordWritten(mem: Regions, a: u32, w: u32)
    requires Valid(mem) && WriteBytes(mem, a, WordBytes(w)).Some?
    ensures var m := WriteBytes(mem, a, WordBytes(w)).value;
            && Valid(m) && SameLayout(mem, m) && Find(mem, a, 4) != -1
            && Peek(m, a, 4) == Some(WordBytes(w))
            && forall b: int :: Apart(a, b) ==> Peek(m, b, 4) == Peek(mem, b, 4)
  {
    hide Find;
    PokeIsFlat(mem, a, WordBytes(w));
    ReadAfterWrite(mem, a, WordBytes(w));
    forall b: int | Apart(a, b) ensures Peek(Poke(mem, a, WordBytes(w)).value, b, 4) == Peek(mem, b, 4) {
      WriteFrame(mem, a, WordBytes(w), b, 4);
    }
  }

  lemma LayoutKeepsAccess(mem: Regions, m: Regions, a: int, size: nat)
    requires SameLayout(mem, m)
    ensures Readable(mem, a, size) == Readable(m, a, size) && Writable(mem, a, size) == Writable(m, a, size)
  {
    LayoutFind(mem, m, a, size);
    assert Find(mem, a, size) != -1 ==> SameShape(mem[Find(mem, a, size)], m[Find(mem, a, size)]);
  }

  /** The store succeeds exactly when every word of the block is writable. */
  lemma {:induction false} StoreSucceedsExactly(gpr: Gprs, mem: Regions, ea: u32, reg: nat)
    requires reg <= 32 && Valid(mem)
    ensures StoreMultiple(gpr, mem, ea, reg).1 <==> forall k :: 0 <= k < 32 - reg ==> Writable(mem, Slot(ea, k), 4)
    decreases 32 - reg
  {
    hide Writable, Slot, WriteBytes;
    NextSlot(ea, 0);
    var next: u32 := Wrap32(ea + 4);
    if reg < 32 {
      assert WriteBytes(mem, ea, WordBytes(gpr[reg])).Some? == Writable(mem, ea, 4) by {
        WritesWhereWritable(mem, ea, gpr[reg]);
      }
      var m := WriteBytes(mem, ea, WordBytes(gpr[reg]));
      if m.Some? {
        WordWritten(mem, ea, gpr[reg]);
        StoreSucceedsExactly(gpr, m.value, next, reg + 1);
        forall k: nat | k < 31 - reg
          ensures Writable(m.value, Slot(next, k), 4) == Writable(mem, Slot(ea, k + 1), 4)
        {
          NextSlot(ea, k);
          LayoutKeepsAccess(mem, m.value, Slot(ea, k + 1), 4);
        }
        assert forall k :: 1 <= k < 32 - reg ==>
            Writable(mem, Slot(ea, k), 4) == Writable(m.value, Slot(next, k - 1), 4);
      }
    }
  }

  lemma WritesWhereWritable(mem: Regions, a: u32, w: u32)
    ensures WriteBytes(mem, a, WordBytes(w)).Some? == Writable(mem, a, 4)
  {
  }

  /** Words apart from the block are kept, also when the store faults half way. */
  lemma {:induction false} StoreKeepsOthers(gpr: Gprs, mem: Regions, ea: u32, reg: nat, a: int)
    requires reg <= 32 && Valid(mem)
    requires forall k :: 0 <= k < 32 - reg && Find(mem, Slot(ea, k), 4) != -1 ==> Apart(Slot(ea, k), a)
    ensures var m := StoreMultiple(gpr, mem, ea, reg).0;
            Valid(m) && SameLayout(mem, m) && Peek(m, a, 4) == Peek(mem, a, 4)
    decreases 32 - reg
  {
    hide Find, Slot, WriteBytes, Peek;
    NextSlot(ea, 0);
    var next: u32 := Wrap32(ea + 4);
    if reg < 32 {
      var m := WriteBytes(mem, ea, WordBytes(gpr[reg]));
      if m.Some? {
        WordWritten(mem, ea, gpr[reg]);
        assert Apart(Slot(ea, 0), a);
        forall k: nat | k < 31 - reg && Find(m.value, Slot(next, k), 4) != -1
          ensures Apart(Slot(next, k), a)
        {
          NextSlot(ea, k);
          LayoutFind(mem, m.value, Slot(ea, k + 1), 4);
        }
        StoreKeepsOthers(gpr, m.value, next, reg + 1, a);
        LayoutTransitive(mem, m.value, StoreMultiple(gpr, mem, ea, reg).0);
      }
    }
  }

  /** After a successful store, every register from reg on is found in its slot. */
  lemma {:induction false} StoredRegisters(gpr: Gprs, mem: Regions, ea: u32, reg: nat)
    requires reg <= 32 && Valid(mem) && StoreMultiple(gpr, mem, ea, reg).1
    ensures var m := StoreMultiple(gpr, mem, ea, reg).0;
            && Valid(m) && SameLayout(mem, m)
            && forall k :: 0 <= k < 32 - reg ==> Peek(m, Slot(ea, k), 4) == Some(WordBytes(gpr[reg + k]))
    decreases 32 - reg
  {
    hide Find, Slot, WriteBytes, Peek;
    NextSlot(ea, 0);
    var next: u32 := Wrap32(ea + 4);
    if reg < 32 {
      var m1 := WriteBytes(mem, ea, WordBytes(gpr[reg])).value;
      WordWritten(mem, ea, gpr[reg]);
      StoredRegisters(gpr, m1, next, reg + 1);
      forall k: nat | k < 31 - reg && Find(m1, Slot(next, k), 4) != -1
        ensures Apart(Slot(next, k), ea)
      {
        NextSlot(ea, k);
        MappedFits(m1, Slot(ea, k + 1));
        MappedFits(mem, ea);
        SlotsApart(ea, k + 1);
      }
      StoreKeepsOthers(gpr, m1, next, reg + 1, ea);
      var m := StoreMultiple(gpr, mem, ea, reg).0;
      LayoutTransitive(mem, m1, m);
      forall k | 0 <= k < 32 - reg ensures Peek(m, Slot(ea, k), 4) == Some(WordBytes(gpr[reg + k])) {
        if k > 0 { NextSlot(ea, k - 1); }
      }
    }
  }

  /** Loading a block that holds given registers puts them back, whatever the registers held before. */
  lemma {:induction false} LoadedRegisters(c: CpuState, mem: Regions, ea: u32, reg: nat, gpr: Gprs)
    requires reg <= 32
    requires forall k :: 0 <= k < 32 - reg ==> ReadBytes(mem, Slot(ea, k), 4) == Some(WordBytes(gpr[reg + k]))
    ensures LoadMultiple(c, mem, ea, reg) == (c.(gpr := c.gpr[..reg] + gpr[reg..]), true)
    decreases 32 - reg
  {
    hide Slot, ReadBytes;
    NextSlot(ea, 0);
    var next: u32 := Wrap32(ea + 4);
    if reg < 32 {
      assert ReadBytes(mem, Slot(ea, 0), 4) == Some(WordBytes(gpr[reg]));
      WordOfBytes(gpr[reg]);
      var c1 := PutGpr(c, reg, gpr[reg]);
      forall k | 0 <= k < 31 - reg ensures ReadBytes(mem, Slot(next, k), 4) == Some(WordBytes(gpr[reg + 1 + k])) {
        NextSlot(ea, k);
        assert ReadBytes(mem, Slot(ea, k + 1), 4) == Some(WordBytes(gpr[reg + (k + 1)]));
      }
      LoadedRegisters(c1, mem, next, reg + 1, gpr);
      assert c1.gpr[..reg + 1] + gpr[reg + 1..] == c.gpr[..reg] + gpr[reg..];
    } else {
      assert c.gpr[..32] + gpr[32..] == c.gpr;
    }
  }

  lemma WordOfBytes(w: u32)
    ensures Word(WordBytes(w)) == w
  {
  }

  lemma ExecuteMultipleForms(cfg: Config, c: CpuState, mem: Regions, pc: u32, insn: u32)
    requires Opcode(insn) == 46 || Opcode(insn) == 47
    ensures Execute(cfg, c, mem, pc, insn) == MultipleOp(c, mem, pc, insn)
  {
    hide MultipleOp, AccessOp, RegisterOp, ReservedOp, BranchRegister, BranchDirect;
  }

  /**
    Registers saved by stmw are restored by lmw from the same block, whatever
    happened to them in between and even if the base register is among them.
   */
  lemma SavedRegistersAreRestored(cfg: Config, c: CpuState, mem: Regions, pc: u32, stmw: u32, mem': Regions,
      c1: CpuState, pc1: u32, lmw: u32)
    requires Valid(mem) && Opcode(stmw) == 47 && Opcode(lmw) == 46 && Rt(lmw) == Rt(stmw)
    requires Execute(cfg, c, mem, pc, stmw) == Running(c, mem')
    requires EaD(c1, Ra(lmw), SignExtend16(lmw)) == EaD(c, Ra(stmw), SignExtend16(stmw))
    requires forall k :: 0 <= k < 32 - Rt(stmw) ==> Readable(mem, Slot(EaD(c, Ra(stmw), SignExtend16(stmw)), k), 4)
    ensures Execute(cfg, c1, mem', pc1, lmw) == Running(c1.(gpr := c1.gpr[..Rt(stmw)] + c.gpr[Rt(stmw)..]), mem')
  {
    hide Execute, Slot, Peek, Readable, StoreMultiple, LoadMultiple, EaD;
    var ea: u32, reg: nat := EaD(c, Ra(stmw), SignExtend16(stmw)), Rt(stmw) as nat;
    ExecuteMultipleForms(cfg, c, mem, pc, stmw);
    ExecuteMultipleForms(cfg, c1, mem', pc1, lmw);
    StoredRegisters(c.gpr, mem, ea, reg);
    forall k | 0 <= k < 32 - reg ensures ReadBytes(mem', Slot(ea, k), 4) == Some(WordBytes(c.gpr[reg + k])) {
      LayoutKeepsAccess(mem, mem', Slot(ea, k), 4);
    }
    LoadedRegisters(c1, mem', ea, reg, c.gpr);
  }
}
