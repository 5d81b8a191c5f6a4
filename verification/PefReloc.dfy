/** Something tried: it leaves a state behind whether or not it succeeds. */
module Attempts {
  datatype Attempt<+S> = Done(state: S) | Failed(state: S)

  function Tried<S>(ok: bool, state: S): Attempt<S> { if ok then Done(state) else Failed(state) }
}

/**
  The PEF relocation machine (src/PefLoader.cpp; Mac OS Runtime
  Architectures, chapter 8): the instructions, what a stream of them does, and
  the object that executes it.
 */
module PefRelocation {
  import opened Words
  import opened Attempts
  import opened MemoryModel
  import opened MemoryMapping

  /**
    Mapped section addresses, 0 for a section that is not instantiated, and
    import addresses, none for an unresolved one.
   */
  datatype Env = Env(sections: seq<u32>, imports: seq<Option<u32>>)

  /** One addition made to memory, and whether what was added is the address of a section or of an import. */
  datatype Patch = Patch(address: u32, addend: u32, fromSection: bool)

  datatype State = State(mem: Regions, targetBase: u32, address: u32, sectionC: u32, sectionD: u32, importIndex: u32,
      patches: seq<Patch>)

  // ----- instructions -----

  /** The words one round of a run instruction relocates. */
  datatype Unit = SectC | SectD | Vector12 | Vector8 | Table8 | NextImport

  datatype Instr =
    | Skip(bytes: nat, count: nat)
    | Run(unit: Unit, count: nat)
    | ByImport(index: nat)
    | SetSectC(index: nat)
    | SetSectD(index: nat)
    | BySection(index: nat)
    | Increment(bytes: nat)
    | Repeat(blocks: nat, times: nat)
    | SetPosition(offset: nat)
    | Invalid

  predicate IsTwoBlock(first: u16) {
    var op6 := first / 0x400;
    op6 == 0x28 || op6 == 0x29 || op6 == 0x2C || op6 == 0x2D
  }

  function Length(first: u16): nat { if IsTwoBlock(first) then 2 else 1 }

  function DecodeRun(first: u16): Instr {
    var sub, count := first / 0x200 % 16, first % 0x200 + 1;
    if sub == 0 then Run(SectC, count) else if sub == 1 then Run(SectD, count)
    else if sub == 2 then Run(Vector12, count) else if sub == 3 then Run(Vector8, count)
    else if sub == 4 then Run(Table8, count) else if sub == 5 then Run(NextImport, count)
    else Invalid
  }

  function DecodeByIndex(first: u16): Instr {
    var sub, index := first / 0x200 % 16, first % 0x200;
    if sub == 0 then ByImport(index) else if sub == 1 then SetSectC(index)
    else if sub == 2 then SetSectD(index) else if sub == 3 then BySection(index)
    else Invalid
  }

  function DecodeLarge(first: u16, second: u16): Instr {
    var op6 := first / 0x400;
    var wide := first % 0x400 * 0x1_0000 + second;
    var sub, narrow := first / 0x40 % 16, first % 0x40 * 0x1_0000 + second;
    if op6 == 0x28 then SetPosition(wide)
    else if op6 == 0x29 then ByImport(wide)
    else if op6 == 0x2C then Repeat(sub + 1, narrow)
    else if op6 == 0x2D && sub == 0 then BySection(narrow)
    else if op6 == 0x2D && sub == 1 then SetSectC(narrow)
    else if op6 == 0x2D && sub == 2 then SetSectD(narrow)
    else Invalid
  }

  function Decode(first: u16, second: u16): Instr {
    if first / 0x4000 == 0 then Skip(first / 0x40 % 0x100 * 4, first % 0x40)
    else if first / 0x2000 == 2 then DecodeRun(first)
    else if first / 0x2000 == 3 then DecodeByIndex(first)
    else if first / 0x1000 == 8 then Increment(first % 0x1000 + 1)
    else if first / 0x1000 == 9 then Repeat(first / 0x100 % 16 + 1, first % 0x100 + 1)
    else if IsTwoBlock(first) then DecodeLarge(first, second)
    else Invalid
  }

  // ----- what they do -----

  /** Add to a word of memory modulo 2^32. */
  function AddWord(mem: Regions, address: u32, value: u32): Option<Regions> {
    var b := Peek(mem, address, 4);
    if b.None? then None else Poke(mem, address, WordBytes(Wrap32(Word(b.value) + value)))
  }

  function Add(s: State, at: u32, value: u32, fromSection: bool): Attempt<State> {
    var m := AddWord(s.mem, at, value);
    if m.None? then Failed(s) else Done(s.(mem := m.value, patches := s.patches + [Patch(at, value, fromSection)]))
  }

  function Advance(s: State, bytes: int): State {
    s.(address := Wrap32(s.address + bytes))
  }

  /** Add at the cursor, then move it. */
  function AddHere(s: State, value: u32, fromSection: bool, bytes: int): Attempt<State> {
    var r := Add(s, s.address, value, fromSection);
    if r.Failed? then r else Done(Advance(r.state, bytes))
  }

  function ImportAddress(env: Env, index: nat): Option<u32> {
    if index >= |env.imports| then None else env.imports[index]
  }

  function SectionAddress(env: Env, index: nat): Option<u32> {
    if index >= |env.sections| || env.sections[index] == 0 then None else Some(env.sections[index])
  }

  function Vector(s: State, bytes: int): Attempt<State> {
    var r := Add(s, s.address, s.sectionC, true);
    if r.Failed? then r
    else
      var q := Add(r.state, Wrap32(s.address + 4), s.sectionD, true);
      if q.Failed? then q else Done(Advance(q.state, bytes))
  }

  function OneUnit(env: Env, u: Unit, s: State): Attempt<State> {
    match u
    case SectC => AddHere(s, s.sectionC, true, 4)
    case SectD => AddHere(s, s.sectionD, true, 4)
    case Vector12 => Vector(s, 12)
    case Vector8 => Vector(s, 8)
    case Table8 => AddHere(s, s.sectionD, true, 8)
    case NextImport =>
      var a := ImportAddress(env, s.importIndex);
      var counted := s.(importIndex := Wrap32(s.importIndex + 1));
      if a.None? then Failed(counted) else AddHere(counted, a.value, false, 4)
  }

  function Units(env: Env, u: Unit, count: nat, s: State): Attempt<State> {
    if count == 0 then Done(s)
    else
      var r := OneUnit(env, u, s);
      if r.Failed? then r else Units(env, u, count - 1, r.state)
  }

  /** Every instruction but the repeats. */
  function Simple(env: Env, instr: Instr, s: State): Attempt<State> {
    match instr
    case Skip(bytes, count) => Units(env, SectD, count, Advance(s, bytes))
    case Run(u, count) => Units(env, u, count, s)
    case ByImport(index) =>
      var a := ImportAddress(env, index);
      if a.None? then Failed(s)
      else
        var r := AddHere(s, a.value, false, 4);
        if r.Failed? then r else Done(r.state.(importIndex := Wrap32(index + 1)))
    case SetSectC(index) =>
      var a := SectionAddress(env, index);
      if a.None? then Failed(s) else Done(s.(sectionC := a.value))
    case SetSectD(index) =>
      var a := SectionAddress(env, index);
      if a.None? then Failed(s) else Done(s.(sectionD := a.value))
    case BySection(index) =>
      var a := SectionAddress(env, index);
      if a.None? then Failed(s) else AddHere(s, a.value, true, 4)
    case Increment(bytes) => Done(Advance(s, bytes))
    case SetPosition(offset) => Done(s.(address := Wrap32(s.targetBase + offset)))
    case Repeat(_, _) => Failed(s)
    case Invalid => Failed(s)
  }

  function Second(block: seq<u16>, i: nat): u16 {
    if i + 1 < |block| then block[i + 1] else 0
  }

  function DecodeAt(block: seq<u16>, i: nat): Instr
    requires i < |block|
  {
    Decode(block[i], Second(block, i))
  }

  /** The rest of a block from position i; a repeat runs the chunks just before it, and not inside another repeat. */
  function Exec(env: Env, block: seq<u16>, i: nat, s: State, repeatsAllowed: bool): Attempt<State>
    requires i <= |block|
    decreases if repeatsAllowed then 1 else 0, |block| - i, 0
  {
    if i == |block| then Done(s)
    else
      var next, instr := i + Length(block[i]), DecodeAt(block, i);
      if next > |block| then Failed(s)
      else
        var r := if !instr.Repeat? then Simple(env, instr, s)
                 else if !repeatsAllowed || instr.blocks > i then Failed(s)
                 else Repeats(env, block[i - instr.blocks..i], instr.times, s);
        if r.Failed? then r else Exec(env, block, next, r.state, repeatsAllowed)
  }

  function Repeats(env: Env, block: seq<u16>, times: nat, s: State): Attempt<State>
    decreases 0, |block| + 1, times
  {
    if times == 0 then Done(s)
    else
      var r := Exec(env, block, 0, s, false);
      if r.Failed? then r else Repeats(env, block, times - 1, r.state)
  }

  lemma InBlock(chunks: seq<u16>, begin: nat, end: nat, at: nat)
    requires begin <= at < end <= |chunks|
    ensures DecodeAt(chunks[begin..end], at - begin) == Decode(chunks[at], if at + 1 < end then chunks[at + 1] else 0)
    ensures chunks[begin..end][at - begin] == chunks[at]
  {
    hide Decode;
  }

  lemma SubBlock(chunks: seq<u16>, begin: nat, end: nat, lo: nat, hi: nat)
    requires begin <= lo <= hi <= end <= |chunks|
    ensures chunks[begin..end][lo - begin..hi - begin] == chunks[lo..hi]
  {
    var block := chunks[begin..end];
    assert |block[lo - begin..hi - begin]| == |chunks[lo..hi]|;
    forall k | 0 <= k < hi - lo ensures block[lo - begin..hi - begin][k] == chunks[lo..hi][k] {
      assert block[lo - begin..hi - begin][k] == block[lo - begin + k] == chunks[lo + k];
    }
  }

  // ----- the machine -----

  class RelocInterpreter {
    const memory: Memory
    const env: Env
    var targetBase: u32
    var address: u32
    var sectionC: u32
    var sectionD: u32
    var importIndex: u32
    ghost var patches: seq<Patch>

    ghost function Now(): State
      reads this, memory
    {
      State(memory.regions, targetBase, address, sectionC, sectionD, importIndex, patches)
    }

    constructor (memory: Memory, env: Env, targetBase: u32, sectionC: u32, sectionD: u32)
      ensures this.memory == memory && this.env == env
      ensures Now() == State(memory.regions, targetBase, targetBase, sectionC, sectionD, 0, [])
    {
      this.memory, this.env := memory, env;
      this.targetBase, this.address := targetBase, targetBase;
      this.sectionC, this.sectionD, this.importIndex := sectionC, sectionD, 0;
      this.patches := [];
    }

    method AddWordAt(at: u32, value: u32, ghost fromSection: bool) returns (ok: bool)
      modifies memory, `patches
      ensures Tried(ok, Now()) == Add(old(Now()), at, value, fromSection)
    {
      var b := memory.DirectRead(at, 4);
      if b.None? { return false; }
      assert |b.value| == 4;
      PeekPokeTogether(memory.regions, at, WordBytes(Wrap32(Word(b.value) + value)));
      ok := memory.DirectWrite(at, WordBytes(Wrap32(Word(b.value) + value)));
      patches := patches + [Patch(at, value, fromSection)];
    }

    method ExecuteUnit(u: Unit) returns (ok: bool)
      modifies this, memory
      ensures Tried(ok, Now()) == OneUnit(env, u, old(Now()))
    {
      hide AddWord;
      match u {
      case SectC =>
        ok := AddWordAt(address, sectionC, true);
        if ok { address := Wrap32(address + 4); }
      case SectD =>
        ok := AddWordAt(address, sectionD, true);
        if ok { address := Wrap32(address + 4); }
      case Vector12 | Vector8 =>
        ok := AddWordAt(address, sectionC, true);
        if !ok { return; }
        ok := AddWordAt(Wrap32(address + 4), sectionD, true);
        if ok { address := Wrap32(address + if u == Vector12 then 12 else 8); }
      case Table8 =>
        ok := AddWordAt(address, sectionD, true);
        if ok { address := Wrap32(address + 8); }
      case NextImport =>
        var a := ImportAddress(env, importIndex);
        importIndex := Wrap32(importIndex + 1);
        if a.None? { return false; }
        ok := AddWordAt(address, a.value, false);
        if ok { address := Wrap32(address + 4); }
      }
    }

    method ExecuteUnits(u: Unit, count: nat) returns (ok: bool)
      modifies this, memory
      ensures Tried(ok, Now()) == Units(env, u, count, old(Now()))
    {
      hide OneUnit;
      for n := 0 to count
        invariant Units(env, u, count, old(Now())) == Units(env, u, count - n, Now())
      {
        ok := ExecuteUnit(u);
        if !ok { return; }
      }
      return true;
    }

    method ExecuteSimple(instr: Instr) returns (ok: bool)
      modifies this, memory
      ensures Tried(ok, Now()) == Simple(env, instr, old(Now()))
    {
      hide Units, AddWord;
      match instr {
      case Skip(bytes, count) =>
        address := Wrap32(address + bytes);
        ok := ExecuteUnits(SectD, count);
      case Run(u, count) => ok := ExecuteUnits(u, count);
      case ByImport(index) =>
        var a := ImportAddress(env, index);
        if a.None? { return false; }
        ok := AddWordAt(address, a.value, false);
        if ok { address, importIndex := Wrap32(address + 4), Wrap32(index + 1); }
      case SetSectC(index) =>
        var a := SectionAddress(env, index);
        if a.None? { return false; }
        sectionC, ok := a.value, true;
      case SetSectD(index) =>
        var a := SectionAddress(env, index);
        if a.None? { return false; }
        sectionD, ok := a.value, true;
      case BySection(index) =>
        var a := SectionAddress(env, index);
        if a.None? { return false; }
        ok := AddWordAt(address, a.value, true);
        if ok { address := Wrap32(address + 4); }
      case Increment(bytes) => address, ok := Wrap32(address + bytes), true;
      case SetPosition(offset) => address, ok := Wrap32(targetBase + offset), true;
      case Repeat(_, _) => ok := false;
      case Invalid => ok := false;
      }
    }

    method Execute(chunks: seq<u16>, begin: nat, end: nat, repeatsAllowed: bool) returns (ok: bool)
      requires begin <= end <= |chunks|
      modifies this, memory
      ensures Tried(ok, Now()) == Exec(env, chunks[begin..end], 0, old(Now()), repeatsAllowed)
      decreases if repeatsAllowed then 1 else 0, 0
    {
      hide Simple, Decode, IsTwoBlock, DecodeAt;
      ghost var block := chunks[begin..end];
      var i := begin;
      while i < end
        invariant begin <= i <= end
        invariant Exec(env, block, 0, old(Now()), repeatsAllowed) == Exec(env, block, i - begin, Now(), repeatsAllowed)
      {
        var start := i;
        var first := chunks[i];
        i := i + Length(first);
        if i > end { return false; }
        var second := if start + 1 < end then chunks[start + 1] else 0;
        var instr := Decode(first, second);
        InBlock(chunks, begin, end, start);
        if instr.Repeat? {
          if !repeatsAllowed { return false; }
          if start < begin + instr.blocks { return false; }
          SubBlock(chunks, begin, end, start - instr.blocks, start);
          assert start - instr.blocks - begin == start - begin - instr.blocks;
          ok := ExecuteRepeat(chunks, start - instr.blocks, start, instr.times);
          if !ok { return; }
        } else {
          ok := ExecuteSimple(instr);
          if !ok { return; }
        }
      }
      return true;
    }

    method ExecuteRepeat(chunks: seq<u16>, begin: nat, end: nat, times: nat) returns (ok: bool)
      requires begin <= end <= |chunks|
      modifies this, memory
      ensures Tried(ok, Now()) == Repeats(env, chunks[begin..end], times, old(Now()))
      decreases 0, 1
    {
      hide Exec;
      for r := 0 to times
        invariant Repeats(env, chunks[begin..end], times, old(Now()))
                == Repeats(env, chunks[begin..end], times - r, Now())
      {
        ok := Execute(chunks, begin, end, false);
        if !ok { return; }
      }
      return true;
    }
  }
}
