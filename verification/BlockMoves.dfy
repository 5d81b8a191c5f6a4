/**
  What the memory stubs do to the flat memory (src/ImportStubs.cpp): a block
  arrives as it was before the copy, however source and destination overlap.
 */
module BlockMoves {
  import opened Words
  import opened MemoryModel
  import opened CpuModel
  import opened Interpreter

  /** The addresses of a block hold the given bytes. */
  predicate Holds(mem: Regions, address: int, data: seq<u8>) {
    forall k :: 0 <= k < |data| ==> ByteAt(mem, address + k, data[k])
  }

  predicate ByteAt(mem: Regions, a: int, b: u8) { At(mem, a).Cell? && At(mem, a).byte == b }

  /** Outside the block every address is as before, and inside only bytes changed. */
  ghost predicate OnlyBlockChanged(mem: Regions, mem': Regions, address: int, size: nat) {
    && SameLayout(mem, mem')
    && forall a :: !(address <= a < address + size) ==> At(mem', a) == At(mem, a)
  }

  lemma WrittenBlock(mem: Regions, address: int, data: seq<u8>)
    requires Valid(mem) && |data| >= 1 && WriteBytes(mem, address, data).Some?
    ensures var mem' := WriteBytes(mem, address, data).value;
            Valid(mem') && Holds(mem', address, data) && OnlyBlockChanged(mem, mem', address, |data|)
  {
    hide Find;
    var mem' := WriteBytes(mem, address, data).value;
    PokeIsFlat(mem, address, data);
    forall k | 0 <= k < |data| ensures ByteAt(mem', address + k, data[k]) {
      assert At(mem, address + k).Cell?;
    }
  }

  /** Copying succeeds exactly when both blocks are accessible and not too long. */
  lemma CopySucceedsExactly(mem: Regions, destination: u32, source: u32, count: u32)
    ensures CopyBlock(mem, destination, source, count).Some?
       <==> count <= MAX_STUB_COUNT
            && (count == 0 || (Readable(mem, source, count) && Writable(mem, destination, count)))
  {
    hide Find;
    PeekLength(mem, source, count);
  }

  /** Byte k of the destination is now what byte k of the source was. */
  predicate Arrived(mem: Regions, mem': Regions, destination: int, source: int, k: int) {
    && At(mem, source + k).Cell? && At(mem', destination + k).Cell?
    && At(mem', destination + k).byte == At(mem, source + k).byte
  }

  lemma HeldBlocksMatch(mem: Regions, mem': Regions, destination: int, source: int, data: seq<u8>)
    requires Holds(mem, source, data) && Holds(mem', destination, data)
    ensures forall k :: 0 <= k < |data| ==> Arrived(mem, mem', destination, source, k)
  {
    hide At;
    forall k | 0 <= k < |data| ensures Arrived(mem, mem', destination, source, k) {
      assert ByteAt(mem, source + k, data[k]) && ByteAt(mem', destination + k, data[k]);
    }
  }

  lemma ReadBlock(mem: Regions, address: int, size: nat)
    requires Valid(mem) && size >= 1 && Peek(mem, address, size).Some?
    ensures |Peek(mem, address, size).value| == size && Holds(mem, address, Peek(mem, address, size).value)
  {
    hide Find, At;
    PeekLength(mem, address, size);
    PeekIsFlat(mem, address, size);
  }

  /** The destination holds what the source held before, byte by byte, and nothing else changed. */
  lemma CopyArrives(mem: Regions, destination: u32, source: u32, count: u32)
    requires Valid(mem) && CopyBlock(mem, destination, source, count).Some?
    ensures var mem' := CopyBlock(mem, destination, source, count).value;
            && Valid(mem') && OnlyBlockChanged(mem, mem', destination, count)
            && forall k :: 0 <= k < count ==> Arrived(mem, mem', destination, source, k)
  {
    hide Find, Readable, Writable, At, Valid, WriteBytes, Peek, Holds, Arrived;
    if count > 0 {
      var data := ReadBytes(mem, source, count).value;
      ReadBlock(mem, source, count);
      WrittenBlock(mem, destination, data);
      HeldBlocksMatch(mem, CopyBlock(mem, destination, source, count).value, destination, source, data);
    }
  }

  /** Every byte of the destination is the value, and nothing else changed. */
  lemma FillArrives(mem: Regions, destination: u32, value: u8, count: u32)
    requires Valid(mem) && FillBlock(mem, destination, value, count).Some?
    ensures var mem' := FillBlock(mem, destination, value, count).value;
            && Valid(mem') && OnlyBlockChanged(mem, mem', destination, count)
            && Holds(mem', destination, seq(count, _ => value))
  {
    hide Find, Readable, Writable, At, Valid, WriteBytes;
    if count > 0 { WrittenBlock(mem, destination, seq(count, _ => value)); }
  }

  /** All addresses of the block hold the value. */
  predicate Filled(mem: Regions, address: int, size: nat, value: u8) {
    forall a :: address <= a < address + size ==> ByteAt(mem, a, value)
  }

  lemma HeldIsFilled(mem: Regions, address: int, size: nat, value: u8)
    requires Holds(mem, address, seq(size, _ => value))
    ensures Filled(mem, address, size, value)
  {
    hide ByteAt;
    var data := seq(size, _ => value);
    forall a | address <= a < address + size ensures ByteAt(mem, a, value) {
      assert ByteAt(mem, address + (a - address), data[a - address]);
    }
  }

  /** The block of count bytes at the one address arrived at the other, and nothing else changed. */
  ghost predicate Moved(mem: Regions, mem': Regions, destination: u32, source: u32, count: u32) {
    && OnlyBlockChanged(mem, mem', destination, count)
    && forall k :: 0 <= k < count ==> Arrived(mem, mem', destination, source, k)
  }

  /**
    Which registers hold what: BlockMoveData has source and destination the
    other way round than memcpy and memmove.
   */
  lemma StubsMove(c: CpuState, mem: Regions, kind: StubKind)
    requires Valid(mem) && StubMemory(c, mem, kind).Some?
    ensures var mem' := StubMemory(c, mem, kind).value;
            match kind
            case BlockMoveData => Moved(mem, mem', c.gpr[4], c.gpr[3], c.gpr[5])
            case Memcpy | Memmove => Moved(mem, mem', c.gpr[3], c.gpr[4], c.gpr[5])
            case Memset =>
              OnlyBlockChanged(mem, mem', c.gpr[3], c.gpr[5]) && Filled(mem', c.gpr[3], c.gpr[5], c.gpr[4] % 0x100)
            case Bzero => OnlyBlockChanged(mem, mem', c.gpr[3], c.gpr[4]) && Filled(mem', c.gpr[3], c.gpr[4], 0)
            case _ => mem' == mem
  {
    hide CopyBlock, FillBlock, OnlyBlockChanged, Arrived, Holds, Filled, Valid;
    match kind
    case BlockMoveData => CopyArrives(mem, c.gpr[4], c.gpr[3], c.gpr[5]);
    case Memcpy | Memmove => CopyArrives(mem, c.gpr[3], c.gpr[4], c.gpr[5]);
    case Memset =>
      FillArrives(mem, c.gpr[3], c.gpr[4] % 0x100, c.gpr[5]);
      HeldIsFilled(StubMemory(c, mem, kind).value, c.gpr[3], c.gpr[5], c.gpr[4] % 0x100);
    case Bzero =>
      FillArrives(mem, c.gpr[3], 0, c.gpr[4]);
      HeldIsFilled(StubMemory(c, mem, kind).value, c.gpr[3], c.gpr[4], 0);
    case _ =>
  }
}
