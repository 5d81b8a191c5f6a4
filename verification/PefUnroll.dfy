/** Unrolling the repeats of a relocation stream preserves what it does. */
module PefUnrolling {
  import opened Words
  import opened Attempts
  import opened PefRelocation

  function Copies(block: seq<u16>, times: nat): seq<u16> {
    if times == 0 then [] else block + Copies(block, times - 1)
  }

  predicate ReachesBack(block: seq<u16>, i: nat)
    requires i < |block|
  {
    DecodeAt(block, i).Repeat? && DecodeAt(block, i).blocks <= i
  }

  /** The stream from position i on, with every repeat replaced by copies of the chunks it refers to. */
  function Unroll(block: seq<u16>, i: nat): seq<u16>
    requires i <= |block|
    decreases |block| - i
  {
    if i == |block| then []
    else
      var next := i + Length(block[i]);
      if next > |block| then block[i..]
      else if ReachesBack(block, i) then
        Copies(block[i - DecodeAt(block, i).blocks..i], DecodeAt(block, i).times) + Unroll(block, next)
      else block[i..next] + Unroll(block, next)
  }

  /** Read from position i, the block ends where an instruction ends. */
  predicate Aligned(block: seq<u16>, i: nat)
    requires i <= |block|
    decreases |block| - i
  {
    i == |block| || (i + Length(block[i]) <= |block| && Aligned(block, i + Length(block[i])))
  }

  /** From position i on, the chunks of every repeat that is run at all end where an instruction ends. */
  predicate AlignedRepeats(block: seq<u16>, i: nat)
    requires i <= |block|
    decreases |block| - i
  {
    i == |block| || i + Length(block[i]) > |block|
    || (var instr := DecodeAt(block, i);
        && (ReachesBack(block, i) && instr.times > 0 ==> Aligned(block[i - instr.blocks..i], 0))
        && AlignedRepeats(block, i + Length(block[i])))
  }

  function Then(env: Env, s: Attempt<State>, block: seq<u16>): Attempt<State> {
    if s.Failed? then s else Exec(env, block, 0, s.state, false)
  }

  /** What one instruction does where repeats are not allowed. */
  function Single(env: Env, instr: Instr, s: State): Attempt<State> {
    if instr.Repeat? then Failed(s) else Simple(env, instr, s)
  }

  lemma ExecStep(env: Env, block: seq<u16>, i: nat, s: State)
    requires i < |block| && i + Length(block[i]) <= |block|
    ensures var r := Single(env, DecodeAt(block, i), s);
            Exec(env, block, i, s, false) == if r.Failed? then r
                else Exec(env, block, i + Length(block[i]), r.state, false)
  {
    hide Simple, Decode;
  }

  lemma SameInstruction(block: seq<u16>, i: nat, other: seq<u16>, j: nat)
    requires i < |block| && j < |other| && block[i] == other[j]
    requires i + Length(block[i]) <= |block| && j + Length(other[j]) <= |other|
    requires Length(block[i]) == 2 ==> block[i + 1] == other[j + 1]
    ensures DecodeAt(block, i) == DecodeAt(other, j)
  {
  }

  /** Without repeats, what a block does from a position on depends on the chunks from there on only. */
  lemma {:induction false} ExecSuffix(env: Env, block: seq<u16>, k: nat, i: nat, s: State)
    requires k <= i <= |block|
    ensures Exec(env, block, i, s, false) == Exec(env, block[k..], i - k, s, false)
    decreases |block| - i
  {
    hide Simple, Decode, DecodeAt, IsTwoBlock;
    if i < |block| && i + Length(block[i]) <= |block| {
      SameInstruction(block, i, block[k..], i - k);
      var next := i + Length(block[i]);
      ExecStep(env, block, i, s);
      ExecStep(env, block[k..], i - k, s);
      var r := Single(env, DecodeAt(block, i), s);
      if r.Done? { ExecSuffix(env, block, k, next, r.state); }
    }
  }

  /** A block read to its end, followed by another. */
  lemma {:induction false} ExecConcat(env: Env, a: seq<u16>, b: seq<u16>, i: nat, s: State)
    requires i <= |a| && Aligned(a, i)
    ensures Exec(env, a + b, i, s, false) == Then(env, Exec(env, a, i, s, false), b)
    decreases |a| - i
  {
    hide Simple, Decode, DecodeAt, IsTwoBlock;
    if i == |a| {
      ExecSuffix(env, a + b, |a|, |a|, s);
      assert (a + b)[|a|..] == b;
    } else {
      SameInstruction(a, i, a + b, i);
      ExecStep(env, a, i, s);
      ExecStep(env, a + b, i, s);
      var r := Single(env, DecodeAt(a, i), s);
      if r.Done? { ExecConcat(env, a, b, i + Length(a[i]), r.state); }
    }
  }

  /** Copies in front of a block do what repeating does. */
  lemma {:induction false} ExecCopies(env: Env, block: seq<u16>, times: nat, b: seq<u16>, s: State)
    requires times > 0 ==> Aligned(block, 0)
    ensures Exec(env, Copies(block, times) + b, 0, s, false) == Then(env, Repeats(env, block, times, s), b)
    decreases times
  {
    hide Exec, Aligned;
    if times == 0 {
      assert Copies(block, 0) + b == b;
    } else {
      var rest := Copies(block, times - 1) + b;
      assert Copies(block, times) + b == block + rest;
      ExecConcat(env, block, rest, 0, s);
      var r := Exec(env, block, 0, s, false);
      if r.Done? { ExecCopies(env, block, times - 1, b, r.state); }
    }
  }

  /** A single instruction in front of a block. */
  lemma ExecCons(env: Env, block: seq<u16>, i: nat, b: seq<u16>, s: State)
    requires i < |block| && i + Length(block[i]) <= |block|
    ensures Exec(env, block[i..i + Length(block[i])] + b, 0, s, false)
         == Then(env, Single(env, DecodeAt(block, i), s), b)
  {
    hide Simple, Decode, DecodeAt, IsTwoBlock;
    var n := Length(block[i]);
    var head := block[i..i + n];
    SameInstruction(block, i, head + b, 0);
    ExecStep(env, head + b, 0, s);
    var r := Single(env, DecodeAt(block, i), s);
    if r.Done? {
      ExecSuffix(env, head + b, n, n, r.state);
      assert (head + b)[n..] == b;
    }
  }

  lemma ExecTruncated(env: Env, block: seq<u16>, i: nat, s: State)
    requires i < |block| && i + Length(block[i]) > |block|
    ensures Exec(env, block[i..], 0, s, false) == Failed(s)
  {
    hide Simple, Decode, IsTwoBlock;
  }

  /** One instruction of the original stream, repeats included. */
  lemma ExecOuter(env: Env, block: seq<u16>, i: nat, s: State)
    requires i < |block| && i + Length(block[i]) <= |block|
    ensures var r := Outer(env, block, i, s);
            Exec(env, block, i, s, true) == if r.Failed? then r
                else Exec(env, block, i + Length(block[i]), r.state, true)
  {
    hide Simple, Decode, IsTwoBlock, Repeats;
  }

  /**
    When the repeated chunks are whole instructions, the stream and its
    unrolling do the same from every state, failure included; the unrolling
    runs with repeats forbidden.
   */
  lemma {:induction false} UnrollPreservesMeaning(env: Env, block: seq<u16>, i: nat, s: State)
    requires i <= |block| && AlignedRepeats(block, i)
    ensures Exec(env, block, i, s, true) == Exec(env, Unroll(block, i), 0, s, false)
    decreases |block| - i
  {
    hide Exec, Repeats, Simple, Decode, DecodeAt, IsTwoBlock, Aligned;
    if i == |block| {
      ExecEmpty(env, block, s);
    } else if i + Length(block[i]) > |block| {
      ExecTruncated(env, block, i, s);
      OuterTruncated(env, block, i, s);
    } else {
      ExecOuter(env, block, i, s);
      UnrollStep(env, block, i, s);
      var r := Outer(env, block, i, s);
      if r.Done? {
        hide AlignedRepeats, Unroll, Outer;
        UnrollPreservesMeaning(env, block, i + Length(block[i]), r.state);
      }
    }
  }

  /** What the instruction at a position does where repeats are allowed. */
  function Outer(env: Env, block: seq<u16>, i: nat, s: State): Attempt<State>
    requires i < |block|
  {
    var instr := DecodeAt(block, i);
    if ReachesBack(block, i) then Repeats(env, block[i - instr.blocks..i], instr.times, s) else Single(env, instr, s)
  }

  /** The unrolling of one instruction, followed by the unrolling of the rest. */
  lemma UnrollStep(env: Env, block: seq<u16>, i: nat, s: State)
    requires i < |block| && i + Length(block[i]) <= |block| && AlignedRepeats(block, i)
    ensures Exec(env, Unroll(block, i), 0, s, false)
            == Then(env, Outer(env, block, i, s), Unroll(block, i + Length(block[i])))
  {
    hide Exec, Repeats, Simple, Decode, DecodeAt, IsTwoBlock, Aligned;
    var next, instr := i + Length(block[i]), DecodeAt(block, i);
    if ReachesBack(block, i) {
      ExecCopies(env, block[i - instr.blocks..i], instr.times, Unroll(block, next), s);
    } else {
      ExecCons(env, block, i, Unroll(block, next), s);
    }
  }

  lemma ExecEmpty(env: Env, block: seq<u16>, s: State)
    ensures Exec(env, block, |block|, s, true) == Done(s) == Exec(env, [], 0, s, false)
  {
  }

  lemma OuterTruncated(env: Env, block: seq<u16>, i: nat, s: State)
    requires i < |block| && i + Length(block[i]) > |block|
    ensures Exec(env, block, i, s, true) == Failed(s)
  {
    hide Simple, Decode, IsTwoBlock;
  }

  lemma {:induction false} SuccessIsAligned(env: Env, block: seq<u16>, i: nat, s: State)
    requires i <= |block| && Exec(env, block, i, s, false).Done?
    ensures Aligned(block, i)
    decreases |block| - i
  {
    hide Simple, Decode, IsTwoBlock;
    if i < |block| {
      ExecStep(env, block, i, s);
      SuccessIsAligned(env, block, i + Length(block[i]), Single(env, DecodeAt(block, i), s).state);
    }
  }

  lemma RepeatedSuccessIsAligned(env: Env, block: seq<u16>, times: nat, s: State)
    requires times > 0 && Repeats(env, block, times, s).Done?
    ensures Aligned(block, 0)
  {
    hide Exec, Aligned;
    SuccessIsAligned(env, block, 0, s);
  }

  /** A stream that runs successfully only repeats whole instructions. */
  lemma {:induction false} SuccessHasAlignedRepeats(env: Env, block: seq<u16>, i: nat, s: State)
    requires i <= |block| && Exec(env, block, i, s, true).Done?
    ensures AlignedRepeats(block, i)
    decreases |block| - i
  {
    hide Exec, Repeats, Simple, Decode, DecodeAt, IsTwoBlock, Aligned;
    if i < |block| && i + Length(block[i]) <= |block| {
      var next, instr := i + Length(block[i]), DecodeAt(block, i);
      ExecOuter(env, block, i, s);
      if ReachesBack(block, i) {
        var sub := block[i - instr.blocks..i];
        if instr.times > 0 { RepeatedSuccessIsAligned(env, sub, instr.times, s); }
        SuccessHasAlignedRepeats(env, block, next, Repeats(env, sub, instr.times, s).state);
      } else {
        SuccessHasAlignedRepeats(env, block, next, Single(env, instr, s).state);
      }
    }
  }

  /** Every successful stream can be replaced by its repeat-free unrolling, with the same final memory and registers. */
  lemma UnrolledStreamSucceeds(env: Env, chunks: seq<u16>, s: State)
    requires Exec(env, chunks, 0, s, true).Done?
    ensures Exec(env, Unroll(chunks, 0), 0, s, false) == Exec(env, chunks, 0, s, true)
  {
    hide Exec, Unroll, AlignedRepeats;
    SuccessHasAlignedRepeats(env, chunks, 0, s);
    UnrollPreservesMeaning(env, chunks, 0, s);
  }

  /**
    Where the unrolled stream runs, the original one runs exactly when its
    repeats reach back to instruction boundaries.
   */
  lemma RunsExactlyWhenAligned(env: Env, chunks: seq<u16>, s: State)
    requires Exec(env, Unroll(chunks, 0), 0, s, false).Done?
    ensures Exec(env, chunks, 0, s, true).Done? <==> AlignedRepeats(chunks, 0)
  {
    if Exec(env, chunks, 0, s, true).Done? {
      SuccessHasAlignedRepeats(env, chunks, 0, s);
    }
    if AlignedRepeats(chunks, 0) {
      UnrollPreservesMeaning(env, chunks, 0, s);
    }
  }

  /** No repeat is met when the stream is read from position i. */
  predicate RepeatFree(block: seq<u16>, i: nat)
    requires i <= |block|
    decreases |block| - i
  {
    i == |block| || i + Length(block[i]) > |block|
    || (!DecodeAt(block, i).Repeat? && RepeatFree(block, i + Length(block[i])))
  }

  lemma {:induction false} SuccessIsRepeatFree(env: Env, block: seq<u16>, i: nat, s: State)
    requires i <= |block| && Exec(env, block, i, s, false).Done?
    ensures RepeatFree(block, i)
    decreases |block| - i
  {
    hide Simple, Decode, IsTwoBlock;
    if i < |block| {
      ExecStep(env, block, i, s);
      SuccessIsRepeatFree(env, block, i + Length(block[i]), Single(env, DecodeAt(block, i), s).state);
    }
  }

  const MISALIGNED: seq<u16> := [0xA000, 0xA000, 0x9000, 0x0000]
  const MISALIGNED_UNROLLED: seq<u16> := [0xA000, 0xA000, 0xA000, 0x0000]

  lemma DecodesSetPosition(second: u16)
    ensures Decode(0xA000, second) == SetPosition(second)
    ensures Length(0xA000) == 2
  {
    hide DecodeRun, DecodeByIndex;
  }

  lemma DecodesSmall()
    ensures Decode(0x9000, 0) == Repeat(1, 1) && Decode(0, 0) == Skip(0, 0)
    ensures Length(0x9000) == 1 && Length(0) == 1
  {
    hide DecodeRun, DecodeByIndex, DecodeLarge;
  }

  lemma MisalignedDecodes()
    ensures DecodeAt(MISALIGNED, 0) == SetPosition(0xA000) && DecodeAt(MISALIGNED, 2) == Repeat(1, 1)
            && DecodeAt(MISALIGNED, 3) == Skip(0, 0)
    ensures DecodeAt(MISALIGNED_UNROLLED, 0) == SetPosition(0xA000)
            && DecodeAt(MISALIGNED_UNROLLED, 2) == SetPosition(0)
    ensures Length(0xA000) == 2 && Length(0x9000) == 1 && Length(0) == 1
  {
    hide Decode, Length;
    DecodesSetPosition(0xA000);
    DecodesSetPosition(0);
    DecodesSmall();
  }

  lemma MisalignedUnrolls()
    ensures Unroll(MISALIGNED, 0) == MISALIGNED_UNROLLED
  {
    MisalignedDecodes();
    hide Decode, DecodeAt, Length;
    var chunks := MISALIGNED;
    assert chunks[1..2] == [0xA000] && chunks[0..2] == [0xA000, 0xA000] && chunks[3..4] == [0x0000];
    assert Copies([0xA000], 1) == [0xA000] + Copies([0xA000], 0) == [0xA000];
    assert Unroll(chunks, 4) == [];
    assert Unroll(chunks, 3) == [0x0000];
    assert Unroll(chunks, 2) == [0xA000, 0x0000];
  }

  lemma MisalignedFails(env: Env, s: State)
    ensures Exec(env, MISALIGNED, 0, s, true) == Failed(s.(address := Wrap32(s.targetBase + 0xA000)))
  {
    MisalignedDecodes();
    hide Units, AddWord, Unroll, Decode, DecodeAt, Exec, Length;
    var t := s.(address := Wrap32(s.targetBase + 0xA000));
    ExecOuter(env, MISALIGNED, 0, s);
    ExecOuter(env, MISALIGNED, 2, t);
    ExecTruncated(env, [0xA000], 0, t);
    assert MISALIGNED[1..2] == [0xA000] && [0xA000][0..] == [0xA000];
  }

  lemma MisalignedUnrolledRuns(env: Env, s: State)
    ensures Exec(env, MISALIGNED_UNROLLED, 0, s, false).Done?
  {
    MisalignedDecodes();
    hide Units, AddWord, Unroll, Decode, DecodeAt, Length;
    ExecStep(env, MISALIGNED_UNROLLED, 0, s);
    ExecStep(env, MISALIGNED_UNROLLED, 2, s.(address := Wrap32(s.targetBase + 0xA000)));
  }

  /**
    The alignment matters: here a repeat refers to the second half of an
    instruction, and only the unrolled stream runs.
   */
  lemma MisalignedRepeatDiffers(env: Env, s: State)
    ensures !AlignedRepeats(MISALIGNED, 0)
    ensures Exec(env, MISALIGNED, 0, s, true).Failed? && Exec(env, Unroll(MISALIGNED, 0), 0, s, false).Done?
  {
    hide Exec, AlignedRepeats;
    MisalignedUnrolls();
    MisalignedFails(env, s);
    MisalignedUnrolledRuns(env, s);
    if AlignedRepeats(MISALIGNED, 0) { UnrollPreservesMeaning(env, MISALIGNED, 0, s); }
  }
}
