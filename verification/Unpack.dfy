/** The loader's decompressor, proved to compute `PatternData.Decoded` (src/PefLoader.cpp). */
module PatternUnpacker {
  import opened Words
  import opened Numbers
  import opened PatternData

  /** Whole operations of the stream may be taken one at a time. */
  lemma ResumeAfterOp(s: seq<u8>, done: seq<u8>, size: nat)
    requires |s| > 0
    ensures ParseOp(s).None? ==> Resume(s, done, size) == None
    ensures ParseOp(s).Some? ==>
              Resume(s, done, size) == Resume(ParseOp(s).value.1, done + Denote(ParseOp(s).value.0), size)
  {
    hide ParseOp, Denote;
    var p := ParseOp(s);
    if p.Some? && ParseAll(p.value.1).Some? {
      var rest := ParseAll(p.value.1).value;
      var ops := [p.value.0] + rest;
      assert ops[1..] == rest;
      assert done + (Denote(p.value.0) + DenoteAll(rest)) == done + Denote(p.value.0) + DenoteAll(rest);
    }
  }

  /** Output beyond the size asked for is never recovered from. */
  lemma ResumeTooLong(s: seq<u8>, done: seq<u8>, size: nat)
    requires |done| > size
    ensures Resume(s, done, size) == None
  {
  }

  /** Digits already read, in front of those still to come. */
  function Behind(digits: seq<Digit>, rest: Option<seq<Digit>>): Option<seq<Digit>> {
    if rest.None? then None else Some(digits + rest.value)
  }

  lemma ReadArgStep(src: seq<u8>, cursor: nat, limit: nat, digits: seq<Digit>)
    requires cursor <= |src| && limit > 0
    ensures Behind(digits, ReadArg(src[cursor..], limit))
         == if cursor == |src| then None
            else if src[cursor] < 128 then Some(digits + [src[cursor]])
            else Behind(digits + [src[cursor] - 128], ReadArg(src[cursor + 1..], limit - 1))
  {
    if cursor < |src| && src[cursor] >= 128 {
      assert src[cursor..][1..] == src[cursor + 1..];
      var rest := ReadArg(src[cursor + 1..], limit - 1);
      if rest.Some? { assert digits + ([src[cursor] - 128] + rest.value) == digits + [src[cursor] - 128] + rest.value; }
    }
  }

  lemma AccumulatedNext(digits: seq<Digit>, d: Digit)
    ensures Accumulated(digits + [d]) == Wrap32(Accumulated(digits) as int * 128 + d)
  {
    assert (digits + [d])[..|digits|] == digits;
  }

  method ReadPidataArg(src: seq<u8>, start: nat) returns (ok: bool, value: u32, cursor: nat)
    requires start <= |src|
    ensures ok == ParseArg(src[start..]).Some?
    ensures ok ==>
              cursor <= |src| && src[cursor..] == ParseArg(src[start..]).value.1
              && value == ArgValue(ParseArg(src[start..]).value.0)
  {
    hide ReadArg, Accumulated;
    value, cursor := 0, start;
    ghost var digits: seq<Digit> := [];
    ghost var whole := ReadArg(src[start..], 5);
    assert whole == Behind([], whole) by { if whole.Some? { assert [] + whole.value == whole.value; } }
    assert Accumulated([]) == 0 by { NothingAccumulated(); }
    for i := 0 to 5
      invariant cursor == start + i <= |src| && |digits| == i
      invariant value == Accumulated(digits)
      invariant whole == Behind(digits, ReadArg(src[cursor..], 5 - i))
    {
      ReadArgStep(src, cursor, 5 - i, digits);
      if cursor >= |src| { return false, value, cursor; }
      var byte := src[cursor];
      cursor := cursor + 1;
      AccumulatedNext(digits, byte % 128);
      value := Wrap32(value as int * 128 + byte % 128);
      digits := digits + [byte % 128];
      if byte < 128 {
        assert src[start..][|digits|..] == src[cursor..];
        return true, value, cursor;
      }
    }
    assert whole == None by { NothingRead(src[cursor..]); }
    return false, value, cursor;
  }

  lemma NothingAccumulated()
    ensures Accumulated([]) == 0
  {
  }

  lemma NothingRead(s: seq<u8>)
    ensures ReadArg(s, 0) == None
  {
  }

  method PidataCount(inlineCount: nat, src: seq<u8>, start: nat) returns (ok: bool, value: u32, cursor: nat)
    requires start <= |src| && inlineCount < 32
    ensures inlineCount != 0 ==> ok && value == inlineCount && cursor == start
    ensures inlineCount == 0 ==> ok == ParseArg(src[start..]).Some?
    ensures inlineCount == 0 && ok ==>
              cursor <= |src| && src[cursor..] == ParseArg(src[start..]).value.1
              && value == ArgValue(ParseArg(src[start..]).value.0)
  {
    if inlineCount != 0 { return true, inlineCount, start; }
    ok, value, cursor := ReadPidataArg(src, start);
  }

  /** Append a raw block if neither the input nor the output bound is exceeded. */
  method AppendRaw(done: seq<u8>, src: seq<u8>, start: nat, count: nat, limit: nat)
    returns (ok: bool, out: seq<u8>, cursor: nat)
    requires start <= |src|
    ensures ok <==> count <= |src| - start && |done| + count <= limit
    ensures ok ==> cursor == start + count && out == done + src[start..cursor]
  {
    if start > |src| || count > |src| - start || |done| + count > limit { return false, done, start; }
    return true, done + src[start..start + count], start + count;
  }

  /** Unsigned 64-bit arithmetic of the bound checks. */
  function Wrap64(x: int): u64 { x % 0x1_0000_0000_0000_0000 }

  lemma SmallProduct(a: u32, b: int)
    requires 0 <= b <= 0x1_0000_0000
    ensures 0 <= a as int * b <= 0xFFFF_FFFF * 0x1_0000_0000
  {
    assert a as int * b <= 0xFFFF_FFFF * b;
    assert 0 <= a as int * b;
  }

  lemma RepeatedNext(block: seq<u8>, r: nat, done: seq<u8>)
    ensures done + Repeated(block, r) + block == done + Repeated(block, r + 1)
  {
  }

  method UnpackRepeat(done: seq<u8>, block: seq<u8>, repeatMinusOne: u32, size: u32) returns (ok: bool, out: seq<u8>)
    requires |done| <= size && |block| < 0x1_0000_0000
    ensures ok <==> |done + Repeated(block, repeatMinusOne + 1)| <= size
    ensures ok ==> out == done + Repeated(block, repeatMinusOne + 1)
  {
    var repeats := repeatMinusOne as int + 1;
    SmallProduct(|block|, repeats);
    if Wrap64(repeats * |block|) > size - |done| { return false, done; }
    out := done;
    for r := 0 to repeats
      invariant out == done + Repeated(block, r)
    {
      RepeatedNext(block, r, done);
      out := out + block;
    }
    return true, out;
  }

  lemma {:induction false} WovenLength(common: seq<u8>, customs: seq<seq<u8>>, custom: nat)
    requires AllOfSize(customs, custom)
    ensures |Woven(common, customs)| == |customs| * (|common| + custom)
  {
    if |customs| > 0 {
      var n := |customs| - 1;
      WovenLength(common, customs[..n], custom);
      assert (n + 1) * (|common| + custom) == n * (|common| + custom) + (|common| + custom);
    }
  }

  lemma {:induction false} SplitNext(s: seq<u8>, size: nat, r: nat)
    requires size * r + size <= |s|
    ensures size * (r + 1) <= |s|
    ensures Split(s, size, r + 1) == Split(s, size, r) + [s[size * r..size * r + size]]
    decreases r
  {
    assert size * (r + 1) == size * r + size;
    if r > 0 {
      assert size * r == size + size * (r - 1);
      SplitNext(s[size..], size, r - 1);
      var o := size * (r - 1);
      assert s[size..][o..o + size] == s[size + o..size + o + size];
      assert [s[..size]] + (Split(s[size..], size, r - 1) + [s[size + o..size + o + size]])
          == [s[..size]] + Split(s[size..], size, r - 1) + [s[size + o..size + o + size]];
    } else {
      assert Split(s, size, 1) == [s[..size]] + Split(s[size..], size, 0);
    }
  }

  lemma WovenNext(done: seq<u8>, common: seq<u8>, customs: seq<seq<u8>>, next: seq<u8>)
    ensures done + Woven(common, customs + [next]) == done + Woven(common, customs) + common + next
  {
    assert (customs + [next])[..|customs|] == customs;
  }

  lemma NothingWoven(common: seq<u8>, s: seq<u8>, custom: nat)
    ensures Split(s, custom, 0) == [] && Woven(common, []) == []
  {
  }

  /** One round of the loop: the common block and the next custom block are appended. */
  lemma WeaveStep(done: seq<u8>, common: seq<u8>, s: seq<u8>, custom: nat, r: nat)
    requires custom * r + custom <= |s|
    ensures custom * (r + 1) == custom * r + custom
    ensures done + Woven(common, Split(s, custom, r + 1))
         == done + Woven(common, Split(s, custom, r)) + common + s[custom * r..custom * r + custom]
  {
    hide Woven, Split;
    SplitNext(s, custom, r);
    WovenNext(done, common, Split(s, custom, r), s[custom * r..custom * r + custom]);
  }

  /** The interleaving loop. */
  method WeaveBlocks(done: seq<u8>, common: seq<u8>, src: seq<u8>, start: nat, custom: u32, times: u32, size: u32)
    returns (ok: bool, out: seq<u8>, cursor: nat)
    requires start <= |src|
    ensures ok <==>
              custom as int * times <= |src| - start && (times > 0 ==> |done| + (|common| + custom) * times <= size)
    ensures ok ==> cursor == start + custom as int * times
    ensures ok ==> out == done + Woven(common, Split(src[start..], custom, times))
  {
    hide Woven, Split;
    ghost var s, step := src[start..], |common| + custom;
    NothingWoven(common, s, custom);
    out, cursor := done, start;
    for r := 0 to times
      invariant cursor == start + custom as int * r <= |src|
      invariant custom as int * r <= |s|
      invariant out == done + Woven(common, Split(s, custom, r))
      invariant |out| == |done| + step * r
      invariant r > 0 ==> |out| <= size
    {
      ghost var o := custom as int * r;
      assert step * (r + 1) == step * r + step;
      StepsWithin(custom, r, times);
      StepsWithin(step, r, times);
      ok, out, cursor := AppendRaw(out + common, src, cursor, custom, size);
      if !ok { return; }
      WeaveStep(done, common, s, custom, r);
      assert s[o..o + custom] == src[start + o..start + o + custom];
    }
    ok := true;
  }

  /** The size check is made modulo 2^64; where it wraps, the loop itself runs into the output bound. */
  method UnpackInterleave(done: seq<u8>, common: seq<u8>, src: seq<u8>, start: nat, custom: u32, times: u32, size: u32)
    returns (ok: bool, out: seq<u8>, cursor: nat)
    requires |done| <= size && start <= |src| && |common| < 0x1_0000_0000
    ensures ok <==> (var fits := custom as int * times <= |src| - start;
                     fits && |done + (Woven(common, Split(src[start..], custom, times)) + common)| <= size)
    ensures ok ==> cursor == start + custom as int * times
    ensures ok ==> out == done + (Woven(common, Split(src[start..], custom, times)) + common)
  {
    hide Woven, Split;
    ghost var s := src[start..];
    var required := |common| * (times as int + 1) + custom as int * times;
    RequiredIs(|common|, custom, times);
    if custom as int * times <= |s| { InterleaveLength(done, common, s, custom, times); }
    if Wrap64(required) > size - |done| { return false, done, start; }
    ok, out, cursor := WeaveBlocks(done, common, src, start, custom, times, size);
    if ok {
      BoundedRequired(|common| + custom, times, |common|, size);
      out := out + common;
    }
  }

  lemma RequiredIs(common: nat, custom: nat, times: nat)
    ensures common * (times + 1) + custom * times == (common + custom) * times + common
  {
  }

  lemma StepsWithin(step: nat, r: nat, times: nat)
    requires r < times
    ensures step * r + step <= step * times
  {
    Scaled(r + 1, times, step);
    Swapped(step, r + 1, times);
    assert (r + 1) * step == step * r + step;
  }

  lemma BoundedRequired(step: nat, times: nat, common: nat, size: u32)
    requires times > 0 ==> step * times <= size
    requires common < 0x1_0000_0000
    ensures step * times + common < 0x1_0000_0000_0000_0000
  {
  }

  lemma InterleaveLength(done: seq<u8>, common: seq<u8>, s: seq<u8>, custom: nat, times: nat)
    requires custom * times <= |s|
    ensures |done + (Woven(common, Split(s, custom, times)) + common)|
            == |done| + ((|common| + custom) * times + |common|)
  {
    WovenLength(common, Split(s, custom, times), custom);
  }

  /** The arguments of an interleaving, then its blocks. */
  method UnpackBlocks(tag: nat, count: u32, done: seq<u8>, src: seq<u8>, start: nat, size: u32, ghost c: Count)
    returns (ok: bool, out: seq<u8>, cursor: nat)
    requires (tag == 3 || tag == 4) && |done| <= size && start <= |src| && c.WellFormed() && c.Value() == count
    ensures Took(tag, c, done, src, start, size, ok, out, cursor)
  {
    hide ParseArg, ParseBlocks, Denote, Accumulated;
    var custom, times;
    ok, custom, cursor := ReadPidataArg(src, start);
    if !ok { return false, done, start; }
    ghost var sizeArg := ParseArg(src[start..]).value.0;
    ghost var first := cursor;
    ok, times, cursor := ReadPidataArg(src, cursor);
    if !ok { return false, done, start; }
    ghost var timesArg := ParseArg(src[first..]).value.0;
    ok, out, cursor := UnpackCommonAndCustoms(tag, count, custom, times, done, src, cursor, size, c, sizeArg, timesArg);
  }

  lemma ParsedBlocks(tag: nat, c: Count, size: Arg, times: Arg, s: seq<u8>)
    requires (tag == 3 || tag == 4) && c.WellFormed()
    ensures var p, n, total := ParseBlocks(tag, c, size, times, s), (if tag == 3 then c.Value() else 0),
            ArgValue(size) as int * ArgValue(times);
            && (p.Some? <==> n + total <= |s|)
            && (p.Some? ==>
                  var common := if tag == 3 then s[..n] else Zeros(c.Value());
                  && Denote(p.value.0) == Woven(common, Split(s[n..], ArgValue(size), ArgValue(times))) + common
                  && p.value.1 == s[n + total..])
  {
    hide Woven, Split, Accumulated;
  }

  method UnpackCommonAndCustoms(tag: nat, count: u32, custom: u32, times: u32, done: seq<u8>, src: seq<u8>,
      start: nat, size: u32,
                                ghost c: Count, ghost sizeArg: Arg, ghost timesArg: Arg)
    returns (ok: bool, out: seq<u8>, cursor: nat)
    requires (tag == 3 || tag == 4) && |done| <= size && start <= |src| && c.WellFormed() && c.Value() == count
    requires custom == ArgValue(sizeArg) && times == ArgValue(timesArg)
    ensures var p := ParseBlocks(tag, c, sizeArg, timesArg, src[start..]);
            && ok == (p.Some? && |done + Denote(p.value.0)| <= size)
            && (ok ==> cursor <= |src| && src[cursor..] == p.value.1 && out == done + Denote(p.value.0))
  {
    hide Woven, Split, ArgValue, ParseBlocks, Denote, Zeros;
    ParsedBlocks(tag, c, sizeArg, timesArg, src[start..]);
    TotalIsNatural(custom, times);
    var common;
    ok, common, cursor := TakeCommon(tag, count, src, start);
    if !ok { return false, done, start; }
    ghost var n := cursor - start;
    Suffix(src, start, n);
    ok, out, cursor := UnpackInterleave(done, common, src, cursor, custom, times, size);
    if ok { Suffix(src, start, cursor - start); }
  }

  method TakeCommon(tag: nat, count: u32, src: seq<u8>, start: nat) returns (ok: bool, common: seq<u8>, cursor: nat)
    requires start <= |src|
    ensures var n := if tag == 3 then count else 0;
            && (ok <==> n <= |src| - start)
            && (ok ==> cursor == start + n && |common| == count && common == if tag == 3 then src[start..][..n]
                else Zeros(count))
  {
    if tag != 3 { return true, Zeros(count), start; }
    if start > |src| || count > |src| - start { return false, [], start; }
    return true, src[start..start + count], start + count;
  }

  lemma TotalIsNatural(custom: nat, times: nat)
    ensures custom * times >= 0
  {
  }

  lemma Suffix(src: seq<u8>, start: nat, k: nat)
    requires start + k <= |src|
    ensures src[start..][k..] == src[start + k..]
  {
  }

  method UnpackPattern(src: seq<u8>, outputSize: u32) returns (ok: bool, out: seq<u8>)
    ensures ok == Decoded(src, outputSize).Some?
    ensures ok ==> Some(out) == Decoded(src, outputSize)
  {
    hide Resume, ParseAll, ParseArg, Denote, ParseBody;
    out := [];
    var cursor := 0;
    assert src[0..] == src;
    while cursor < |src|
      invariant cursor <= |src| && |out| <= outputSize
      invariant Decoded(src, outputSize) == Resume(src[cursor..], out, outputSize)
    {
      ghost var s := src[cursor..];
      ResumeAfterOp(s, out, outputSize);
      ok, cursor, out := UnpackOne(src, cursor, out, outputSize);
      if !ok {
        if ParseOp(s).Some? { ResumeTooLong(ParseOp(s).value.1, out + Denote(ParseOp(s).value.0), outputSize); }
        return false, out;
      }
    }
    assert src[cursor..] == [];
    FinishedStream(out, outputSize);
    return true, out + Zeros(outputSize - |out|);
  }

  lemma FinishedStream(done: seq<u8>, size: nat)
    requires |done| <= size
    ensures Resume([], done, size) == Some(done + Zeros(size - |done|))
  {
    assert done + [] == done;
  }

  /** What taking one operation with its tag and count from a position gives. */
  ghost predicate Took(tag: nat, c: Count, done: seq<u8>, src: seq<u8>, start: nat, size: u32, ok: bool, out: seq<u8>,
      cursor: nat)
    requires c.WellFormed() && start <= |src|
  {
    var p := ParseBody(tag, c, src[start..]);
    && ok == (p.Some? && |done + Denote(p.value.0)| <= size)
    && (ok ==> cursor <= |src| && src[cursor..] == p.value.1 && out == done + Denote(p.value.0))
  }

  method UnpackZero(count: u32, done: seq<u8>, src: seq<u8>, start: nat, size: u32, ghost c: Count)
    returns (ok: bool, out: seq<u8>, cursor: nat)
    requires |done| <= size && start <= |src| && c.WellFormed() && c.Value() == count
    ensures Took(0, c, done, src, start, size, ok, out, cursor)
  {
    hide Accumulated;
    if |done| + count > size { return false, done, start; }
    return true, done + Zeros(count), start;
  }

  method UnpackCopy(count: u32, done: seq<u8>, src: seq<u8>, start: nat, size: u32, ghost c: Count)
    returns (ok: bool, out: seq<u8>, cursor: nat)
    requires |done| <= size && start <= |src| && c.WellFormed() && c.Value() == count
    ensures Took(1, c, done, src, start, size, ok, out, cursor)
  {
    hide Accumulated;
    ok, out, cursor := AppendRaw(done, src, start, count, size);
    if ok { assert src[start..][..count] == src[start..cursor] && src[start..][count..] == src[cursor..]; }
  }

  method UnpackRepeated(count: u32, done: seq<u8>, src: seq<u8>, start: nat, size: u32, ghost c: Count)
    returns (ok: bool, out: seq<u8>, cursor: nat)
    requires |done| <= size && start <= |src| && c.WellFormed() && c.Value() == count
    ensures Took(2, c, done, src, start, size, ok, out, cursor)
  {
    hide Accumulated, ParseArg, Repeated;
    var repeatMinusOne;
    ok, repeatMinusOne, cursor := ReadPidataArg(src, start);
    if !ok { return false, done, start; }
    ghost var rest := src[cursor..];
    if cursor > |src| || count > |src| - cursor { return false, done, start; }
    var block := src[cursor..cursor + count];
    cursor := cursor + count;
    assert rest[..count] == block && rest[count..] == src[cursor..];
    ok, out := UnpackRepeat(done, block, repeatMinusOne, size);
  }

  /** The operation its control byte asks for. */
  method UnpackBody(tag: nat, count: u32, done: seq<u8>, src: seq<u8>, start: nat, size: u32, ghost c: Count)
    returns (ok: bool, out: seq<u8>, cursor: nat)
    requires |done| <= size && start <= |src| && c.WellFormed() && c.Value() == count
    ensures Took(tag, c, done, src, start, size, ok, out, cursor)
  {
    hide Accumulated, ParseArg, ParseBlocks, Denote;
    if tag == 0 {
      ok, out, cursor := UnpackZero(count, done, src, start, size, c);
    } else if tag == 1 {
      ok, out, cursor := UnpackCopy(count, done, src, start, size, c);
    } else if tag == 2 {
      ok, out, cursor := UnpackRepeated(count, done, src, start, size, c);
    } else if tag == 3 || tag == 4 {
      ok, out, cursor := UnpackBlocks(tag, count, done, src, start, size, c);
    } else {
      return false, done, start;
    }
  }

  /** One operation: its control byte, its count, and then what its opcode asks for. */
  method UnpackOne(src: seq<u8>, start: nat, done: seq<u8>, size: u32) returns (ok: bool, cursor: nat, out: seq<u8>)
    requires start < |src| && |done| <= size
    ensures var p := ParseOp(src[start..]);
            && ok == (p.Some? && |done + Denote(p.value.0)| <= size)
            && (ok ==> start < cursor <= |src| && src[cursor..] == p.value.1 && out == done + Denote(p.value.0))
            && (!ok ==> out == done)
  {
    hide Accumulated, ParseArg, ParseBody, Denote;
    var control, count := src[start], 0;
    assert src[start..][1..] == src[start + 1..];
    ok, count, cursor := PidataCount(control % 32, src, start + 1);
    if !ok { return false, start, done; }
    ghost var c := ParseHead(src[start..]).value.1;
    ghost var rest := src[cursor..];
    assert ParseHead(src[start..]) == Some((control / 32, c, rest)) && c.Value() == count;
    ok, out, cursor := UnpackBody(control / 32, count, done, src, cursor, size, c);
    if !ok { return false, start, done; }
    assert |src[cursor..]| < |src[start..]|;
  }
}
