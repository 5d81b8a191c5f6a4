/**
  Pattern-initialized data: the instruction stream as a language with an
  encoder, a parser and a meaning (src/PefLoader.cpp; Mac OS Runtime
  Architectures, chapter 8).
 */
module PatternData {
  import opened Words

  type Digit = d: nat | d < 128

  /** A base-128 argument as its digits, most significant first. */
  type Arg = a: seq<Digit> | 1 <= |a| <= 5 witness [0]

  /** The value wraps as the loader's 32-bit accumulator does. */
  function Accumulated(digits: seq<Digit>): u32 {
    if |digits| == 0 then 0
    else Wrap32(Accumulated(digits[..|digits| - 1]) as int * 128 + digits[|digits| - 1])
  }

  function ArgValue(a: Arg): u32 { Accumulated(a) }

  datatype Count = Inline(n: nat) | Extended(arg: Arg) {
    predicate WellFormed() { Inline? ==> 1 <= n < 32 }
    function Value(): u32
      requires WellFormed()
    {
      if Inline? then n else ArgValue(arg)
    }
  }

  datatype Op =
    | Zero(count: Count)
    | Copy(count: Count, data: seq<u8>)
    | Repeat(count: Count, times: Arg, data: seq<u8>)
    | Interleave(count: Count, customSize: Arg, times: Arg, common: seq<u8>, customs: seq<seq<u8>>)
    | InterleaveZero(count: Count, customSize: Arg, times: Arg, customs: seq<seq<u8>>)

  ghost predicate AllOfSize(blocks: seq<seq<u8>>, size: nat) {
    forall i :: 0 <= i < |blocks| ==> |blocks[i]| == size
  }

  /** The blocks an operation carries have the sizes its arguments announce. */
  ghost predicate WellFormed(op: Op) {
    && op.count.WellFormed()
    && match op
       case Zero(_) => true
       case Copy(c, data) => |data| == c.Value()
       case Repeat(c, _, data) => |data| == c.Value()
       case Interleave(c, size, times, common, customs) =>
         |common| == c.Value() && |customs| == ArgValue(times) && AllOfSize(customs, ArgValue(size))
       case InterleaveZero(_, size, times, customs) =>
         |customs| == ArgValue(times) && AllOfSize(customs, ArgValue(size))
  }

  // ----- meaning -----

  function Zeros(n: nat): (z: seq<u8>)
    ensures |z| == n
  {
    seq(n, _ => 0)
  }

  function Repeated(block: seq<u8>, times: nat): (r: seq<u8>)
    ensures |r| == times * |block|
  {
    if times == 0 then [] else Repeated(block, times - 1) + block
  }

  /** Every custom block preceded by the common block. */
  function Woven(common: seq<u8>, customs: seq<seq<u8>>): seq<u8> {
    if |customs| == 0 then [] else Woven(common, customs[..|customs| - 1]) + common + customs[|customs| - 1]
  }

  function Denote(op: Op): seq<u8>
    requires op.count.WellFormed()
  {
    match op
    case Zero(c) => Zeros(c.Value())
    case Copy(_, data) => data
    case Repeat(_, times, data) => Repeated(data, ArgValue(times) + 1)
    case Interleave(_, _, _, common, customs) => Woven(common, customs) + common
    case InterleaveZero(c, _, _, customs) => Woven(Zeros(c.Value()), customs) + Zeros(c.Value())
  }

  // ----- encoding -----

  function EncodeArg(a: seq<Digit>): (b: seq<u8>)
    ensures |b| == |a|
  {
    if |a| == 0 then [] else if |a| == 1 then [a[0]] else [a[0] as int + 128] + EncodeArg(a[1..])
  }

  function Tag(op: Op): nat {
    match op
    case Zero(_) => 0
    case Copy(_, _) => 1
    case Repeat(_, _, _) => 2
    case Interleave(_, _, _, _, _) => 3
    case InterleaveZero(_, _, _, _) => 4
  }

  function EncodeHead(tag: nat, c: Count): seq<u8>
    requires tag < 8 && c.WellFormed()
  {
    if c.Inline? then [tag * 32 + c.n] else [tag * 32] + EncodeArg(c.arg)
  }

  function Joined(blocks: seq<seq<u8>>): seq<u8> {
    if |blocks| == 0 then [] else blocks[0] + Joined(blocks[1..])
  }

  function EncodeBody(op: Op): seq<u8> {
    match op
    case Zero(_) => []
    case Copy(_, data) => data
    case Repeat(_, times, data) => EncodeArg(times) + data
    case Interleave(_, size, times, common, customs) =>
        EncodeArg(size) + (EncodeArg(times) + (common + Joined(customs)))
    case InterleaveZero(_, size, times, customs) => EncodeArg(size) + (EncodeArg(times) + Joined(customs))
  }

  function Encode(op: Op): seq<u8>
    requires op.count.WellFormed()
  {
    EncodeHead(Tag(op), op.count) + EncodeBody(op)
  }

  ghost predicate AllWellFormed(ops: seq<Op>) {
    forall i :: 0 <= i < |ops| ==> WellFormed(ops[i])
  }

  function EncodeAll(ops: seq<Op>): seq<u8>
    requires forall i :: 0 <= i < |ops| ==> ops[i].count.WellFormed()
  {
    if |ops| == 0 then [] else Encode(ops[0]) + EncodeAll(ops[1..])
  }

  function DenoteAll(ops: seq<Op>): seq<u8>
    requires forall i :: 0 <= i < |ops| ==> ops[i].count.WellFormed()
  {
    if |ops| == 0 then [] else Denote(ops[0]) + DenoteAll(ops[1..])
  }

  // ----- parsing -----

  function ReadArg(s: seq<u8>, limit: nat): (a: Option<seq<Digit>>)
    ensures a.Some? ==> 1 <= |a.value| <= limit && |a.value| <= |s|
  {
    if limit == 0 || |s| == 0 then None
    else if s[0] < 128 then Some([s[0]])
    else
      var rest := ReadArg(s[1..], limit - 1);
      if rest.None? then None else Some([s[0] - 128] + rest.value)
  }

  /** An argument and the bytes after it. */
  function ParseArg(s: seq<u8>): (r: Option<(Arg, seq<u8>)>)
    ensures r.Some? ==> |r.value.1| < |s|
  {
    var a := ReadArg(s, 5);
    if a.None? then None else Some((a.value, s[|a.value|..]))
  }

  function ParseHead(s: seq<u8>): (r: Option<(nat, Count, seq<u8>)>)
    ensures r.Some? ==> r.value.1.WellFormed() && |r.value.2| < |s|
  {
    if |s| == 0 then None
    else if s[0] % 32 != 0 then Some((s[0] / 32, Inline(s[0] % 32), s[1..]))
    else
      var a := ParseArg(s[1..]);
      if a.None? then None else Some((s[0] / 32, Extended(a.value.0), a.value.1))
  }

  function Split(s: seq<u8>, size: nat, times: nat): (r: seq<seq<u8>>)
    requires size * times <= |s|
    ensures |r| == times && AllOfSize(r, size)
    decreases times
  {
    if times == 0 then []
    else
      assert size * times == size + size * (times - 1);
      [s[..size]] + Split(s[size..], size, times - 1)
  }

  function ParseBody(tag: nat, c: Count, s: seq<u8>): (r: Option<(Op, seq<u8>)>)
    requires c.WellFormed()
    ensures r.Some? ==> r.value.0.count == c && |r.value.1| <= |s|
  {
    var n := c.Value();
    if tag == 0 then Some((Zero(c), s))
    else if tag == 1 then (if n > |s| then None else Some((Copy(c, s[..n]), s[n..])))
    else if tag == 2 then
      var a := ParseArg(s);
      if a.None? || n > |a.value.1| then None else Some((Repeat(c, a.value.0, a.value.1[..n]), a.value.1[n..]))
    else if tag == 3 || tag == 4 then
      var a := ParseArg(s);
      if a.None? then None
      else
        var b := ParseArg(a.value.1);
        if b.None? then None else ParseBlocks(tag, c, a.value.0, b.value.0, b.value.1)
    else None
  }

  function ParseBlocks(tag: nat, c: Count, size: Arg, times: Arg, s: seq<u8>): (r: Option<(Op, seq<u8>)>)
    requires c.WellFormed()
    ensures r.Some? ==> r.value.0.count == c && |r.value.1| <= |s|
  {
    var blocks := CutBlocks(if tag == 3 then c.Value() else 0, ArgValue(size), ArgValue(times), s);
    if blocks.None? then None
    else
      var (common, customs, rest) := blocks.value;
      Some((if tag == 3 then Interleave(c, size, times, common, customs)
          else InterleaveZero(c, size, times, customs), rest))
  }

  /** The common block, the custom blocks, and what follows. */
  function CutBlocks(n: nat, size: nat, times: nat, s: seq<u8>): (r: Option<(seq<u8>, seq<seq<u8>>, seq<u8>)>)
    ensures r.Some? <==> n + size * times <= |s|
    ensures r.Some? ==> |r.value.0| == n && |r.value.1| == times && AllOfSize(r.value.1, size) && |r.value.2| <= |s|
  {
    var total := size * times;
    if n > |s| || total > |s| - n then None
    else Some((s[..n], Split(s[n..], size, times), s[n + total..]))
  }

  /** The first operation of a nonempty stream and what follows it. */
  function ParseOp(s: seq<u8>): (r: Option<(Op, seq<u8>)>)
    ensures r.Some? ==> r.value.0.count.WellFormed() && |r.value.1| < |s|
  {
    var h := ParseHead(s);
    if h.None? then None else ParseBody(h.value.0, h.value.1, h.value.2)
  }

  function ParseAll(s: seq<u8>): (r: Option<seq<Op>>)
    ensures r.Some? ==> forall i :: 0 <= i < |r.value| ==> r.value[i].count.WellFormed()
    decreases |s|
  {
    if |s| == 0 then Some([])
    else
      var p := ParseOp(s);
      if p.None? then None
      else
        var rest := ParseAll(p.value.1);
        if rest.None? then None else Some([p.value.0] + rest.value)
  }

  /** The bytes already produced, what the rest of the stream denotes, and zeros up to the output size. */
  function Resume(s: seq<u8>, done: seq<u8>, size: nat): Option<seq<u8>> {
    var ops := ParseAll(s);
    if ops.None? then None
    else
      var out := done + DenoteAll(ops.value);
      if |out| > size then None else Some(out + Zeros(size - |out|))
  }

  function Decoded(s: seq<u8>, size: nat): Option<seq<u8>> {
    Resume(s, [], size)
  }

  // ----- parsing undoes encoding -----

  lemma {:induction false} ReadArgOfEncoded(a: seq<Digit>, tail: seq<u8>, limit: nat)
    requires 1 <= |a| <= limit
    ensures ReadArg(EncodeArg(a) + tail, limit) == Some(a)
  {
    var s := EncodeArg(a) + tail;
    if |a| == 1 {
      assert s[0] == a[0] && a == [a[0]];
    } else {
      assert s[1..] == EncodeArg(a[1..]) + tail;
      ReadArgOfEncoded(a[1..], tail, limit - 1);
      assert a == [a[0]] + a[1..];
    }
  }

  lemma ParseArgOfEncoded(a: Arg, tail: seq<u8>)
    ensures ParseArg(EncodeArg(a) + tail) == Some((a, tail))
  {
    ReadArgOfEncoded(a, tail, 5);
  }

  lemma ParseHeadOfEncoded(tag: nat, c: Count, tail: seq<u8>)
    requires tag < 8 && c.WellFormed()
    ensures ParseHead(EncodeHead(tag, c) + tail) == Some((tag, c, tail))
  {
    hide ParseArg;
    var s := EncodeHead(tag, c) + tail;
    if c.Inline? {
      assert s[0] == tag * 32 + c.n && s[1..] == tail;
    } else {
      assert s[0] == tag * 32 && s[1..] == EncodeArg(c.arg) + tail;
      ParseArgOfEncoded(c.arg, tail);
    }
  }

  lemma {:induction false} JoinedLength(blocks: seq<seq<u8>>, size: nat)
    requires AllOfSize(blocks, size)
    ensures |Joined(blocks)| == size * |blocks|
  {
    if |blocks| > 0 {
      JoinedLength(blocks[1..], size);
      assert size * |blocks| == size + size * (|blocks| - 1);
    }
  }

  lemma {:induction false} SplitOfJoined(blocks: seq<seq<u8>>, size: nat, tail: seq<u8>)
    requires AllOfSize(blocks, size)
    ensures size * |blocks| <= |Joined(blocks) + tail|
    ensures Split(Joined(blocks) + tail, size, |blocks|) == blocks
  {
    JoinedLength(blocks, size);
    if |blocks| > 0 {
      var s := Joined(blocks) + tail;
      assert s == blocks[0] + (Joined(blocks[1..]) + tail);
      assert s[..size] == blocks[0] && s[size..] == Joined(blocks[1..]) + tail;
      SplitOfJoined(blocks[1..], size, tail);
      assert blocks == [blocks[0]] + blocks[1..];
    }
  }

  lemma CutOfJoined(common: seq<u8>, size: nat, customs: seq<seq<u8>>, tail: seq<u8>)
    requires AllOfSize(customs, size)
    ensures CutBlocks(|common|, size, |customs|, common + Joined(customs) + tail) == Some((common, customs, tail))
  {
    hide Joined, Split;
    JoinedLength(customs, size);
    var s, n := common + Joined(customs) + tail, |common|;
    assert s[n..] == Joined(customs) + tail;
    assert s[..n] == common;
    SplitOfJoined(customs, size, tail);
    assert s[n + |Joined(customs)|..] == tail;
  }

  lemma ParseBlocksOfEncoded(tag: nat, c: Count, size: Arg, times: Arg, common: seq<u8>, customs: seq<seq<u8>>,
      tail: seq<u8>)
    requires c.WellFormed() && |customs| == ArgValue(times) && AllOfSize(customs, ArgValue(size))
    requires |common| == if tag == 3 then c.Value() else 0
    ensures ParseBlocks(tag, c, size, times, common + Joined(customs) + tail)
         == Some((if tag == 3 then Interleave(c, size, times, common, customs)
             else InterleaveZero(c, size, times, customs), tail))
  {
    hide Accumulated, Split, CutBlocks;
    CutOfJoined(common, ArgValue(size), customs, tail);
  }

  lemma ParseBodyOfEncoded(op: Op, tail: seq<u8>)
    requires WellFormed(op)
    ensures ParseBody(Tag(op), op.count, EncodeBody(op) + tail) == Some((op, tail))
  {
    hide Accumulated, ParseArg, ParseBlocks, EncodeArg, Joined;
    var s := EncodeBody(op) + tail;
    match op
    case Zero(c) => assert s == tail;
    case Copy(c, data) => assert s[..|data|] == data && s[|data|..] == tail;
    case Repeat(c, times, data) =>
      assert s == EncodeArg(times) + (data + tail);
      ParseArgOfEncoded(times, data + tail);
      assert (data + tail)[..|data|] == data && (data + tail)[|data|..] == tail;
    case Interleave(c, size, times, common, customs) =>
      var blocks := common + Joined(customs) + tail;
      assert s == EncodeArg(size) + (EncodeArg(times) + blocks);
      ParseArgOfEncoded(size, EncodeArg(times) + blocks);
      ParseArgOfEncoded(times, blocks);
      ParseBlocksOfEncoded(3, c, size, times, common, customs, tail);
    case InterleaveZero(c, size, times, customs) =>
      var blocks := [] + Joined(customs) + tail;
      assert s == EncodeArg(size) + (EncodeArg(times) + blocks);
      ParseArgOfEncoded(size, EncodeArg(times) + blocks);
      ParseArgOfEncoded(times, blocks);
      ParseBlocksOfEncoded(4, c, size, times, [], customs, tail);
  }

  lemma ParseOpOfEncoded(op: Op, tail: seq<u8>)
    requires WellFormed(op)
    ensures ParseOp(Encode(op) + tail) == Some((op, tail))
  {
    hide ParseHead, ParseBody, EncodeBody, EncodeHead;
    ParseHeadOfEncoded(Tag(op), op.count, EncodeBody(op) + tail);
    assert Encode(op) + tail == EncodeHead(Tag(op), op.count) + (EncodeBody(op) + tail);
    ParseBodyOfEncoded(op, tail);
  }

  lemma {:induction false} ParseAllOfEncoded(ops: seq<Op>)
    requires AllWellFormed(ops)
    ensures ParseAll(EncodeAll(ops)) == Some(ops)
  {
    hide ParseOp, Encode;
    if |ops| > 0 {
      ParseOpOfEncoded(ops[0], EncodeAll(ops[1..]));
      ParseAllOfEncoded(ops[1..]);
      assert ops == [ops[0]] + ops[1..];
    }
  }

  // ----- and encoding undoes parsing -----

  lemma {:induction false} EncodedOfReadArg(s: seq<u8>, limit: nat)
    requires ReadArg(s, limit).Some?
    ensures EncodeArg(ReadArg(s, limit).value) == s[..|ReadArg(s, limit).value|]
  {
    if s[0] >= 128 {
      EncodedOfReadArg(s[1..], limit - 1);
      var a := ReadArg(s, limit).value;
      assert a[1..] == ReadArg(s[1..], limit - 1).value;
      assert s[..|a|] == [s[0]] + s[1..][..|a| - 1];
    }
  }

  lemma EncodedOfParseArg(s: seq<u8>)
    requires ParseArg(s).Some?
    ensures EncodeArg(ParseArg(s).value.0) + ParseArg(s).value.1 == s
  {
    EncodedOfReadArg(s, 5);
  }

  lemma EncodedOfParseHead(s: seq<u8>)
    requires ParseHead(s).Some?
    ensures var h := ParseHead(s).value; h.0 < 8 && EncodeHead(h.0, h.1) + h.2 == s
  {
    hide ParseArg;
    assert s == [s[0]] + s[1..];
    if s[0] % 32 == 0 { EncodedOfParseArg(s[1..]); }
  }

  lemma Slices(s: seq<u8>, a: nat, b: nat)
    requires a + b <= |s|
    ensures s[..a + b] == s[..a] + s[a..][..b]
    ensures s[a + b..] == s[a..][b..]
  {
  }

  lemma {:induction false} JoinedOfSplit(s: seq<u8>, size: nat, times: nat, total: nat)
    requires total == size * times && total <= |s|
    ensures Joined(Split(s, size, times)) == s[..total]
    decreases times
  {
    if times > 0 {
      assert total - size == size * (times - 1);
      JoinedOfSplit(s[size..], size, times - 1, total - size);
      Slices(s, size, total - size);
    }
  }

  lemma JoinedOfCut(n: nat, size: nat, times: nat, s: seq<u8>)
    requires CutBlocks(n, size, times, s).Some?
    ensures var r := CutBlocks(n, size, times, s).value; r.0 + Joined(r.1) + r.2 == s
  {
    var total := size * times;
    JoinedOfSplit(s[n..], size, times, total);
    assert s == s[..n] + s[n..][..total] + s[n + total..];
  }

  lemma EncodedOfParseBlocks(tag: nat, c: Count, size: Arg, times: Arg, s: seq<u8>)
    requires c.WellFormed() && (tag == 3 || tag == 4) && ParseBlocks(tag, c, size, times, s).Some?
    ensures var op := ParseBlocks(tag, c, size, times, s).value.0;
            && WellFormed(op) && Tag(op) == tag
            && EncodeBody(op) + ParseBlocks(tag, c, size, times, s).value.1 == EncodeArg(size) + (EncodeArg(times) + s)
  {
    hide Accumulated, EncodeArg, Joined, CutBlocks;
    var n := if tag == 3 then c.Value() else 0;
    JoinedOfCut(n, ArgValue(size), ArgValue(times), s);
    var (common, customs, rest) := CutBlocks(n, ArgValue(size), ArgValue(times), s).value;
    var x, y, z := EncodeArg(size), EncodeArg(times), Joined(customs);
    assert x + (y + (common + z)) + rest == x + (y + (common + z + rest));
    if tag == 4 { assert common + z == z; }
  }

  lemma EncodedOfParseBody(tag: nat, c: Count, s: seq<u8>)
    requires c.WellFormed() && ParseBody(tag, c, s).Some?
    ensures var op := ParseBody(tag, c, s).value.0;
            WellFormed(op) && Tag(op) == tag && EncodeBody(op) + ParseBody(tag, c, s).value.1 == s
  {
    hide Accumulated, ParseArg, ParseBlocks, EncodeArg;
    var n := c.Value();
    if tag == 2 {
      EncodedOfParseArg(s);
      var rest := ParseArg(s).value.1;
      assert rest == rest[..n] + rest[n..];
      assert EncodeArg(ParseArg(s).value.0) + rest[..n] + rest[n..] == s;
    } else if tag == 3 || tag == 4 {
      EncodedOfParseArg(s);
      var rest := ParseArg(s).value.1;
      EncodedOfParseArg(rest);
      EncodedOfParseBlocks(tag, c, ParseArg(s).value.0, ParseArg(rest).value.0, ParseArg(rest).value.1);
    }
  }

  lemma EncodedOfParseOp(s: seq<u8>)
    requires ParseOp(s).Some?
    ensures WellFormed(ParseOp(s).value.0) && Encode(ParseOp(s).value.0) + ParseOp(s).value.1 == s
  {
    hide ParseHead, ParseBody, EncodeBody, EncodeHead;
    EncodedOfParseHead(s);
    var h := ParseHead(s).value;
    EncodedOfParseBody(h.0, h.1, h.2);
    var p := ParseBody(h.0, h.1, h.2).value;
    assert EncodeHead(h.0, h.1) + EncodeBody(p.0) + p.1 == EncodeHead(h.0, h.1) + (EncodeBody(p.0) + p.1);
  }

  lemma {:induction false} EncodedOfParseAll(s: seq<u8>)
    requires ParseAll(s).Some?
    ensures AllWellFormed(ParseAll(s).value) && EncodeAll(ParseAll(s).value) == s
    decreases |s|
  {
    hide ParseOp, Encode, WellFormed;
    if |s| > 0 {
      EncodedOfParseOp(s);
      EncodedOfParseAll(ParseOp(s).value.1);
      var ops := ParseAll(s).value;
      assert ops[0] == ParseOp(s).value.0 && ops[1..] == ParseAll(ParseOp(s).value.1).value;
    }
  }

  // ----- the round trip -----

  /** Decoding the encoding of any operations whose bytes fit yields those bytes, padded with zeros. */
  lemma RoundTrip(ops: seq<Op>, size: nat)
    requires AllWellFormed(ops)
    ensures Decoded(EncodeAll(ops), size)
         == if |DenoteAll(ops)| <= size then Some(DenoteAll(ops) + Zeros(size - |DenoteAll(ops)|)) else None
  {
    ParseAllOfEncoded(ops);
    assert [] + DenoteAll(ops) == DenoteAll(ops);
  }

  /**
    A stream is decodable exactly when it encodes some operations whose bytes
    fit; the output has exactly the size asked for.
   */
  lemma DecodableExactlyWhenEncoded(s: seq<u8>, size: nat)
    ensures Decoded(s, size).Some? <==> exists ops ::
              AllWellFormed(ops) && EncodeAll(ops) == s && |DenoteAll(ops)| <= size
    ensures Decoded(s, size).Some? ==> |Decoded(s, size).value| == size
  {
    if Decoded(s, size).Some? {
      EncodedOfParseAll(s);
      var ops := ParseAll(s).value;
      assert [] + DenoteAll(ops) == DenoteAll(ops);
    }
    if ops :| AllWellFormed(ops) && EncodeAll(ops) == s && |DenoteAll(ops)| <= size {
      RoundTrip(ops, size);
    }
  }

  // ----- every count has encodings of every sufficient width -----

  function Digits(v: nat, width: nat): (a: seq<Digit>)
    ensures |a| == width
  {
    if width == 0 then [] else Digits(v / 128, width - 1) + [v % 128]
  }

  function Pow128(n: nat): nat { if n == 0 then 1 else 128 * Pow128(n - 1) }

  lemma {:induction false} DigitsDenote(v: u32, width: nat)
    requires v < Pow128(width)
    ensures Accumulated(Digits(v, width)) == v
    decreases width
  {
    if width > 0 {
      DigitsDenote(v / 128, width - 1);
      assert Digits(v, width)[..width - 1] == Digits(v / 128, width - 1);
    }
  }
}
