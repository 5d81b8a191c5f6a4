/**
  Pattern-initialized data byte by byte: which bytes an operation of the stream
  produces, told on the bytes of the stream alone (src/PefLoader.cpp).
 */
module PatternBytes {
  import opened Words
  import opened Numbers
  import opened PatternData

  // ----- numbers and headers in a stream -----

  /** At most five bytes, of which exactly the last is below 128. */
  predicate IsArgument(b: seq<u8>) {
    1 <= |b| <= 5 && b[|b| - 1] < 128 && forall i :: 0 <= i < |b| - 1 ==> b[i] >= 128
  }

  /** The low seven bits of every byte, most significant first. */
  function Spelled(b: seq<u8>): nat {
    if |b| == 0 then 0 else 128 * Spelled(b[..|b| - 1]) + b[|b| - 1] % 128
  }

  function Argument(b: seq<u8>): u32 { Spelled(b) % 0x1_0000_0000 }

  /** An opcode in the top three bits of a byte, with the count in the others, or after it if they are zero. */
  predicate Opens(h: seq<u8>, opcode: nat, n: nat) {
    || (|h| == 1 && 1 <= n < 32 && h[0] == opcode * 32 + n)
    || (|h| >= 2 && h[0] == opcode * 32 && IsArgument(h[1..]) && n == Argument(h[1..]))
  }

  // ----- what a stream yields -----

  /** Byte k of the output is byte i of the source. */
  predicate Same(out: seq<u8>, k: int, source: seq<u8>, i: int) {
    0 <= k < |out| && 0 <= i < |source| && out[k] == source[i]
  }

  predicate PaddedFrom(out: seq<u8>, length: nat, size: nat) {
    |out| == size && forall k :: length <= k < size ==> out[k] == 0
  }

  /** Byte k of blocks that alternate with pieces of data of the given size, beginning with the block. */
  predicate Alternating(out: seq<u8>, k: nat, block: seq<u8>, data: seq<u8>, piece: nat) {
    var period := |block| + piece;
    && period > 0
    && var q, j := k / period, k % period;
       if j < |block| then Same(out, k, block, j) else Same(out, k, data, q * piece + (j - |block|))
  }

  /**
    The room that a block repeated some times takes, or some rounds of a block
    and a piece with the block at the end.
   */
  function RepeatedLength(n: nat, times: nat): nat { times * n }
  function InterleavedLength(n: nat, piece: nat, times: nat): nat { times * (n + piece) + n }

  /** The output is the block over and over, if it fits, and then zeros. */
  predicate Repeats(s: seq<u8>, size: nat, block: seq<u8>, times: nat) {
    var out, length := Decoded(s, size), RepeatedLength(|block|, times);
    && (out.Some? <==> length <= size)
    && (out.Some? ==>
        && PaddedFrom(out.value, length, size)
        && forall k: nat :: k < length ==> |block| > 0 && Same(out.value, k, block, k % |block|))
  }

  /** The output is the block and a piece of the data in turn, with the block at the end, if it fits, and then zeros. */
  predicate Interleaves(s: seq<u8>, size: nat, block: seq<u8>, data: seq<u8>, piece: nat, times: nat) {
    var out, length := Decoded(s, size), InterleavedLength(|block|, piece, times);
    && (out.Some? <==> length <= size)
    && (out.Some? ==>
        && PaddedFrom(out.value, length, size)
        && forall k: nat :: k < length ==> Alternating(out.value, k, block, data, piece))
  }

  /** The stream decodes to so many bytes: it needs that much room and no more. */
  predicate Exactly(s: seq<u8>, n: nat) {
    Decoded(s, n).Some? && (n == 0 || Decoded(s, n - 1).None?)
  }

  // ----- from bytes to operations -----

  function DigitsOf(b: seq<u8>): (d: seq<Digit>)
    ensures |d| == |b|
  {
    seq(|b|, i requires 0 <= i < |b| => b[i] % 128)
  }

  lemma {:induction false} DigitsAccumulate(b: seq<u8>)
    ensures Accumulated(DigitsOf(b)) == Argument(b)
  {
    if |b| > 0 {
      var init := b[..|b| - 1];
      DigitsAccumulate(init);
      assert DigitsOf(b)[..|b| - 1] == DigitsOf(init);
      WrapStep(Spelled(init), b[|b| - 1] % 128);
    }
  }

  lemma WrapStep(x: nat, d: nat)
    ensures Wrap32(Wrap32(x) * 128 + d) == Wrap32(128 * x + d)
  {
    var w := 0x1_0000_0000;
    assert 128 * x + d == w * (128 * (x / w)) + (128 * (x % w) + d);
    var y := 128 * (x % w) + d;
    DivUnique(128 * x + d, w, 128 * (x / w) + y / w, y % w);
  }

  lemma {:induction false} DigitsEncode(b: seq<u8>)
    requires |b| >= 1 && b[|b| - 1] < 128 && forall i :: 0 <= i < |b| - 1 ==> b[i] >= 128
    ensures EncodeArg(DigitsOf(b)) == b
  {
    var d := DigitsOf(b);
    if |b| == 1 {
      assert EncodeArg(d) == [d[0]];
    } else {
      assert d[1..] == DigitsOf(b[1..]);
      DigitsEncode(b[1..]);
      assert b == [b[0]] + b[1..];
    }
  }

  lemma ArgumentArg(b: seq<u8>) returns (a: Arg)
    requires IsArgument(b)
    ensures EncodeArg(a) == b && ArgValue(a) == Argument(b)
  {
    a := DigitsOf(b);
    DigitsEncode(b);
    DigitsAccumulate(b);
  }

  lemma HeadCount(h: seq<u8>, opcode: nat, n: nat) returns (c: Count)
    requires Opens(h, opcode, n) && opcode < 8
    ensures c.WellFormed() && c.Value() == n && EncodeHead(opcode, c) == h
  {
    if |h| == 1 {
      c := Inline(n);
    } else {
      var a := ArgumentArg(h[1..]);
      c := Extended(a);
      assert h == [h[0]] + h[1..];
    }
  }

  lemma OneOperation(op: Op, s: seq<u8>, size: nat)
    requires WellFormed(op) && s == Encode(op)
    ensures Decoded(s, size).Some? <==> |Denote(op)| <= size
    ensures Decoded(s, size).Some? ==>
              PaddedFrom(Decoded(s, size).value, |Denote(op)|, size)
                  && Decoded(s, size).value[..|Denote(op)|] == Denote(op)
  {
    DecodedOne(op, size);
    hide Encode, Denote, Decoded, WellFormed;
    if |Denote(op)| <= size { Padding(Denote(op), size); }
  }

  lemma DecodedOne(op: Op, size: nat)
    requires WellFormed(op)
    ensures Decoded(Encode(op), size)
         == if |Denote(op)| <= size then Some(Denote(op) + Zeros(size - |Denote(op)|)) else None
  {
    assert AllWellFormed([op]) && op.count.WellFormed();
    hide Encode, Denote, Decoded, WellFormed, Zeros;
    RoundTrip([op], size);
    assert EncodeAll([op]) == Encode(op) + EncodeAll([]) == Encode(op);
    assert DenoteAll([op]) == Denote(op) + DenoteAll([]) == Denote(op);
  }

  lemma Padding(d: seq<u8>, size: nat)
    requires |d| <= size
    ensures var out := d + Zeros(size - |d|); PaddedFrom(out, |d|, size) && out[..|d|] == d
  {
  }

  // ----- zeros and copies -----

  lemma ZeroBytes(h: seq<u8>, n: nat, size: nat)
    requires Opens(h, 0, n)
    ensures Decoded(h, size).Some? <==> n <= size
    ensures n <= size ==> PaddedFrom(Decoded(h, size).value, 0, size)
  {
    hide Opens, Decoded;
    var c := HeadCount(h, 0, n);
    var op := Zero(c);
    assert Encode(op) == h + [] == h;
    OneOperation(op, h, size);
    if n <= size {
      var out := Decoded(h, size).value;
      forall k | 0 <= k < size ensures out[k] == 0 {
        if k < n { assert out[k] == out[..n][k]; }
      }
    }
  }

  lemma CopyBytes(h: seq<u8>, block: seq<u8>, size: nat)
    requires Opens(h, 1, |block|)
    ensures Decoded(h + block, size).Some? <==> |block| <= size
    ensures |block| <= size ==>
              var out := Decoded(h + block, size).value;
              PaddedFrom(out, |block|, size) && forall k :: 0 <= k < |block| ==> out[k] == block[k]
  {
    hide Opens, Decoded;
    var c := HeadCount(h, 1, |block|);
    OneOperation(Copy(c, block), h + block, size);
    if |block| <= size {
      var out := Decoded(h + block, size).value;
      assert forall k :: 0 <= k < |block| ==> out[k] == out[..|block|][k];
    }
  }

  // ----- repeats -----

  lemma {:induction false} RepeatedAt(block: seq<u8>, times: nat, k: nat)
    requires k < times * |block|
    ensures |block| > 0 && Same(Repeated(block, times), k, block, k % |block|)
  {
    var before := (times - 1) * |block|;
    assert times * |block| == before + |block|;
    if k < before {
      RepeatedAt(block, times - 1, k);
    } else {
      DivUnique(k, |block|, times - 1, k - before);
    }
  }

  /** A block repeated as often as the argument says, and once more. */
  lemma RepeatBytes(h: seq<u8>, times: seq<u8>, block: seq<u8>, size: nat)
    requires Opens(h, 2, |block|) && IsArgument(times)
    ensures Repeats(h + times + block, size, block, Argument(times) + 1)
  {
    hide Opens, Decoded, IsArgument, Argument, Repeats;
    var c := HeadCount(h, 2, |block|);
    var t := ArgumentArg(times);
    var op, s := Repeat(c, t, block), h + times + block;
    assert Encode(op) == h + (times + block) == s;
    RepeatedBytes(op, s, block, Argument(times) + 1, size);
  }

  lemma RepeatedBytes(op: Op, s: seq<u8>, block: seq<u8>, times: nat, size: nat)
    requires WellFormed(op) && s == Encode(op) && Denote(op) == Repeated(block, times)
    ensures Repeats(s, size, block, times)
  {
    OneOperation(op, s, size);
    hide Decoded, Denote, Encode, WellFormed, PaddedFrom, Repeated;
    var length := RepeatedLength(|block|, times);
    if length <= size {
      var out := Decoded(s, size).value;
      forall k: nat | k < length ensures |block| > 0 && Same(out, k, block, k % |block|) {
        RepeatedAt(block, times, k);
        assert out[k] == out[..length][k];
      }
    }
  }

  // ----- interleaved blocks -----

  lemma OneMore(n: nat, m: nat)
    requires n >= 1
    ensures n * m == (n - 1) * m + m && m * n == m * (n - 1) + m
  {
  }

  /** Where piece q begins. */
  function Start(piece: nat, q: nat): nat { if q == 0 then 0 else Start(piece, q - 1) + piece }

  lemma {:induction false} StartIs(piece: nat, q: nat)
    ensures Start(piece, q) == q * piece
  {
    if q > 0 {
      StartIs(piece, q - 1);
      OneMore(q, piece);
    }
  }

  lemma {:induction false} SplitAt(data: seq<u8>, piece: nat, times: nat, q: nat)
    requires piece * times == |data| && q < times
    ensures var start := Start(piece, q);
            start + piece <= |data| && Split(data, piece, times)[q] == data[start..start + piece]
    decreases times
  {
    SplitOnce(data, piece, times);
    hide Split, AllOfSize;
    if q > 0 {
      SplitAt(data[piece..], piece, times - 1, q - 1);
      SliceOfRest(data, piece, Start(piece, q - 1));
    }
  }

  lemma SliceOfRest(data: seq<u8>, piece: nat, start: nat)
    requires piece <= |data| && start + piece <= |data[piece..]|
    ensures data[piece..][start..start + piece] == data[start + piece..start + piece + piece]
  {
  }

  lemma SplitOnce(data: seq<u8>, piece: nat, times: nat)
    requires piece * times == |data| && times >= 1
    ensures piece <= |data| && piece * (times - 1) == |data[piece..]|
    ensures Split(data, piece, times) == [data[..piece]] + Split(data[piece..], piece, times - 1)
  {
    OneMore(times, piece);
  }

  lemma {:induction false} WovenLength(block: seq<u8>, customs: seq<seq<u8>>, piece: nat)
    requires AllOfSize(customs, piece)
    ensures |Woven(block, customs)| == |customs| * (|block| + piece)
  {
    if |customs| > 0 {
      WovenLength(block, customs[..|customs| - 1], piece);
      OneMore(|customs|, |block| + piece);
    }
  }

  /** Byte k of the output is byte j of round q: of the common block, or of the custom block after it. */
  predicate InRound(out: seq<u8>, k: int, block: seq<u8>, customs: seq<seq<u8>>, q: nat, j: nat) {
    if j < |block| then Same(out, k, block, j) else q < |customs| && Same(out, k, customs[q], j - |block|)
  }

  lemma {:induction false} WovenAt(block: seq<u8>, customs: seq<seq<u8>>, piece: nat, period: nat, q: nat, j: nat)
    requires AllOfSize(customs, piece) && period == |block| + piece && q < |customs| && j < period
    ensures InRound(Woven(block, customs), q * period + j, block, customs, q, j)
  {
    var n, k := |customs| - 1, q * period + j;
    var init := customs[..n];
    WovenLength(block, init, piece);
    assert AllOfSize(init, piece) && |customs[n]| == piece;
    assert Woven(block, customs) == Woven(block, init) + block + customs[n];
    hide Woven, AllOfSize;
    if q < n {
      WovenAt(block, init, piece, period, q, j);
    }
  }

  predicate Round(out: seq<u8>, k: nat, block: seq<u8>, customs: seq<seq<u8>>, piece: nat) {
    var period := |block| + piece;
    period > 0 && InRound(out, k, block, customs, k / period, k % period)
  }

  /** Position j of round q; in the last round only the block is left. */
  lemma Position(k: nat, n: nat, period: nat, last: nat) returns (q: nat, j: nat)
    requires k < n * period + last && last <= period
    ensures period > 0 && k == q * period + j && j < period && (q < n || (q == n && j < last))
    ensures q == k / period && j == k % period
  {
    Product(n, period);
    if k < n * period {
      q, j := k / period, k % period;
      Quotient(k, period);
      if q >= n { Scaled(n, q, period); }
    } else {
      q, j := n, k - n * period;
      DivUnique(k, period, n, j);
    }
  }

  lemma Quotient(k: nat, period: nat)
    requires period > 0
    ensures k / period * period + k % period == k
  {
  }

  /** The rounds, and one more block after them. */
  lemma WovenThenBlock(block: seq<u8>, customs: seq<seq<u8>>, piece: nat, k: nat)
    requires AllOfSize(customs, piece) && k < InterleavedLength(|block|, piece, |customs|)
    ensures Round(Woven(block, customs) + block, k, block, customs, piece)
  {
    hide InRound, Woven, AllOfSize;
    var period := |block| + piece;
    var q, j := Position(k, |customs|, period, |block|);
    WovenRound(block, customs, piece, period, q, j);
  }

  lemma WovenRound(block: seq<u8>, customs: seq<seq<u8>>, piece: nat, period: nat, q: nat, j: nat)
    requires AllOfSize(customs, piece) && period == |block| + piece && j < period
    requires q < |customs| || (q == |customs| && j < |block|)
    ensures InRound(Woven(block, customs) + block, q * period + j, block, customs, q, j)
  {
    hide InRound, Woven, AllOfSize;
    WovenLength(block, customs, piece);
    if q < |customs| { WovenAt(block, customs, piece, period, q, j); }
    BeforeLast(Woven(block, customs), block, customs, q * period + j, q, j);
  }

  lemma BeforeLast(woven: seq<u8>, block: seq<u8>, customs: seq<seq<u8>>, k: int, q: nat, j: nat)
    requires if q < |customs| then InRound(woven, k, block, customs, q, j) else j < |block| && k == |woven| + j
    ensures InRound(woven + block, k, block, customs, q, j)
  {
  }

  lemma RoundAlternates(out: seq<u8>, k: nat, block: seq<u8>, data: seq<u8>, piece: nat, times: nat)
    requires piece * times == |data| && Round(out, k, block, Split(data, piece, times), piece)
    ensures Alternating(out, k, block, data, piece)
  {
    hide Split;
    var q, j := k / (|block| + piece), k % (|block| + piece);
    if j >= |block| {
      SplitAt(data, piece, times, q);
      StartIs(piece, q);
      hide Start;
      assert Split(data, piece, times)[q][j - |block|] == data[q * piece + (j - |block|)];
    }
  }

  lemma InterleavedBytes(op: Op, s: seq<u8>, block: seq<u8>, data: seq<u8>, piece: nat, times: nat, size: nat)
    requires WellFormed(op) && s == Encode(op) && piece * times == |data|
    requires Denote(op) == Woven(block, Split(data, piece, times)) + block
    ensures Interleaves(s, size, block, data, piece, times)
  {
    var customs := Split(data, piece, times);
    WovenLength(block, customs, piece);
    assert |Denote(op)| == InterleavedLength(|block|, piece, times);
    OneOperation(op, s, size);
    hide Decoded, Denote, Encode, WellFormed, Alternating, Woven, Split, InterleavedLength, PaddedFrom;
    if |Denote(op)| <= size {
      var out := Decoded(s, size).value;
      forall k: nat | k < |Denote(op)| ensures Alternating(out, k, block, data, piece) {
        WovenPrefix(out, Denote(op), block, data, piece, times, k);
      }
    }
  }

  lemma WovenPrefix(out: seq<u8>, inner: seq<u8>, block: seq<u8>, data: seq<u8>, piece: nat, times: nat, k: nat)
    requires piece * times == |data| && |inner| <= |out| && out[..|inner|] == inner && k < |inner|
    requires inner == Woven(block, Split(data, piece, times)) + block
    ensures Alternating(out, k, block, data, piece)
  {
    hide Alternating, Round, Woven, Split;
    var customs := Split(data, piece, times);
    WovenLength(block, customs, piece);
    assert |inner| == InterleavedLength(|block|, piece, times);
    WovenThenBlock(block, customs, piece, k);
    RoundOfPrefix(inner, out, k, block, customs, piece);
    RoundAlternates(out, k, block, data, piece, times);
  }

  lemma RoundOfPrefix(inner: seq<u8>, out: seq<u8>, k: nat, block: seq<u8>, customs: seq<seq<u8>>, piece: nat)
    requires |inner| <= |out| && out[..|inner|] == inner && k < |inner| && Round(inner, k, block, customs, piece)
    ensures Round(out, k, block, customs, piece)
  {
    assert out[k] == out[..|inner|][k];
  }

  /** Rounds of a common block and a piece of the data, and the common block once more at the end. */
  lemma InterleaveBytes(h: seq<u8>, piece: seq<u8>, times: seq<u8>, block: seq<u8>, data: seq<u8>, size: nat)
    requires Opens(h, 3, |block|) && IsArgument(piece) && IsArgument(times)
    requires |data| == Argument(piece) * Argument(times)
    ensures Interleaves(h + piece + times + block + data, size, block, data, Argument(piece), Argument(times))
  {
    hide Opens, Interleaves, IsArgument, Argument;
    var c := HeadCount(h, 3, |block|);
    var p := ArgumentArg(piece);
    var t := ArgumentArg(times);
    InterleaveOf(h, c, p, t, block, data, Argument(piece), Argument(times), size);
  }

  lemma InterleaveOf(h: seq<u8>, c: Count, p: Arg, t: Arg, block: seq<u8>, data: seq<u8>, piece: nat, times: nat,
      size: nat)
    requires c.WellFormed() && c.Value() == |block| && EncodeHead(3, c) == h
    requires ArgValue(p) == piece && ArgValue(t) == times && |data| == piece * times
    ensures Interleaves(h + EncodeArg(p) + EncodeArg(t) + block + data, size, block, data, piece, times)
  {
    hide Interleaves, Woven, Split, Joined, ArgValue, EncodeArg, EncodeHead;
    var x, y, op := EncodeArg(p), EncodeArg(t), Interleave(c, p, t, block, Split(data, piece, times));
    JoinedOfSplit(data, piece, times, |data|);
    assert data[..|data|] == data;
    assert Encode(op) == h + (x + (y + (block + data))) == h + x + y + block + data;
    InterleavedBytes(op, h + x + y + block + data, block, data, piece, times, size);
  }

  /** The same with zeros for the common block, which is not in the stream. */
  lemma InterleaveZeroBytes(h: seq<u8>, n: nat, piece: seq<u8>, times: seq<u8>, data: seq<u8>, zeros: seq<u8>,
      size: nat)
    requires Opens(h, 4, n) && IsArgument(piece) && IsArgument(times)
    requires |data| == Argument(piece) * Argument(times)
    requires |zeros| == n && forall i :: 0 <= i < n ==> zeros[i] == 0
    ensures Interleaves(h + piece + times + data, size, zeros, data, Argument(piece), Argument(times))
  {
    hide Opens, Interleaves, IsArgument, Argument;
    var c := HeadCount(h, 4, n);
    var p := ArgumentArg(piece);
    var t := ArgumentArg(times);
    assert zeros == Zeros(n);
    InterleaveZeroOf(h, c, p, t, data, Argument(piece), Argument(times), size);
  }

  lemma InterleaveZeroOf(h: seq<u8>, c: Count, p: Arg, t: Arg, data: seq<u8>, piece: nat, times: nat, size: nat)
    requires c.WellFormed() && EncodeHead(4, c) == h
    requires ArgValue(p) == piece && ArgValue(t) == times && |data| == piece * times
    ensures Interleaves(h + EncodeArg(p) + EncodeArg(t) + data, size, Zeros(c.Value()), data, piece, times)
  {
    hide Interleaves, Woven, Split, Joined, ArgValue, EncodeArg, EncodeHead, Zeros;
    var x, y, op := EncodeArg(p), EncodeArg(t), InterleaveZero(c, p, t, Split(data, piece, times));
    JoinedOfSplit(data, piece, times, |data|);
    assert data[..|data|] == data;
    assert Encode(op) == h + (x + (y + data)) == h + x + y + data;
    InterleavedBytes(op, h + x + y + data, Zeros(c.Value()), data, piece, times, size);
  }

  // ----- whole streams -----

  lemma {:induction false} ParseConcat(s: seq<u8>, t: seq<u8>)
    requires ParseAll(s).Some?
    ensures ParseAll(s + t).Some? <==> ParseAll(t).Some?
    ensures ParseAll(t).Some? ==> ParseAll(s + t) == Some(ParseAll(s).value + ParseAll(t).value)
    decreases |s|
  {
    hide ParseOp, Encode, WellFormed;
    if |s| == 0 {
      assert s + t == t;
      if ParseAll(t).Some? { assert [] + ParseAll(t).value == ParseAll(t).value; }
    } else {
      var (op, rest) := ParseOp(s).value;
      EncodedOfParseOp(s);
      assert s + t == Encode(op) + (rest + t);
      ParseOpOfEncoded(op, rest + t);
      ParseConcat(rest, t);
      assert ParseAll(s) == Some([op] + ParseAll(rest).value);
      if ParseAll(t).Some? {
        assert [op] + (ParseAll(rest).value + ParseAll(t).value) == [op] + ParseAll(rest).value + ParseAll(t).value;
      }
    }
  }

  lemma {:induction false} DenoteConcat(xs: seq<Op>, ys: seq<Op>)
    requires forall i :: 0 <= i < |xs| ==> xs[i].count.WellFormed()
    requires forall i :: 0 <= i < |ys| ==> ys[i].count.WellFormed()
    ensures forall i :: 0 <= i < |xs + ys| ==> (xs + ys)[i].count.WellFormed()
    ensures DenoteAll(xs + ys) == DenoteAll(xs) + DenoteAll(ys)
  {
    hide Denote;
    if |xs| == 0 {
      assert xs + ys == ys;
    } else {
      assert (xs + ys)[1..] == xs[1..] + ys;
      DenoteConcat(xs[1..], ys);
    }
  }

  lemma DecodedIs(s: seq<u8>, size: nat)
    ensures Decoded(s, size)
         == if ParseAll(s).None? || |DenoteAll(ParseAll(s).value)| > size then None
            else var d := DenoteAll(ParseAll(s).value); Some(d + Zeros(size - |d|))
  {
    hide ParseAll, DenoteAll, Zeros;
    if ParseAll(s).Some? { assert [] + DenoteAll(ParseAll(s).value) == DenoteAll(ParseAll(s).value); }
  }

  /** One stream after another decodes to the one's bytes and then the other's, in the room that is left. */
  lemma Concatenation(s: seq<u8>, t: seq<u8>, n: nat, size: nat)
    requires Exactly(s, n)
    ensures Decoded(s + t, size)
         == if size < n || Decoded(t, size - n).None? then None
            else Some(Decoded(s, n).value + Decoded(t, size - n).value)
  {
    hide ParseAll, DenoteAll, Decoded, Zeros;
    DecodedIs(s, n);
    if n > 0 { DecodedIs(s, n - 1); }
    DecodedIs(s + t, size);
    var d := DenoteAll(ParseAll(s).value);
    assert Zeros(0) == [] && d + Zeros(0) == d;
    ParseConcat(s, t);
    if n <= size { DecodedIs(t, size - n); }
    if ParseAll(t).Some? {
      DenoteConcat(ParseAll(s).value, ParseAll(t).value);
      if n <= size {
        var e := DenoteAll(ParseAll(t).value);
        if |e| <= size - n { assert d + (e + Zeros(size - n - |e|)) == d + e + Zeros(size - |d + e|); }
      }
    }
  }

  /** A stream that decodes at all decodes to a definite number of bytes, with zeros in any room beyond. */
  lemma ExactSize(s: seq<u8>, size: nat) returns (n: nat)
    requires Decoded(s, size).Some?
    ensures n <= size && Exactly(s, n)
    ensures forall room: nat :: Decoded(s, room).Some? <==> n <= room
    ensures Decoded(s, size).value[..n] == Decoded(s, n).value && PaddedFrom(Decoded(s, size).value, n, size)
  {
    hide ParseAll, DenoteAll, Decoded;
    DecodedIs(s, size);
    n := |DenoteAll(ParseAll(s).value)|;
    DecodedIs(s, n);
    if n > 0 { DecodedIs(s, n - 1); }
    forall room: nat ensures Decoded(s, room).Some? <==> n <= room {
      DecodedIs(s, room);
    }
  }

  lemma EmptyStream(size: nat)
    ensures Exactly([], 0) && Decoded([], size).Some? && PaddedFrom(Decoded([], size).value, 0, size)
  {
  }

  // ----- nothing else decodes -----

  lemma ArgArgument(a: Arg)
    ensures IsArgument(EncodeArg(a)) && Argument(EncodeArg(a)) == ArgValue(a)
  {
    EncodedArgument(a);
    DigitsAccumulate(EncodeArg(a));
  }

  lemma {:induction false} EncodedArgument(a: seq<Digit>)
    requires |a| >= 1
    ensures var b := EncodeArg(a);
            b[|a| - 1] < 128 && (forall i :: 0 <= i < |b| - 1 ==> b[i] >= 128) && DigitsOf(b) == a
  {
    var b := EncodeArg(a);
    if |a| == 1 {
      assert DigitsOf(b) == a;
    } else {
      EncodedArgument(a[1..]);
      assert b[1..] == EncodeArg(a[1..]);
      assert forall i :: 1 <= i < |b| ==> b[i] == b[1..][i - 1];
      assert DigitsOf(b) == [a[0]] + DigitsOf(b[1..]) == a;
    }
  }

  lemma HeadOpens(tag: nat, c: Count)
    requires tag < 8 && c.WellFormed()
    ensures Opens(EncodeHead(tag, c), tag, c.Value())
  {
    if c.Extended? {
      ArgArgument(c.arg);
      assert EncodeHead(tag, c)[1..] == EncodeArg(c.arg);
    }
  }

  /** An operation as its header, the arguments it has, the block and the data. */
  datatype Pieces = Pieces(opcode: nat, n: nat, head: seq<u8>, x: seq<u8>, y: seq<u8>, block: seq<u8>, data: seq<u8>) {
    function Bytes(): seq<u8> { head + x + y + block + data }

    predicate Complete() {
      && opcode < 5 && Opens(head, opcode, n)
      && (if opcode >= 2 then IsArgument(x) else x == [])
      && (if opcode >= 3 then IsArgument(y) && |data| == Argument(x) * Argument(y) else y == [] && data == [])
      && |block| == if opcode == 0 || opcode == 4 then 0 else n
    }
  }

  /** A stream that decodes is empty or begins with one of the five operations, complete, and the rest decodes. */
  lemma FirstOperation(s: seq<u8>, size: nat) returns (p: Pieces, rest: seq<u8>)
    requires Decoded(s, size).Some? && s != []
    ensures p.Complete() && s == p.Bytes() + rest && Decoded(rest, size).Some?
  {
    hide ParseOp, DenoteAll, Encode, WellFormed;
    var (op, r) := ParseOp(s).value;
    rest := r;
    EncodedOfParseOp(s);
    p := PiecesOf(op);
    assert s == p.Bytes() + rest;
    DecodedIs(s, size);
    DecodedIs(rest, size);
    DenoteFirst(op, ParseAll(rest).value);
  }

  lemma DenoteFirst(op: Op, ops: seq<Op>)
    requires op.count.WellFormed() && forall i :: 0 <= i < |ops| ==> ops[i].count.WellFormed()
    ensures forall i :: 0 <= i < |[op] + ops| ==> ([op] + ops)[i].count.WellFormed()
    ensures |DenoteAll(ops)| <= |DenoteAll([op] + ops)|
  {
    hide Denote;
    assert ([op] + ops)[1..] == ops;
  }

  lemma PiecesOf(op: Op) returns (p: Pieces)
    requires WellFormed(op)
    ensures p.Complete() && p.Bytes() == Encode(op)
  {
    hide Opens, IsArgument, Argument, EncodeArg, EncodeHead, ArgValue, Joined, AllOfSize;
    HeadOpens(Tag(op), op.count);
    var n, head := op.count.Value(), EncodeHead(Tag(op), op.count);
    match op
    case Zero(_) =>
      p := Pieces(0, n, head, [], [], [], []);
    case Copy(_, data) =>
      p := Pieces(1, n, head, [], [], data, []);
    case Repeat(_, times, data) =>
      ArgArgument(times);
      p := Pieces(2, n, head, EncodeArg(times), [], data, []);
      assert p.Bytes() == head + (EncodeArg(times) + data);
    case Interleave(_, _, _, _, _) =>
      p := WovenPieces(op);
    case InterleaveZero(_, _, _, _) =>
      p := WovenPieces(op);
  }

  lemma WovenPieces(op: Op) returns (p: Pieces)
    requires WellFormed(op) && (op.Interleave? || op.InterleaveZero?)
    ensures p.Complete() && p.Bytes() == Encode(op)
  {
    hide Opens, IsArgument, Argument, EncodeArg, EncodeHead, ArgValue, Joined, AllOfSize;
    HeadOpens(Tag(op), op.count);
    var common := if op.Interleave? then op.common else [];
    var x, y, data := EncodeArg(op.customSize), EncodeArg(op.times), Joined(op.customs);
    p := Pieces(Tag(op), op.count.Value(), EncodeHead(Tag(op), op.count), x, y, common, data);
    BlockPieces(p, op.customSize, op.times, op.customs);
    assert p.Bytes() == p.head + (x + (y + (common + data)));
    if op.InterleaveZero? { assert common + data == data; }
  }

  lemma BlockPieces(p: Pieces, size: Arg, times: Arg, customs: seq<seq<u8>>)
    requires p.x == EncodeArg(size) && p.y == EncodeArg(times) && p.data == Joined(customs)
    requires |customs| == ArgValue(times) && AllOfSize(customs, ArgValue(size))
    ensures IsArgument(p.x) && IsArgument(p.y) && |p.data| == Argument(p.x) * Argument(p.y)
  {
    hide IsArgument, Argument, EncodeArg, ArgValue, Joined;
    ArgArgument(size);
    ArgArgument(times);
    JoinedLength(customs, ArgValue(size));
  }
}
