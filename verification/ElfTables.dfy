/**
  Relocation tables whose entries patch disjoint ranges: the order does not
  matter, a second pass changes nothing, the rest of memory is untouched.
 */
module ElfTables {
  import opened Words
  import opened MemoryModel
  import opened Folds
  import opened ElfRelocation

  /** The two entries patch no byte in common; an entry that patches nothing is disjoint from all. */
  predicate Disjoint(a: Entry, b: Entry) {
    || SizeOf(a.kind) == 0 || SizeOf(b.kind) == 0
    || a.place + SizeOf(a.kind) <= b.place || b.place + SizeOf(b.kind) <= a.place
  }

  ghost predicate PairwiseDisjoint(table: seq<Entry>) {
    forall i, j :: 0 <= i < j < |table| ==> Disjoint(table[i], table[j])
  }

  /** The bytes of the range replaced in the i-th region. */
  function Put(mem: Regions, i: nat, a: int, x: seq<u8>): Regions
    requires i < |mem| && mem[i].Covers(a, |x|)
  {
    mem[i := mem[i].(bytes := Splice(mem[i].bytes, a - mem[i].base, x))]
  }

  lemma PokeIsPut(mem: Regions, a: int, x: seq<u8>, i: nat)
    requires Valid(mem) && |x| >= 1 && i < |mem| && mem[i].Covers(a, |x|)
    ensures Poke(mem, a, x) == Some(Put(mem, i, a, x)) && Valid(Put(mem, i, a, x))
  {
    FindUnique(mem, a, |x|, i);
  }

  lemma PutsCommute(mem: Regions, i: nat, a: int, x: seq<u8>, j: nat, b: int, y: seq<u8>)
    requires i < |mem| && mem[i].Covers(a, |x|) && j < |mem| && mem[j].Covers(b, |y|)
    requires a + |x| <= b || b + |y| <= a
    ensures Put(Put(mem, i, a, x), j, b, y) == Put(Put(mem, j, b, y), i, a, x)
  {
    if i == j { SplicesCommute(mem[i].bytes, a - mem[i].base, x, b - mem[i].base, y); }
    hide Splice;
    assert Put(Put(mem, i, a, x), j, b, y) == Put(Put(mem, j, b, y), i, a, x);
  }

  lemma SplicesCommute(bytes: seq<u8>, o: nat, x: seq<u8>, p: nat, y: seq<u8>)
    requires o + |x| <= |bytes| && p + |y| <= |bytes| && (o + |x| <= p || p + |y| <= o)
    ensures Splice(Splice(bytes, o, x), p, y) == Splice(Splice(bytes, p, y), o, x)
  {
    var s, t := Splice(Splice(bytes, o, x), p, y), Splice(Splice(bytes, p, y), o, x);
    forall k | 0 <= k < |bytes| ensures s[k] == t[k] {
    }
  }

  lemma PokesCommute(mem: Regions, a: int, x: seq<u8>, b: int, y: seq<u8>)
    requires Valid(mem) && |x| >= 1 && |y| >= 1
    requires a + |x| <= b || b + |y| <= a
    requires Poke(mem, a, x).Some? && Poke(mem, b, y).Some?
    ensures Poke(Poke(mem, a, x).value, b, y).Some?
    ensures Poke(Poke(mem, a, x).value, b, y) == Poke(Poke(mem, b, y).value, a, x)
  {
    hide Valid;
    var i, j := Find(mem, a, |x|), Find(mem, b, |y|);
    PokeIsPut(mem, a, x, i);
    PokeIsPut(mem, b, y, j);
    PokeIsPut(Put(mem, i, a, x), b, y, j);
    PokeIsPut(Put(mem, j, b, y), a, x, i);
    PutsCommute(mem, i, a, x, j, b, y);
  }

  /** Writing back what is there changes nothing. */
  lemma PokeSame(mem: Regions, a: int, x: seq<u8>)
    requires Peek(mem, a, |x|) == Some(x)
    ensures Poke(mem, a, x) == Some(mem)
  {
    var i := Find(mem, a, |x|);
    var o := a - mem[i].base;
    assert mem[i].bytes[o..o + |x|] == x;
    assert Splice(mem[i].bytes, o, x) == mem[i].bytes;
    assert mem[i := mem[i]] == mem;
  }

  lemma ApplyKeepsValid(bias: u32, mem: Regions, e: Entry)
    requires Valid(mem) && Apply(bias, mem, e).Some?
    ensures Valid(Apply(bias, mem, e).value) && SameLayout(mem, Apply(bias, mem, e).value)
    ensures forall k :: !(e.place <= k < e.place + SizeOf(e.kind)) ==> At(Apply(bias, mem, e).value, k) == At(mem, k)
  {
    hide Peek, Poke, NewBytes, At, Valid;
    if e.kind != 0 {
      var found := Peek(mem, e.place, SizeOf(e.kind));
      PeekLength(mem, e.place, SizeOf(e.kind));
      PokeIsFlat(mem, e.place, NewBytes(bias, e, found.value).value);
    }
  }

  /** An entry on a disjoint range neither sees nor disturbs the other. */
  lemma ApplyAfterOther(bias: u32, mem: Regions, e: Entry, o: Entry)
    requires Valid(mem) && Apply(bias, mem, o).Some? && Disjoint(e, o)
    ensures Peek(Apply(bias, mem, o).value, e.place, SizeOf(e.kind)) == Peek(mem, e.place, SizeOf(e.kind))
            || SizeOf(e.kind) == 0
  {
    hide Peek, Poke, NewBytes, Valid;
    if o.kind != 0 && SizeOf(e.kind) > 0 {
      var found := Peek(mem, o.place, SizeOf(o.kind));
      PeekLength(mem, o.place, SizeOf(o.kind));
      WriteFrame(mem, o.place, NewBytes(bias, o, found.value).value, e.place, SizeOf(e.kind));
    }
  }

  lemma NoFieldFails(bias: u32, mem: Regions, e: Entry)
    requires SizeOf(e.kind) == 0
    ensures Apply(bias, mem, e) == if e.kind == 0 then Some(mem) else None
  {
  }

  lemma EntriesCommute(bias: u32, mem: Regions, a: Entry, b: Entry)
    requires Valid(mem) && Disjoint(a, b)
    ensures Then(Applier(bias), Apply(bias, mem, a), b) == Then(Applier(bias), Apply(bias, mem, b), a)
  {
    hide Peek, Poke, NewBytes, Valid, SizeOf;
    if SizeOf(a.kind) == 0 || SizeOf(b.kind) == 0 {
      EmptyCommutes(bias, mem, a, b);
    } else {
      if Apply(bias, mem, a).Some? { ApplyAfterOther(bias, mem, b, a); }
      if Apply(bias, mem, b).Some? { ApplyAfterOther(bias, mem, a, b); }
      if Apply(bias, mem, a).Some? && Apply(bias, mem, b).Some? {
        BothApply(bias, mem, a, b);
      } else if Apply(bias, mem, b).Some? {
        OneFails(bias, mem, a, b);
      } else if Apply(bias, mem, a).Some? {
        OneFails(bias, mem, b, a);
      }
    }
  }

  lemma EmptyCommutes(bias: u32, mem: Regions, a: Entry, b: Entry)
    requires SizeOf(a.kind) == 0 || SizeOf(b.kind) == 0
    ensures Then(Applier(bias), Apply(bias, mem, a), b) == Then(Applier(bias), Apply(bias, mem, b), a)
  {
    hide Apply, SizeOf;
    var ma, mb := Apply(bias, mem, a), Apply(bias, mem, b);
    if SizeOf(a.kind) == 0 {
      NoFieldFails(bias, mem, a);
      if mb.Some? { NoFieldFails(bias, mb.value, a); }
    } else {
      NoFieldFails(bias, mem, b);
      if ma.Some? { NoFieldFails(bias, ma.value, b); }
    }
  }

  /** If a fails at first it fails after b as well. */
  lemma OneFails(bias: u32, mem: Regions, a: Entry, b: Entry)
    requires Valid(mem) && Disjoint(a, b) && SizeOf(a.kind) > 0
    requires Apply(bias, mem, a).None? && Apply(bias, mem, b).Some?
    ensures Apply(bias, Apply(bias, mem, b).value, a).None?
  {
    hide Valid, NewBytes, SizeOf;
    ApplyAfterOther(bias, mem, a, b);
    var mb := Apply(bias, mem, b).value;
    var found := Peek(mem, a.place, SizeOf(a.kind));
    if found.Some? && NewBytes(bias, a, found.value).Some? {
      PeekPokeTogether(mem, a.place, NewBytes(bias, a, found.value).value);
    }
  }

  lemma BothApply(bias: u32, mem: Regions, a: Entry, b: Entry)
    requires Valid(mem) && Disjoint(a, b) && SizeOf(a.kind) > 0 && SizeOf(b.kind) > 0
    requires Apply(bias, mem, a).Some? && Apply(bias, mem, b).Some?
    ensures Apply(bias, Apply(bias, mem, a).value, b) == Apply(bias, Apply(bias, mem, b).value, a)
  {
    hide Peek, Poke, NewBytes, Valid;
    ApplyAfterOther(bias, mem, b, a);
    ApplyAfterOther(bias, mem, a, b);
    PeekLength(mem, a.place, SizeOf(a.kind));
    PeekLength(mem, b.place, SizeOf(b.kind));
    var x := NewBytes(bias, a, Peek(mem, a.place, SizeOf(a.kind)).value).value;
    var y := NewBytes(bias, b, Peek(mem, b.place, SizeOf(b.kind)).value).value;
    PokesCommute(mem, a.place, x, b.place, y);
  }

  /** With its addend in the entry, a relocation applied twice is the relocation applied once. */
  lemma EntrySettles(bias: u32, mem: Regions, e: Entry)
    requires Valid(mem) && e.hasAddend && Apply(bias, mem, e).Some?
    ensures Apply(bias, Apply(bias, mem, e).value, e) == Apply(bias, mem, e)
  {
    hide Peek, Poke, Valid, NewBytes;
    if e.kind != 0 {
      var found := Peek(mem, e.place, SizeOf(e.kind));
      PeekLength(mem, e.place, SizeOf(e.kind));
      var data := NewBytes(bias, e, found.value).value;
      NewBytesSettle(bias, e, found.value);
      ReadAfterWrite(mem, e.place, data);
      PokeSame(Apply(bias, mem, e).value, e.place, data);
    }
  }

  lemma NewBytesSettle(bias: u32, e: Entry, found: seq<u8>)
    requires |found| == SizeOf(e.kind) && e.hasAddend && NewBytes(bias, e, found).Some?
    ensures |found| >= 1
    ensures NewBytes(bias, e, NewBytes(bias, e, found).value) == NewBytes(bias, e, found)
  {
    hide Value, HalfOf, FitsSigned, ImplicitAddend, PutLi, PutBd;
    var v := Value(bias, e, e.addend);
    if FieldOf(e.kind) == Some(Branch24) || FieldOf(e.kind) == Some(Branch14) { FieldsSettle(Word(found), v); }
  }

  lemma FieldsSettle(word: u32, value: int)
    ensures PutLi(PutLi(word, value), value) == PutLi(word, value)
    ensures PutBd(PutBd(word, value), value) == PutBd(word, value)
  {
    PutLiParts(word, value);
    PutBdParts(word, value);
  }

  lemma TableIsIndependent(bias: u32, table: seq<Entry>)
    requires PairwiseDisjoint(table)
    ensures Independent(Applier(bias), (m: Regions) => Valid(m), table)
  {
    hide Valid;
    var f, inv := Applier(bias), (m: Regions) => Valid(m);
    forall i | 0 <= i < |table| ensures Keeps(f, inv, table[i]) {
      forall m | inv(m) && f(m, table[i]).Some? { ApplyKeepsValid(bias, m, table[i]); }
    }
    forall i, j | 0 <= i < j < |table|
      ensures Commute(f, inv, table[i], table[j]) && Commute(f, inv, table[j], table[i])
    {
      forall m | inv(m) { EntriesCommute(bias, m, table[i], table[j]); }
    }
  }

  /** Every order of the entries succeeds or fails alike, with the same memory. */
  lemma TableOrderIsIrrelevant(bias: u32, mem: Regions, table: seq<Entry>, shuffled: seq<Entry>)
    requires Valid(mem) && PairwiseDisjoint(table) && multiset(table) == multiset(shuffled)
    ensures ApplyTable(bias, mem, table) == ApplyTable(bias, mem, shuffled)
  {
    TableIsIndependent(bias, table);
    FoldAnyOrder(Applier(bias), (m: Regions) => Valid(m), Some(mem), table, shuffled);
  }

  /** A table of explicit-addend entries may be applied again without effect. */
  lemma TableTwiceIsOnce(bias: u32, mem: Regions, table: seq<Entry>)
    requires Valid(mem) && PairwiseDisjoint(table)
    requires forall i :: 0 <= i < |table| ==> table[i].hasAddend
    requires ApplyTable(bias, mem, table).Some?
    ensures ApplyTable(bias, ApplyTable(bias, mem, table).value, table) == ApplyTable(bias, mem, table)
  {
    hide Valid;
    TableIsIndependent(bias, table);
    var inv := (m: Regions) => Valid(m);
    forall i | 0 <= i < |table| ensures Settles(Applier(bias), inv, table[i]) {
      forall m | inv(m) && Apply(bias, m, table[i]).Some? { EntrySettles(bias, m, table[i]); }
    }
    FoldTwice(Applier(bias), inv, Some(mem), table);
  }

  predicate Patched(table: seq<Entry>, k: int) {
    exists i :: 0 <= i < |table| && table[i].place <= k < table[i].place + SizeOf(table[i].kind)
  }

  /** Whatever the ranges, bytes no entry patches keep their value, and the layout stays. */
  lemma {:induction false} TableFrame(bias: u32, mem: Regions, table: seq<Entry>)
    requires Valid(mem) && ApplyTable(bias, mem, table).Some?
    ensures SameLayout(mem, ApplyTable(bias, mem, table).value)
    ensures forall k :: !Patched(table, k) ==> At(ApplyTable(bias, mem, table).value, k) == At(mem, k)
    decreases |table|
  {
    hide Valid, At, Apply, SizeOf;
    if |table| > 0 {
      var m1 := Apply(bias, mem, table[0]);
      FoldOfNone(Applier(bias), table[1..]);
      ApplyKeepsValid(bias, mem, table[0]);
      TableFrame(bias, m1.value, table[1..]);
      forall k | !Patched(table, k) ensures At(ApplyTable(bias, mem, table).value, k) == At(mem, k) {
        forall i | 0 <= i < |table[1..]| ensures table[1..][i] == table[i + 1] {}
      }
      LayoutTransitive(mem, m1.value, ApplyTable(bias, mem, table).value);
    }
  }
}
