/**
  Counters that remember insertion order, sums over them, and sorting: what
  the trace analysis is computed with (scripts/ppc_trace_intelligence.py).
 */
module Tallies {
  datatype Count<K> = Count(key: K, count: nat)

  // ----- sums -----

  function Sum<T>(s: seq<T>, f: T -> int): int {
    if |s| == 0 then 0 else f(s[0]) + Sum(s[1..], f)
  }

  lemma {:induction false} SumConcat<T>(s: seq<T>, t: seq<T>, f: T -> int)
    ensures Sum(s + t, f) == Sum(s, f) + Sum(t, f)
  {
    if |s| == 0 {
      assert s + t == t;
    } else {
      assert (s + t)[1..] == s[1..] + t;
      SumConcat(s[1..], t, f);
    }
  }

  /** Sums over two sequences agree when they agree position by position. */
  lemma {:induction false} SumMapped<T, U>(s: seq<T>, t: seq<U>, f: T -> int, g: U -> int)
    requires |s| == |t| && forall i :: 0 <= i < |s| ==> f(s[i]) == g(t[i])
    ensures Sum(s, f) == Sum(t, g)
  {
    if |s| > 0 {
      assert forall i :: 0 <= i < |s| - 1 ==> s[1..][i] == s[i + 1] && t[1..][i] == t[i + 1];
      SumMapped(s[1..], t[1..], f, g);
    }
  }

  function Is<K(==)>(k: K): K -> int { x => if x == k then 1 else 0 }

  /** How often k occurs. */
  function Occurrences<K(==)>(s: seq<K>, k: K): int { Sum(s, Is(k)) }

  lemma {:induction false} OccurrencesBounds<K>(s: seq<K>, k: K)
    ensures 0 <= Occurrences(s, k) <= |s| && (Occurrences(s, k) > 0 <==> k in s)
  {
    if |s| > 0 { OccurrencesBounds(s[1..], k); }
  }

  // ----- counters -----

  function Bump<K(==)>(t: seq<Count<K>>, k: K): seq<Count<K>> {
    if |t| == 0 then [Count(k, 1)]
    else if t[0].key == k then [Count(k, t[0].count + 1)] + t[1..]
    else [t[0]] + Bump(t[1..], k)
  }

  /** Counting the elements one after the other. */
  function Tally<K(==)>(s: seq<K>): seq<Count<K>> {
    if |s| == 0 then [] else Bump(Tally(s[..|s| - 1]), s[|s| - 1])
  }

  lemma TallySnoc<K>(s: seq<K>, k: K)
    ensures Tally(s + [k]) == Bump(Tally(s), k)
  {
    assert (s + [k])[..|s|] == s;
  }

  function Times<K>(f: K -> int): Count<K> -> int { (c: Count<K>) => c.count * f(c.key) }

  /** Counting k once more adds what k weighs, whatever the weights. */
  lemma {:induction false} BumpWeighs<K>(t: seq<Count<K>>, k: K, f: K -> int)
    ensures Sum(Bump(t, k), Times(f)) == Sum(t, Times(f)) + f(k)
  {
    if |t| > 0 {
      if t[0].key == k {
        assert Bump(t, k)[1..] == t[1..];
        assert (t[0].count + 1) * f(k) == t[0].count * f(k) + f(k);
      } else {
        assert Bump(t, k)[1..] == Bump(t[1..], k);
        BumpWeighs(t[1..], k, f);
      }
    }
  }

  /** Weighing the counts is weighing what was counted. */
  lemma {:induction false} TallyWeighs<K>(s: seq<K>, f: K -> int)
    ensures Sum(Tally(s), Times(f)) == Sum(s, f)
  {
    if |s| > 0 {
      var n := |s| - 1;
      TallyWeighs(s[..n], f);
      BumpWeighs(Tally(s[..n]), s[n], f);
      SumConcat(s[..n], [s[n]], f);
      assert s == s[..n] + [s[n]];
    }
  }

  ghost predicate DistinctKeys<K(!new)>(t: seq<Count<K>>) {
    forall i, j :: 0 <= i < j < |t| ==> t[i].key != t[j].key
  }

  lemma {:induction false} BumpKeys<K(!new)>(t: seq<Count<K>>, k: K)
    requires DistinctKeys(t)
    ensures DistinctKeys(Bump(t, k))
    ensures forall i :: 0 <= i < |Bump(t, k)| ==> Bump(t, k)[i].key == k || exists j ::
              0 <= j < |t| && t[j].key == Bump(t, k)[i].key
  {
    if |t| > 0 && t[0].key != k {
      assert forall i :: 0 <= i < |t| - 1 ==> t[1..][i] == t[i + 1];
      BumpKeys(t[1..], k);
      var r, u := Bump(t[1..], k), Bump(t, k);
      assert u == [t[0]] + r;
      forall i | 0 <= i < |u| ensures u[i].key == k || exists j :: 0 <= j < |t| && t[j].key == u[i].key {
        if i > 0 && r[i - 1].key != k {
          var j :| 0 <= j < |t| - 1 && t[1..][j].key == r[i - 1].key;
          assert t[j + 1].key == u[i].key;
        }
      }
      forall i, j | 0 <= i < j < |u| ensures u[i].key != u[j].key {
        if i == 0 {
          assert u[j] == r[j - 1];
        }
      }
    }
  }

  lemma {:induction false} TallyKeys<K(!new)>(s: seq<K>)
    ensures DistinctKeys(Tally(s))
    ensures forall i :: 0 <= i < |Tally(s)| ==> Tally(s)[i].key in s
  {
    if |s| > 0 {
      var n := |s| - 1;
      TallyKeys(s[..n]);
      BumpKeys(Tally(s[..n]), s[n]);
      var t, u := Tally(s[..n]), Tally(s);
      forall i | 0 <= i < |u| ensures u[i].key in s {
        if u[i].key != s[n] {
          var j :| 0 <= j < |t| && t[j].key == u[i].key;
        }
      }
    }
  }

  /** With distinct keys, weighing one key alone gives its count. */
  lemma {:induction false} WeighOne<K(!new)>(t: seq<Count<K>>, k: K)
    requires DistinctKeys(t)
    ensures forall i :: 0 <= i < |t| && t[i].key == k ==> Sum(t, Times(Is(k))) == t[i].count
    ensures (forall i :: 0 <= i < |t| ==> t[i].key != k) ==> Sum(t, Times(Is(k))) == 0
  {
    if |t| > 0 {
      assert forall i :: 0 <= i < |t| - 1 ==> t[1..][i] == t[i + 1];
      WeighOne(t[1..], k);
    }
  }

  /** A counter holds each key that occurred once, with how often it occurred. */
  lemma {:induction false} TallyCounts<K(!new)>(s: seq<K>)
    ensures DistinctKeys(Tally(s))
    ensures forall i :: 0 <= i < |Tally(s)| ==>
              Tally(s)[i].key in s && Tally(s)[i].count == Occurrences(s, Tally(s)[i].key)
    ensures forall k :: k in s ==> exists i :: 0 <= i < |Tally(s)| && Tally(s)[i].key == k
  {
    TallyKeys(s);
    var t := Tally(s);
    forall i | 0 <= i < |t| ensures t[i].count == Occurrences(s, t[i].key) {
      WeighOne(t, t[i].key);
      TallyWeighs(s, Is(t[i].key));
    }
    forall k | k in s ensures exists i :: 0 <= i < |t| && t[i].key == k {
      WeighOne(t, k);
      TallyWeighs(s, Is(k));
      OccurrencesBounds(s, k);
    }
  }

  // ----- sorting -----

  /** Behind everything that may stand before it: equal elements keep their order. */
  function Insert<T>(x: T, s: seq<T>, before: (T, T) -> bool): seq<T> {
    if |s| == 0 then [x]
    else if before(s[0], x) then [s[0]] + Insert(x, s[1..], before)
    else [x] + s
  }

  function Sort<T>(s: seq<T>, before: (T, T) -> bool): seq<T> {
    if |s| == 0 then [] else Insert(s[|s| - 1], Sort(s[..|s| - 1], before), before)
  }

  lemma {:induction false} InsertSum<T>(x: T, s: seq<T>, before: (T, T) -> bool, f: T -> int)
    ensures Sum(Insert(x, s, before), f) == f(x) + Sum(s, f)
  {
    if |s| > 0 {
      if before(s[0], x) {
        assert Insert(x, s, before)[1..] == Insert(x, s[1..], before);
        InsertSum(x, s[1..], before, f);
      } else {
        assert ([x] + s)[1..] == s;
      }
    }
  }

  /** Sorting changes no sum. */
  lemma {:induction false} SortSum<T>(s: seq<T>, before: (T, T) -> bool, f: T -> int)
    ensures Sum(Sort(s, before), f) == Sum(s, f)
  {
    if |s| > 0 {
      var n := |s| - 1;
      SortSum(s[..n], before, f);
      InsertSum(s[n], Sort(s[..n], before), before, f);
      SumConcat(s[..n], [s[n]], f);
      assert s == s[..n] + [s[n]];
    }
  }

  lemma {:induction false} InsertElements<T>(x: T, s: seq<T>, before: (T, T) -> bool)
    ensures multiset(Insert(x, s, before)) == multiset(s) + multiset{x}
  {
    if |s| > 0 {
      assert s == [s[0]] + s[1..];
      if before(s[0], x) { InsertElements(x, s[1..], before); }
    }
  }

  lemma {:induction false} SortElements<T>(s: seq<T>, before: (T, T) -> bool)
    ensures multiset(Sort(s, before)) == multiset(s)
  {
    if |s| > 0 {
      var n := |s| - 1;
      assert s == s[..n] + [s[n]];
      SortElements(s[..n], before);
      InsertElements(s[n], Sort(s[..n], before), before);
    }
  }

  ghost predicate Preorder<T(!new)>(before: (T, T) -> bool) {
    && (forall x, y :: before(x, y) || before(y, x))
    && (forall x, y, z :: before(x, y) && before(y, z) ==> before(x, z))
  }

  ghost predicate Ordered<T>(s: seq<T>, before: (T, T) -> bool) {
    forall i, j :: 0 <= i < j < |s| ==> before(s[i], s[j])
  }

  lemma {:induction false} InsertOrders<T(!new)>(x: T, s: seq<T>, before: (T, T) -> bool)
    requires Preorder(before) && Ordered(s, before)
    ensures Ordered(Insert(x, s, before), before)
  {
    if |s| > 0 && before(s[0], x) {
      InsertOrders(x, s[1..], before);
      InsertElements(x, s[1..], before);
      var r := Insert(x, s[1..], before);
      forall j | 0 <= j < |r| ensures before(s[0], r[j]) {
        assert r[j] in multiset(r);
        if r[j] != x {
          assert r[j] in multiset(s[1..]) && r[j] in s[1..];
          var k :| 0 <= k < |s| - 1 && s[1..][k] == r[j];
          assert s[k + 1] == r[j];
        }
      }
    }
  }

  lemma {:induction false} SortOrders<T(!new)>(s: seq<T>, before: (T, T) -> bool)
    requires Preorder(before)
    ensures Ordered(Sort(s, before), before)
  {
    if |s| > 0 {
      SortOrders(s[..|s| - 1], before);
      InsertOrders(s[|s| - 1], Sort(s[..|s| - 1], before), before);
    }
  }

  /** Distinct keys stay distinct. */
  lemma SortKeepsKeys<K(!new)>(t: seq<Count<K>>, before: (Count<K>, Count<K>) -> bool)
    requires DistinctKeys(t)
    ensures DistinctKeys(Sort(t, before)) && |Sort(t, before)| == |t|
    ensures forall c :: c in Sort(t, before) <==> c in t
  {
    var u := Sort(t, before);
    SortElements(t, before);
    assert |multiset(u)| == |u| && |multiset(t)| == |t|;
    forall c ensures c in u <==> c in t { assert c in u <==> c in multiset(u); }
    forall i, j | 0 <= i < j < |u| ensures u[i].key != u[j].key {
      if u[i].key == u[j].key {
        SameKeyOnce(t, u, i, j);
      }
    }
  }

  lemma SameKeyOnce<K(!new)>(t: seq<Count<K>>, u: seq<Count<K>>, i: nat, j: nat)
    requires DistinctKeys(t) && multiset(u) == multiset(t) && i < j < |u|
    ensures u[i].key != u[j].key
  {
    if u[i].key == u[j].key {
      var a, b := u[i], u[j];
      assert a in multiset(u) && b in multiset(u);
      assert a in t && b in t;
      assert a == b;
      assert u == u[..i] + [a] + u[i + 1..j] + [b] + u[j + 1..];
      assert multiset(u)[a] >= 2;
      OnlyOnce(t, a);
    }
  }

  lemma {:induction false} OnlyOnce<K(!new)>(t: seq<Count<K>>, c: Count<K>)
    requires DistinctKeys(t)
    ensures multiset(t)[c] <= 1
  {
    if |t| > 0 {
      assert forall i :: 0 <= i < |t| - 1 ==> t[1..][i] == t[i + 1];
      OnlyOnce(t[1..], c);
      assert t == [t[0]] + t[1..];
      if t[0] == c { assert c !in t[1..]; }
    }
  }

  // ----- orders to sort by -----

  predicate ByCount<K>(x: Count<K>, y: Count<K>) { x.count >= y.count }

  lemma ByCountIsPreorder<K(!new)>()
    ensures Preorder(ByCount<K>)
  {
  }

  /** The dictionary order of strings. */
  predicate AtMost(a: string, b: string) {
    |a| == 0 || (|b| > 0 && (a[0] < b[0] || (a[0] == b[0] && AtMost(a[1..], b[1..]))))
  }

  lemma {:induction false} AtMostIsTotal(a: string, b: string)
    ensures AtMost(a, b) || AtMost(b, a)
    ensures AtMost(a, b) && AtMost(b, a) ==> a == b
  {
    if |a| > 0 && |b| > 0 {
      AtMostIsTotal(a[1..], b[1..]);
      assert a == [a[0]] + a[1..] && b == [b[0]] + b[1..];
    }
  }

  lemma {:induction false} AtMostIsTransitive(a: string, b: string, c: string)
    requires AtMost(a, b) && AtMost(b, c)
    ensures AtMost(a, c)
  {
    if |a| > 0 && a[0] == b[0] && b[0] == c[0] { AtMostIsTransitive(a[1..], b[1..], c[1..]); }
  }

  // ----- insertion of something new -----

  ghost predicate Distinct<T(!new)>(s: seq<T>) {
    forall i, j :: 0 <= i < j < |s| ==> s[i] != s[j]
  }

  lemma {:induction false} InsertMembers<T>(x: T, s: seq<T>, before: (T, T) -> bool)
    ensures forall y :: y in Insert(x, s, before) <==> y == x || y in s
  {
    if |s| > 0 && before(s[0], x) { InsertMembers(x, s[1..], before); }
  }

  lemma {:induction false} InsertDistinct<T(!new)>(x: T, s: seq<T>, before: (T, T) -> bool)
    requires Distinct(s) && x !in s
    ensures Distinct(Insert(x, s, before))
  {
    if |s| > 0 && before(s[0], x) {
      assert s == [s[0]] + s[1..];
      assert s[0] !in s[1..];
      InsertDistinct(x, s[1..], before);
      InsertMembers(x, s[1..], before);
    }
  }

  function Elements<T>(s: seq<T>): set<T> { set x | x in s }

  lemma {:induction false} DistinctCount<T(!new)>(s: seq<T>)
    requires Distinct(s)
    ensures |Elements(s)| == |s|
  {
    if |s| == 0 {
      assert Elements(s) == {};
    } else {
      var tail := s[1..];
      assert s == [s[0]] + tail && s[0] !in tail;
      DistinctCount(tail);
      assert Elements(s) == {s[0]} + Elements(tail);
    }
  }

  function KeysOf<K>(t: seq<Count<K>>): seq<K> { if |t| == 0 then [] else [t[0].key] + KeysOf(t[1..]) }

  lemma {:induction false} KeysAt<K>(t: seq<Count<K>>)
    ensures |KeysOf(t)| == |t| && forall i :: 0 <= i < |t| ==> KeysOf(t)[i] == t[i].key
  {
    if |t| > 0 {
      KeysAt(t[1..]);
      assert forall i :: 0 < i < |t| ==> t[i] == t[1..][i - 1];
    }
  }

  /** A counter has as many entries as there are different things counted. */
  lemma TallySize<K(!new)>(s: seq<K>)
    ensures |Tally(s)| == |Elements(s)|
  {
    TallyCounts(s);
    var t := Tally(s);
    KeysAt(t);
    hide Tally, Occurrences, KeysOf;
    DistinctCount(KeysOf(t));
    forall k ensures k in KeysOf(t) <==> k in s {
      if k in s {
        var i :| 0 <= i < |t| && t[i].key == k;
        assert KeysOf(t)[i] == k;
      }
    }
    assert Elements(KeysOf(t)) == Elements(s);
  }
}
