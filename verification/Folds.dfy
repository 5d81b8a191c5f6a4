/** Left folds of partial operations: order independence and idempotence of a whole run from its single steps. */
module Folds {
  import opened Words

  function Then<S, T>(f: (S, T) -> Option<S>, s: Option<S>, x: T): Option<S> {
    if s.None? then None else f(s.value, x)
  }

  function Fold<S, T>(f: (S, T) -> Option<S>, s: Option<S>, xs: seq<T>): Option<S>
    decreases |xs|
  {
    if |xs| == 0 then s else Fold(f, Then(f, s, xs[0]), xs[1..])
  }

  ghost predicate Keeps<S(!new), T>(f: (S, T) -> Option<S>, inv: S -> bool, x: T) {
    forall s :: inv(s) && f(s, x).Some? ==> inv(f(s, x).value)
  }

  ghost predicate Commute<S(!new), T>(f: (S, T) -> Option<S>, inv: S -> bool, x: T, y: T) {
    forall s :: inv(s) ==> Then(f, f(s, x), y) == Then(f, f(s, y), x)
  }

  ghost predicate Settles<S(!new), T>(f: (S, T) -> Option<S>, inv: S -> bool, x: T) {
    forall s :: inv(s) && f(s, x).Some? ==> f(f(s, x).value, x) == f(s, x)
  }

  /** Every step keeps the invariant, and any two steps commute under it. */
  ghost predicate Independent<S(!new), T>(f: (S, T) -> Option<S>, inv: S -> bool, xs: seq<T>) {
    && (forall i :: 0 <= i < |xs| ==> Keeps(f, inv, xs[i]))
    && (forall i, j :: 0 <= i < j < |xs| ==> Commute(f, inv, xs[i], xs[j]) && Commute(f, inv, xs[j], xs[i]))
  }

  predicate Holds<S>(inv: S -> bool, s: Option<S>) { s.None? || inv(s.value) }

  lemma {:induction false} FoldOfNone<S, T>(f: (S, T) -> Option<S>, xs: seq<T>)
    ensures Fold(f, None, xs) == None
  {
    if |xs| > 0 { FoldOfNone(f, xs[1..]); }
  }

  lemma {:induction false} FoldConcat<S, T>(f: (S, T) -> Option<S>, s: Option<S>, xs: seq<T>, ys: seq<T>)
    ensures Fold(f, s, xs + ys) == Fold(f, Fold(f, s, xs), ys)
    decreases |xs|
  {
    if |xs| == 0 {
      assert xs + ys == ys;
    } else {
      assert (xs + ys)[1..] == xs[1..] + ys;
      FoldConcat(f, Then(f, s, xs[0]), xs[1..], ys);
    }
  }

  lemma {:induction false} FoldKeeps<S(!new), T>(f: (S, T) -> Option<S>, inv: S -> bool, s: Option<S>, xs: seq<T>)
    requires forall i :: 0 <= i < |xs| ==> Keeps(f, inv, xs[i])
    requires Holds(inv, s)
    ensures Holds(inv, Fold(f, s, xs))
    decreases |xs|
  {
    if |xs| > 0 {
      assert Keeps(f, inv, xs[0]);
      FoldKeeps(f, inv, Then(f, s, xs[0]), xs[1..]);
    }
  }

  lemma FoldTwoFirst<S, T>(f: (S, T) -> Option<S>, s: Option<S>, x: T, y: T, rest: seq<T>)
    ensures Fold(f, s, [x] + rest) == Fold(f, Then(f, s, x), rest)
    ensures Fold(f, s, [x] + ([y] + rest)) == Fold(f, Then(f, Then(f, s, x), y), rest)
  {
    assert ([y] + rest)[1..] == rest;
    assert ([x] + rest)[1..] == rest;
    assert ([x] + ([y] + rest))[1..] == [y] + rest;
  }

  /** A step that commutes with all before it may be taken first. */
  lemma {:induction false} FoldMoveToFront<S(!new), T>(f: (S, T) -> Option<S>, inv: S -> bool, s: Option<S>,
      pre: seq<T>, x: T, post: seq<T>)
    requires forall i :: 0 <= i < |pre| ==> Keeps(f, inv, pre[i]) && Commute(f, inv, pre[i], x)
    requires Holds(inv, s)
    ensures Fold(f, s, pre + ([x] + post)) == Fold(f, s, [x] + (pre + post))
    decreases |pre|
  {
    if |pre| == 0 {
      assert pre + ([x] + post) == [x] + (pre + post);
    } else {
      var p, r := pre[0], pre[1..];
      assert Keeps(f, inv, p) && Commute(f, inv, p, x);
      assert Then(f, Then(f, s, p), x) == Then(f, Then(f, s, x), p);
      FoldMoveToFront(f, inv, Then(f, s, p), r, x, post);
      assert pre + ([x] + post) == [p] + (r + ([x] + post));
      assert pre + post == [p] + (r + post);
      FoldTwoFirst(f, s, p, x, r + ([x] + post));
      FoldTwoFirst(f, s, p, x, r + post);
      FoldTwoFirst(f, s, x, p, r + post);
    }
  }

  lemma IndependentTail<S(!new), T>(f: (S, T) -> Option<S>, inv: S -> bool, xs: seq<T>, i: nat)
    requires Independent(f, inv, xs) && i < |xs|
    ensures Independent(f, inv, xs[..i] + xs[i + 1..])
  {
    var ys := xs[..i] + xs[i + 1..];
    assert forall k :: 0 <= k < |ys| ==> ys[k] == xs[if k < i then k else k + 1];
  }

  lemma MultisetWithout<T>(xs: seq<T>, i: nat)
    requires i < |xs|
    ensures multiset(xs[..i] + xs[i + 1..]) == multiset(xs) - multiset{xs[i]}
    ensures xs == xs[..i] + ([xs[i]] + xs[i + 1..])
  {
    assert xs == xs[..i] + [xs[i]] + xs[i + 1..];
  }

  /** Every order of independent steps has the same outcome, failure included. */
  lemma {:induction false} FoldAnyOrder<S(!new), T>(f: (S, T) -> Option<S>, inv: S -> bool, s: Option<S>, xs: seq<T>,
      ys: seq<T>)
    requires Independent(f, inv, xs) && Holds(inv, s)
    requires multiset(xs) == multiset(ys)
    ensures Fold(f, s, xs) == Fold(f, s, ys)
    decreases |ys|, 0
  {
    if |ys| == 0 {
      assert |multiset(xs)| == 0;
    } else {
      assert ys[0] in multiset(xs);
      var i :| 0 <= i < |xs| && xs[i] == ys[0];
      MultisetWithout(xs, i);
      MultisetWithout(ys, 0);
      assert ys[..0] + ys[1..] == ys[1..];
      FoldAnyOrderTail(f, inv, s, xs, i, ys[1..]);
      FoldTwoFirst(f, s, ys[0], ys[0], ys[1..]);
      assert ys == [ys[0]] + ys[1..];
    }
  }

  lemma {:induction false} FoldAnyOrderTail<S(!new), T>(f: (S, T) -> Option<S>, inv: S -> bool, s: Option<S>,
      xs: seq<T>, i: nat, ys: seq<T>)
    requires Independent(f, inv, xs) && Holds(inv, s) && i < |xs|
    requires multiset(xs[..i] + xs[i + 1..]) == multiset(ys)
    ensures Fold(f, s, xs) == Fold(f, Then(f, s, xs[i]), ys)
    decreases |ys|, 1
  {
    FoldMoveToFront(f, inv, s, xs[..i], xs[i], xs[i + 1..]);
    MultisetWithout(xs, i);
    IndependentTail(f, inv, xs, i);
    assert Keeps(f, inv, xs[i]);
    FoldAnyOrder(f, inv, Then(f, s, xs[i]), xs[..i] + xs[i + 1..], ys);
    FoldTwoFirst(f, s, xs[i], xs[i], xs[..i] + xs[i + 1..]);
  }

  /** Running independent steps that each settle at once a second time changes nothing. */
  lemma {:induction false} FoldTwice<S(!new), T>(f: (S, T) -> Option<S>, inv: S -> bool, s: Option<S>, xs: seq<T>)
    requires Independent(f, inv, xs) && Holds(inv, s)
    requires forall i :: 0 <= i < |xs| ==> Settles(f, inv, xs[i])
    requires Fold(f, s, xs).Some?
    ensures Fold(f, Fold(f, s, xs), xs) == Fold(f, s, xs)
    decreases |xs|
  {
    if |xs| > 0 {
      var x, r := xs[0], xs[1..];
      IndependentTail(f, inv, xs, 0);
      assert xs[..0] + xs[1..] == r;
      var s1 := Then(f, s, x);
      FoldOfNone(f, r);
      assert Keeps(f, inv, x) && Settles(f, inv, x);
      FoldTwice(f, inv, s1, r);
      // The second run starts with x again; that x may as well come before the first run of r, where it settles.
      forall i | 0 <= i < |r| ensures Keeps(f, inv, r[i]) && Commute(f, inv, r[i], x) {
        assert r[i] == xs[i + 1];
      }
      FoldMoveToFront(f, inv, s1, r, x, []);
      FoldConcat(f, s1, r, [x] + []);
      FoldTwoFirst(f, s1, x, x, r + []);
      FoldTwoFirst(f, Fold(f, s1, r), x, x, []);
      assert r + [] == r;
    }
  }
}
