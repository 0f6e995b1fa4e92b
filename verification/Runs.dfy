/** Runs of a system that moves from state to state, and sums over its processes. */
module Runs {

  /** A run starts in an initial state, and each state is followed by a next one. */
  ghost predicate IsRun<S(!new)>(init: S -> bool, next: (S, S) -> bool, run: seq<S>) {
    && run != [] && init(run[0])
    && forall i :: 0 <= i < |run| - 1 ==> next(run[i], run[i + 1])
  }

  ghost predicate Inductive<S(!new)>(init: S -> bool, next: (S, S) -> bool, inv: S -> bool) {
    && (forall s :: init(s) ==> inv(s))
    && (forall s, s' :: inv(s) && next(s, s') ==> inv(s'))
  }

  /** What holds at the start and is kept by every step holds throughout every run. */
  lemma {:induction false} Throughout<S(!new)>(init: S -> bool, next: (S, S) -> bool, inv: S -> bool,
                                               run: seq<S>, i: nat)
    requires IsRun(init, next, run) && Inductive(init, next, inv) && i < |run|
    ensures inv(run[i])
    decreases i
  {
    if i > 0 {
      Throughout(init, next, inv, run, i - 1);
      assert next(run[i - 1], run[i - 1 + 1]);
    }
  }

  function Sum<T>(s: seq<T>, f: T -> int): int {
    if s == [] then 0 else Sum(s[..|s| - 1], f) + f(s[|s| - 1])
  }

  lemma {:induction false} SumUpdate<T>(s: seq<T>, i: nat, x: T, f: T -> int)
    requires i < |s|
    ensures Sum(s[i := x], f) == Sum(s, f) - f(s[i]) + f(x)
    decreases |s|
  {
    var n := |s| - 1;
    if i == n {
      assert s[i := x][..n] == s[..n];
    } else {
      SumUpdate(s[..n], i, x, f);
      assert s[i := x][..n] == s[..n][i := x];
    }
  }

  lemma SumAppend<T>(s: seq<T>, x: T, f: T -> int)
    ensures Sum(s + [x], f) == Sum(s, f) + f(x)
  {
    assert (s + [x])[..|s|] == s;
  }

  /** A sum of natural numbers is at least each of them. */
  lemma {:induction false} SumAtLeast<T>(s: seq<T>, i: nat, f: T -> int)
    requires i < |s| && forall j :: 0 <= j < |s| ==> 0 <= f(s[j])
    ensures 0 <= f(s[i]) <= Sum(s, f)
    decreases |s|
  {
    var n := |s| - 1;
    SumNat(s[..n], f);
    if i < n {
      SumAtLeast(s[..n], i, f);
    }
  }

  lemma {:induction false} SumNat<T>(s: seq<T>, f: T -> int)
    requires forall j :: 0 <= j < |s| ==> 0 <= f(s[j])
    ensures 0 <= Sum(s, f)
    decreases |s|
  {
    if s != [] {
      SumNat(s[..|s| - 1], f);
    }
  }

  /** A positive sum of natural numbers has a positive summand. */
  lemma {:induction false} SumPositive<T>(s: seq<T>, f: T -> int) returns (i: nat)
    requires 0 < Sum(s, f)
    ensures i < |s| && 0 < f(s[i])
    decreases |s|
  {
    var n := |s| - 1;
    if 0 < f(s[n]) {
      i := n;
    } else {
      i := SumPositive(s[..n], f);
    }
  }

  lemma {:induction false} SumZero<T>(s: seq<T>, f: T -> int)
    requires forall j :: 0 <= j < |s| ==> f(s[j]) == 0
    ensures Sum(s, f) == 0
    decreases |s|
  {
    if s != [] {
      SumZero(s[..|s| - 1], f);
    }
  }

  /** Pointwise equal summands give equal sums. */
  lemma {:induction false} SumEqual<T, U>(s: seq<T>, f: T -> int, t: seq<U>, g: U -> int)
    requires |s| == |t| && forall j :: 0 <= j < |s| ==> f(s[j]) == g(t[j])
    ensures Sum(s, f) == Sum(t, g)
    decreases |s|
  {
    if s != [] {
      SumEqual(s[..|s| - 1], f, t[..|t| - 1], g);
    }
  }

  lemma InsertMultiset<T>(q: seq<T>, pos: nat, x: T)
    requires pos <= |q|
    ensures multiset(q[..pos] + [x] + q[pos..]) == multiset(q) + multiset{x}
  {
    assert q == q[..pos] + q[pos..];
  }

  lemma TakeMultiset<T>(q: seq<T>, taken: seq<T>)
    requires q != []
    ensures multiset(taken + [q[0]]) + multiset(q[1..]) == multiset(taken) + multiset(q)
  {
    assert q == [q[0]] + q[1..];
  }

  function Bit(b: bool): nat {
    if b then 1 else 0
  }
}
