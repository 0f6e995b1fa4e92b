/** The directories of a filesystem, each linked to its parent by a name. A
    rename changes one link; what it does to pathnames is a consequence. */
module DirTree {
  import opened Pathnames

  type DirId = nat

  /** The directory "/". It has no link and its pathname is the empty string,
      so that its children are "/name". */
  const TOP: DirId := 0

  datatype Link = Link(parent: DirId, name: string)
  type Tree = map<DirId, Link>

  predicate Present(t: Tree, d: DirId) {
    d == TOP || d in t
  }

  ghost predicate Ranked(t: Tree, rank: map<DirId, nat>) {
    && TOP in rank
    && (forall d :: d in t ==> d in rank)
    && (forall d :: d in t ==> Present(t, t[d].parent) && rank[t[d].parent] < rank[d])
  }

  ghost predicate Wf(t: Tree) {
    && TOP !in t
    && (forall d :: d in t ==> ValidName(t[d].name))
    && (forall d, e :: d in t && e in t && t[d] == t[e] ==> d == e)
    && exists rank :: Ranked(t, rank)
  }

  ghost function Rank(t: Tree, d: DirId): (r: nat)
    requires Wf(t) && Present(t, d)
  {
    var rank :| Ranked(t, rank);
    rank[d]
  }

  lemma RankParent(t: Tree, d: DirId)
    requires Wf(t) && d in t
    ensures Present(t, t[d].parent) && Rank(t, t[d].parent) < Rank(t, d)
  {
  }

  function PathOf(t: Tree, d: DirId): (p: string)
    requires Wf(t) && Present(t, d)
    ensures p == "" <==> d == TOP
    decreases Rank(t, d)
  {
    if d == TOP then "" else
      RankParent(t, d);
      Child(PathOf(t, t[d].parent), t[d].name)
  }

  /** `x` is `a` or a directory below it. */
  predicate Desc(t: Tree, a: DirId, x: DirId)
    requires Wf(t) && Present(t, x)
    decreases Rank(t, x)
  {
    x == a || (x != TOP && (RankParent(t, x); Desc(t, a, t[x].parent)))
  }

  lemma {:induction false} PathInjective(t: Tree, a: DirId, b: DirId)
    requires Wf(t) && Present(t, a) && Present(t, b) && PathOf(t, a) == PathOf(t, b)
    ensures a == b
    decreases Rank(t, a)
  {
    if a != TOP && b != TOP {
      RankParent(t, a);
      RankParent(t, b);
      ChildInjective(PathOf(t, t[a].parent), t[a].name, PathOf(t, t[b].parent), t[b].name);
      PathInjective(t, t[a].parent, t[b].parent);
    }
  }

  /** The string test at component boundaries decides the subtree relation. */
  lemma {:induction false} UnderIsDesc(t: Tree, a: DirId, x: DirId)
    requires Wf(t) && Present(t, a) && Present(t, x)
    ensures IsUnder(PathOf(t, a), PathOf(t, x)) <==> Desc(t, a, x)
    decreases Rank(t, x)
  {
    if x == TOP {
    } else {
      RankParent(t, x);
      UnderChild(PathOf(t, a), PathOf(t, t[x].parent), t[x].name);
      UnderIsDesc(t, a, t[x].parent);
      if PathOf(t, a) == PathOf(t, x) {
        PathInjective(t, a, x);
      }
    }
  }

  /** A pathname at or below which some directory lies names a directory. */
  lemma {:induction false} PrefixNamesDir(t: Tree, p: string, x: DirId) returns (a: DirId)
    requires Wf(t) && x in t && p != "" && IsUnder(p, PathOf(t, x))
    ensures a in t && PathOf(t, a) == p && Desc(t, a, x)
    decreases Rank(t, x)
  {
    RankParent(t, x);
    UnderChild(p, PathOf(t, t[x].parent), t[x].name);
    if p == PathOf(t, x) {
      a := x;
    } else {
      a := PrefixNamesDir(t, p, t[x].parent);
    }
  }

  // ----- Operations ---------------------------------------------------------

  predicate Vacant(t: Tree, p: DirId, n: string) {
    forall d :: d in t ==> t[d] != Link(p, n)
  }

  predicate Leaf(t: Tree, d: DirId) {
    forall c :: c in t ==> t[c].parent != d
  }

  lemma MkdirPaths(t: Tree, p: DirId, n: string, d: DirId)
    requires Wf(t) && Present(t, p) && ValidName(n) && Vacant(t, p, n) && !Present(t, d)
    ensures var t' := t[d := Link(p, n)];
            && Wf(t') && Leaf(t', d)
            && (forall x :: Present(t, x) ==> PathOf(t', x) == PathOf(t, x))
            && PathOf(t', d) == Child(PathOf(t, p), n)
  {
    hide Wf;
    var t' := t[d := Link(p, n)];
    MkdirKeepsWf(t, p, n, d);
    forall x | Present(t, x) ensures PathOf(t', x) == PathOf(t, x) {
      SamePath(t, t', x);
    }
    RankParent(t', d);
  }

  lemma MkdirKeepsWf(t: Tree, p: DirId, n: string, d: DirId)
    requires Wf(t) && Present(t, p) && ValidName(n) && Vacant(t, p, n) && !Present(t, d)
    ensures var t' := t[d := Link(p, n)]; Wf(t') && Leaf(t', d)
  {
    var t' := t[d := Link(p, n)];
    var rank :| Ranked(t, rank);
    assert Ranked(t', rank[d := rank[p] + 1]);
  }

  /** Links that agree on a whole chain of parents give the same pathname. */
  lemma {:induction false} SamePath(t: Tree, t': Tree, x: DirId)
    requires Wf(t) && Wf(t') && Present(t, x) && Present(t', x)
    requires forall y :: Present(t, y) && Desc(t, y, x) && y != TOP ==> y in t' && t'[y] == t[y]
    ensures PathOf(t', x) == PathOf(t, x)
    decreases Rank(t, x)
  {
    if x != TOP {
      RankParent(t, x);
      assert Desc(t, x, x);
      RankParent(t', x);
      SamePath(t, t', t[x].parent);
    }
  }

  lemma RmdirPaths(t: Tree, d: DirId)
    requires Wf(t) && d in t && Leaf(t, d)
    ensures var t' := t - {d};
            && Wf(t')
            && (forall x :: Present(t', x) ==> Present(t, x) && PathOf(t', x) == PathOf(t, x))
  {
    var t' := t - {d};
    var rank :| Ranked(t, rank);
    assert Ranked(t', rank);
    forall x | Present(t', x) ensures PathOf(t', x) == PathOf(t, x) {
      forall y | Present(t, y) && Desc(t, y, x) && y != TOP ensures y in t' && t'[y] == t[y] {
        LeafHasNoDesc(t, d, x);
      }
      SamePath(t, t', x);
    }
  }

  lemma {:induction false} LeafHasNoDesc(t: Tree, d: DirId, x: DirId)
    requires Wf(t) && d in t && Leaf(t, d) && Present(t, x) && x != d
    ensures !Desc(t, d, x)
    decreases Rank(t, x)
  {
    if x != TOP {
      RankParent(t, x);
      LeafHasNoDesc(t, d, t[x].parent);
    }
  }

  predicate CanMove(t: Tree, d: DirId, q: DirId, n: string)
    requires Wf(t)
  {
    d in t && Present(t, q) && ValidName(n) && Vacant(t, q, n) && !Desc(t, d, q)
  }

  lemma MoveKeepsWf(t: Tree, d: DirId, q: DirId, n: string)
    requires Wf(t) && CanMove(t, d, q, n)
    ensures Wf(t[d := Link(q, n)])
  {
    var rank :| Ranked(t, rank);
    var _ := MoveRanks(t, d, q, n, rank);
  }

  /** What moves is ranked above its new parent. */
  lemma MoveRanks(t: Tree, d: DirId, q: DirId, n: string, rank: map<DirId, nat>) returns (rank': map<DirId, nat>)
    requires Wf(t) && CanMove(t, d, q, n) && Ranked(t, rank)
    ensures Ranked(t[d := Link(q, n)], rank')
  {
    var t' := t[d := Link(q, n)];
    rank' := map x | x in rank :: if x in t && Desc(t, d, x) then rank[x] + rank[q] + 1 else rank[x];
    forall x | x in t' ensures Present(t', t'[x].parent) && rank'[t'[x].parent] < rank'[x] {
      if x != d {
        RankParent(t, x);
      }
    }
  }

  lemma {:induction false} MovePathOutside(t: Tree, d: DirId, q: DirId, n: string, x: DirId)
    requires Wf(t) && CanMove(t, d, q, n) && Wf(t[d := Link(q, n)])
    requires Present(t, x) && !Desc(t, d, x)
    ensures PathOf(t[d := Link(q, n)], x) == PathOf(t, x)
    decreases Rank(t, x)
  {
    if x != TOP {
      RankParent(t, x);
      RankParent(t[d := Link(q, n)], x);
      MovePathOutside(t, d, q, n, t[x].parent);
    }
  }

  lemma {:induction false} MovePathInside(t: Tree, d: DirId, q: DirId, n: string, x: DirId)
    requires Wf(t) && CanMove(t, d, q, n) && Wf(t[d := Link(q, n)])
    requires x in t && Desc(t, d, x)
    ensures IsUnder(PathOf(t, d), PathOf(t, x))
    ensures PathOf(t[d := Link(q, n)], x)
         == Child(PathOf(t, q), n) + PathOf(t, x)[|PathOf(t, d)|..]
    decreases Rank(t, x)
  {
    var t' := t[d := Link(q, n)];
    UnderIsDesc(t, d, x);
    if x == d {
      RankParent(t', d);
      MovePathOutside(t, d, q, n, q);
    } else {
      RankParent(t, x);
      RankParent(t', x);
      var y := t[x].parent;
      MovePathInside(t, d, q, n, y);
      SuffixOfChild(PathOf(t, d), Child(PathOf(t, q), n), PathOf(t, y), t[x].name);
    }
  }

  lemma SuffixOfChild(p: string, to: string, y: string, n: string)
    requires |p| <= |y|
    ensures Child(to + y[|p|..], n) == to + Child(y, n)[|p|..]
  {
    assert Child(y, n)[|p|..] == y[|p|..] + "/" + n;
  }

  /** Moving one link renames the whole subtree: every pathname is rewritten
      from the old prefix to the new one, and no other pathname changes. */
  lemma MovePaths(t: Tree, d: DirId, q: DirId, n: string)
    requires Wf(t) && CanMove(t, d, q, n)
    ensures var t' := t[d := Link(q, n)];
            && Wf(t')
            && (forall x :: Present(t, x) ==>
                  PathOf(t', x) == Rewrite(PathOf(t, d), Child(PathOf(t, q), n), PathOf(t, x)))
  {
    var t' := t[d := Link(q, n)];
    MoveKeepsWf(t, d, q, n);
    forall x | Present(t, x)
      ensures PathOf(t', x) == Rewrite(PathOf(t, d), Child(PathOf(t, q), n), PathOf(t, x))
    {
      UnderIsDesc(t, d, x);
      if Desc(t, d, x) {
        MovePathInside(t, d, q, n, x);
      } else {
        MovePathOutside(t, d, q, n, x);
      }
    }
  }
}
