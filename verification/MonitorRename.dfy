/** The monitor and rename(2): moves within the monitored trees, into them, out
    of them, of a root, onto an empty directory. */
module MonitorRename {
  import opened Pathnames
  import opened DirTree
  import opened Inotify
  import opened MonitorModel
  import opened MonitorViews
  import opened MonitorSync

  /** `t'` is `t` after the directory `d`, at pathname `from`, was renamed to `to`, the
      entry `n` of `q`, and the directories of `gone` were replaced by it. */
  ghost predicate Renamed(t: Tree, t': Tree, gone: set<DirId>, d: DirId, q: DirId, n: string,
                          from: string, to: string)
  {
    && Wf(t) && Wf(t') && t'.Keys == t.Keys - gone && gone <= t.Keys
    && d in t' && Present(t', q) && Present(t', t[d].parent) && ValidName(n)
    && from == PathOf(t, d) && to == Child(PathOf(t, q), n)
    && !IsUnder(from, to)
    && (forall x :: Present(t', x) ==> PathOf(t', x) == Rewrite(from, to, PathOf(t, x)))
    && (forall x :: x in t' ==> !IsUnder(to, PathOf(t, x)))
    && (forall o :: o in gone ==> PathOf(t, o) == to)
    && (forall o, o' :: o in gone && o' in gone ==> o == o')
  }

  /** No directory but a replaced one lies at or below the target. */
  lemma TargetIsFree(t: Tree, q: DirId, n: string, x: DirId)
    requires Wf(t) && Present(t, q) && ValidName(n) && x in t && t[x] != Link(q, n)
    requires forall o :: IsChild(t, q, n, o) ==> Leaf(t, o)
    ensures !IsUnder(Child(PathOf(t, q), n), PathOf(t, x))
  {
    var to := Child(PathOf(t, q), n);
    if IsUnder(to, PathOf(t, x)) {
      var a := PrefixNamesDir(t, to, x);
      RankParent(t, a);
      ChildInjective(PathOf(t, q), n, PathOf(t, t[a].parent), t[a].name);
      PathInjective(t, q, t[a].parent);
      assert IsChild(t, q, n, a);
      LeafHasNoDesc(t, a, x);
    }
  }

  lemma TargetOutside(t: Tree, d: DirId, q: DirId, n: string)
    requires Wf(t) && ValidOp(t, Rename(d, q, n))
    ensures !IsUnder(PathOf(t, d), Child(PathOf(t, q), n))
  {
    UnderChild(PathOf(t, d), PathOf(t, q), n);
    UnderIsDesc(t, d, q);
    if PathOf(t, d) == Child(PathOf(t, q), n) {
      TargetIsFree(t, q, n, d);
    }
  }

  lemma {:induction false} RemoveReplaced(t: Tree, d: DirId, q: DirId, n: string)
    requires Wf(t) && ValidOp(t, Rename(d, q, n))
    ensures var tm := t - Replaced(t, q, n);
            && Wf(tm) && Present(tm, q) && Present(tm, t[d].parent) && d in tm && tm[d] == t[d]
            && (forall x :: Present(tm, x) ==> Present(t, x) && PathOf(tm, x) == PathOf(t, x))
  {
    hide Wf;
    var gone := Replaced(t, q, n);
    if o :| o in gone {
      assert IsChild(t, q, n, o);
      SiblingsDiffer(t, q, n, o);
      assert forall x :: x in gone ==> IsChild(t, q, n, x);
      assert gone == {o};
      RmdirPaths(t, o);
      RankParent(t, o);
      RankParent(t, d);
    } else {
      assert t - gone == t;
      RankParent(t, d);
    }
  }

  lemma SiblingsDiffer(t: Tree, q: DirId, n: string, o: DirId)
    requires Wf(t) && IsChild(t, q, n, o)
    ensures forall o' :: IsChild(t, q, n, o') ==> o' == o
  {
  }

  lemma PathOfChild(t: Tree, o: DirId)
    requires Wf(t) && o in t
    ensures Present(t, t[o].parent) && ValidName(t[o].name) && PathOf(t, o) == Child(PathOf(t, t[o].parent), t[o].name)
  {
    RankParent(t, o);
  }

  lemma RenameTarget(t: Tree, d: DirId, q: DirId, n: string)
    requires Wf(t) && ValidOp(t, Rename(d, q, n))
    ensures var gone := Replaced(t, q, n);
            var to := Child(PathOf(t, q), n);
            && (forall x :: x in t && x !in gone ==> !IsUnder(to, PathOf(t, x)))
            && (forall o :: o in gone ==> PathOf(t, o) == to)
            && (forall o, o' :: o in gone && o' in gone ==> o == o')
  {
    hide Wf, Leaf, Desc, IsUnder, PathOf;
    var gone := Replaced(t, q, n);
    forall x | x in t && x !in gone ensures !IsUnder(Child(PathOf(t, q), n), PathOf(t, x)) {
      TargetIsFree(t, q, n, x);
    }
    forall o | o in gone ensures PathOf(t, o) == Child(PathOf(t, q), n) {
      PathOfChild(t, o);
    }
    if o :| o in gone {
      SiblingsDiffer(t, q, n, o);
      assert forall o' :: o' in gone ==> IsChild(t, q, n, o');
    }
  }

  lemma RenameCanMove(t: Tree, d: DirId, q: DirId, n: string)
    requires Wf(t) && ValidOp(t, Rename(d, q, n))
    ensures var tm := t - Replaced(t, q, n); Wf(tm) && CanMove(tm, d, q, n)
  {
    hide Wf, Leaf, Desc, PathOf;
    var tm := t - Replaced(t, q, n);
    RemoveReplaced(t, d, q, n);
    UnderIsDesc(t, d, q);
    UnderIsDesc(tm, d, q);
  }

  /** One changed link renames the whole subtree, and replaces what was at the target. */
  lemma RenamePaths(t: Tree, d: DirId, q: DirId, n: string)
    requires Wf(t) && ValidOp(t, Rename(d, q, n))
    ensures Renamed(t, TreeAfter(t, Rename(d, q, n)), Replaced(t, q, n), d, q, n, PathOf(t, d), Child(PathOf(t, q), n))
  {
    hide Wf, Leaf, PathOf, Desc, IsUnder, Rewrite, Vacant;
    RemoveReplaced(t, d, q, n);
    RenameCanMove(t, d, q, n);
    MovePaths(t - Replaced(t, q, n), d, q, n);
    TargetOutside(t, d, q, n);
    RenameTarget(t, d, q, n);
  }

  /** Every operation keeps tree and watch table well-formed, whatever has been cached. */
  lemma OpKeepsWf(k: Kernel, op: Op, order: seq<DirId>)
    requires WfKernel(k) && ValidOp(k.tree, op) && Lists(order, TreeAfter(k.tree, op))
    ensures WfKernel(KernelAfter(k, op, order))
  {
    assert Wf(TreeAfter(k.tree, op)) by {
      hide Wf, Leaf, PathOf, Desc, IsUnder, Rewrite, Vacant;
      match op
      case Mkdir(p, n, d) => MkdirKeepsWf(k.tree, p, n, d);
      case Rmdir(d) => RmdirPaths(k.tree, d);
      case Rename(d, q, n) => RenamePaths(k.tree, d, q, n);
    }
    hide WfKernel, Wf, Lists, ValidOp;
    KernelAfterWf(k, op, order);
  }

  // ----- The monitored directories afterwards -------------------------------

  /** `roots'` are roots of `roots` that the rename leaves alone. */
  ghost predicate Surviving(roots': Roots, roots: Roots, to: string) {
    forall r :: IsRoot(roots', r) ==> IsRoot(roots, r) && r != to
  }

  lemma RootOverMoved(t: Tree, t': Tree, gone: set<DirId>, d: DirId, q: DirId, n: string, from: string, to: string,
                      roots: Roots, r: string, p: string)
    requires Renamed(t, t', gone, d, q, n, from, to) && RootsExist(roots, t) && IsRoot(roots, r) && r != to
    requires IsUnder(to, p)
    ensures IsUnder(r, p) <==> IsUnder(r, PathOf(t, q))
  {
    hide Wf, PathOf;
    UnderChild(r, PathOf(t, q), n);
    var x :| x in t && PathOf(t, x) == r;
    assert x in t' && !IsUnder(to, r);
    if IsUnder(r, p) {
      UnderComparable(r, to, p);
    }
    if IsUnder(r, PathOf(t, q)) {
      UnderTransitive(r, to, p);
    }
  }

  /** A moved directory is monitored when its new parent is; the others as before. */
  lemma RenameMonitored(t: Tree, t': Tree, gone: set<DirId>, d: DirId, q: DirId, n: string, from: string, to: string,
                        roots: Roots, roots': Roots, x: DirId)
    requires Renamed(t, t', gone, d, q, n, from, to) && RootsExist(roots, t) && Surviving(roots', roots, to) && x in t'
    ensures UnderRoots(roots', PathOf(t', x)) <==>
            UnderRoots(roots', if IsUnder(from, PathOf(t, x)) then PathOf(t, q) else PathOf(t, x))
  {
    hide Wf, PathOf, UnderRoots;
    if IsUnder(from, PathOf(t, x)) {
      var p := PathOf(t', x);
      RewriteRoundTrip(from, to, PathOf(t, x));
      if UnderRoots(roots', p) {
        var r := UnderRootsWitness(roots', p);
        RootOverMoved(t, t', gone, d, q, n, from, to, roots, r, p);
        UnderRootsIntro(roots', r, PathOf(t, q));
      }
      if UnderRoots(roots', PathOf(t, q)) {
        var r := UnderRootsWitness(roots', PathOf(t, q));
        RootOverMoved(t, t', gone, d, q, n, from, to, roots, r, p);
        UnderRootsIntro(roots', r, p);
      }
    }
  }

  /** Forgetting the roots at `from` and `to` takes nothing else out of view. */
  lemma UnmovedMonitored(t: Tree, t': Tree, gone: set<DirId>, d: DirId, q: DirId, n: string, from: string, to: string,
                         roots: Roots, roots': Roots, x: DirId)
    requires Renamed(t, t', gone, d, q, n, from, to) && Surviving(roots', roots, to)
    requires forall r :: IsRoot(roots, r) && r != to && r != from ==> IsRoot(roots', r)
    requires x in t' && !IsUnder(from, PathOf(t, x))
    ensures UnderRoots(roots', PathOf(t, x)) <==> UnderRoots(roots, PathOf(t, x))
  {
    hide Wf, PathOf, UnderRoots;
    var p := PathOf(t, x);
    if UnderRoots(roots, p) {
      var r := UnderRootsWitness(roots, p);
      UnderRootsIntro(roots', r, p);
    }
    if UnderRoots(roots', p) {
      var r := UnderRootsWitness(roots', p);
      UnderRootsIntro(roots, r, p);
    }
  }

  lemma MovedOutSnapshot(t: Tree, t': Tree, gone: set<DirId>, d: DirId, q: DirId, n: string, from: string, to: string,
                         roots: Roots, roots': Roots)
    requires Renamed(t, t', gone, d, q, n, from, to) && RootsExist(roots, t) && Surviving(roots', roots, to)
    requires forall r :: IsRoot(roots, r) && r != to && r != from ==> IsRoot(roots', r)
    requires !UnderRoots(roots', PathOf(t, q))
    ensures Snapshot(roots', t') == Without(Snapshot(roots, t) - gone, from)
  {
    hide Wf, PathOf, UnderRoots, IsUnder, RootsExist, Surviving;
    forall x | x in t'
      ensures UnderRoots(roots', PathOf(t', x)) <==> !IsUnder(from, PathOf(t, x)) && UnderRoots(roots, PathOf(t, x))
    {
      RenameMonitored(t, t', gone, d, q, n, from, to, roots, roots', x);
      if !IsUnder(from, PathOf(t, x)) {
        UnmovedMonitored(t, t', gone, d, q, n, from, to, roots, roots', x);
      }
    }
  }

  lemma SubtreeAtTarget(t: Tree, t': Tree, gone: set<DirId>, d: DirId, q: DirId, n: string, from: string, to: string)
    requires Renamed(t, t', gone, d, q, n, from, to)
    ensures forall x :: x in Subtree(t', to) <==> x in t' && IsUnder(from, PathOf(t, x))
  {
    hide Wf, PathOf;
    forall x | x in t' ensures IsUnder(to, PathOf(t', x)) <==> IsUnder(from, PathOf(t, x)) {
      if IsUnder(from, PathOf(t, x)) {
        RewriteRoundTrip(from, to, PathOf(t, x));
      }
    }
  }

  lemma MovedInSnapshot(t: Tree, t': Tree, gone: set<DirId>, d: DirId, q: DirId, n: string, from: string, to: string,
                        roots: Roots)
    requires Renamed(t, t', gone, d, q, n, from, to) && RootsExist(roots, t) && Surviving(roots, roots, to)
    requires UnderRoots(roots, PathOf(t, q))
    ensures Snapshot(roots, t') == Extend(Without(Snapshot(roots, t) - gone, from), t', Subtree(t', to))
  {
    hide Wf, PathOf, UnderRoots, IsUnder, RootsExist, Surviving, Subtree;
    SubtreeAtTarget(t, t', gone, d, q, n, from, to);
    forall x | x in t'
      ensures UnderRoots(roots, PathOf(t', x)) <==> IsUnder(from, PathOf(t, x)) || UnderRoots(roots, PathOf(t, x))
    {
      RenameMonitored(t, t', gone, d, q, n, from, to, roots, roots, x);
    }
  }

  lemma MovedWithinSnapshot(t: Tree, t': Tree, gone: set<DirId>, d: DirId, q: DirId, n: string,
                            from: string, to: string,
                            roots: Roots)
    requires Renamed(t, t', gone, d, q, n, from, to) && RootsExist(roots, t) && Surviving(roots, roots, to)
    requires UnderRoots(roots, PathOf(t, q)) && UnderRoots(roots, from)
    ensures Snapshot(roots, t') == RewriteView(Snapshot(roots, t) - gone, from, to)
  {
    hide Wf, PathOf;
    forall x | x in t' ensures UnderRoots(roots, PathOf(t', x)) <==> UnderRoots(roots, PathOf(t, x)) {
      RenameMonitored(t, t', gone, d, q, n, from, to, roots, roots, x);
      if IsUnder(from, PathOf(t, x)) {
        var r := UnderRootsWitness(roots, from);
        UnderTransitive(r, from, PathOf(t, x));
        UnderRootsIntro(roots, r, PathOf(t, x));
      }
    }
  }

  lemma RootsStillExist(t: Tree, t': Tree, gone: set<DirId>, d: DirId, q: DirId, n: string, from: string, to: string,
                        roots: Roots, roots': Roots)
    requires Renamed(t, t', gone, d, q, n, from, to) && RootsExist(roots, t) && RootsNamed(roots)
    requires Surviving(roots', roots, to) && forall r :: IsRoot(roots', r) ==> !IsUnder(from, r)
    ensures RootsExist(roots', t') && RootsNamed(roots')
  {
    hide Wf, PathOf;
    forall r | IsRoot(roots', r) ensures Names(t', r) {
      var x :| x in t && PathOf(t, x) == r;
      assert x in t';
      assert PathOf(t', x) == r;
    }
  }

  // ----- Handling the events ------------------------------------------------

  lemma HandleDeparture(s: Monitor, view: View, stale: map<int, string>, p: DirId, f: Event)
    requires Mirrors(s, view, stale) && p in view && !s.exited && KernelEvent(f) && f.wd == s.k.watch[p]
    requires f.mask == {MOVED_FROM, ISDIR}
    requires forall wd :: wd in stale ==> !IsUnder(Child(view[p], f.name), stale[wd])
    ensures var path := Child(view[p], f.name);
            && Process(s, [f], false) == Consumed(Zap(s, path), 1)
            && Mirrors(Zap(s, path), Without(view, path), stale)
            && (SelfMoves(s, view) ==> SelfMoves(Zap(s, path), Without(view, path)))
  {
    hide Wf, WfTable, Entries, Zap, Rebuild, WatchSubtree, SelfMoves, CanZap, IsUnder;
    CachedAs(s, view, stale, p);
    ZapMirrors(s, view, stale, Child(view[p], f.name));
  }

  lemma HandlePair(s: Monitor, view: View, stale: map<int, string>, p: DirId, q: DirId, f: Event, e: Event)
    requires Mirrors(s, view, stale) && p in view && q in view && !s.exited && KernelEvent(f)
    requires f.wd == s.k.watch[p] && f.mask == {MOVED_FROM, ISDIR}
    requires e.wd == s.k.watch[q] && Pairs(f, e)
    ensures var from := Child(view[p], f.name);
            var to := Child(view[q], e.name);
            var s' := s.(cache := RewriteCache(s.cache, from, to));
            && Process(s, [f, e], true) == Consumed(s', 2)
            && Mirrors(s', RewriteView(view, from, to), RewriteCache(stale, from, to))
  {
    hide Wf, WfTable, Entries, Rebuild, RewriteCache, RewriteView, WatchSubtree, Zap, ZapRoot, IsUnder;
    CachedAs(s, view, stale, p);
    CachedAs(s, view, stale, q);
    RewriteMirrors(s, view, stale, Child(view[p], f.name), Child(view[q], e.name));
  }

  lemma ZapKeepsFlags(s: Monitor, view: View, stale: map<int, string>, path: string)
    requires Mirrors(s, view, stale)
    ensures forall x :: x in Without(view, path) ==> (x in Zap(s, path).k.selfMove <==> x in s.k.selfMove)
  {
    hide Wf;
    forall x | x in Without(view, path) ensures s.k.watch[x] !in Matched(s.cache, path) {
      CachedAs(s, view, stale, x);
    }
  }

  lemma HandleSelfMove(s: Monitor, view: View, stale: map<int, string>, d: DirId)
    requires Mirrors(s, view, stale) && d in view && !s.exited && IsRoot(s.roots, view[d])
    requires forall wd :: wd in stale ==> !IsUnder(view[d], stale[wd])
    ensures var e := Event(s.k.watch[d], {MOVE_SELF}, 0, "");
            var z := ZapRoot(s, view[d]);
            var s' := if z.exited then z else Zap(z, view[d]);
            && KernelEvent(e) && Process(s, [e], false) == Consumed(s', 1)
            && RootsWithout(s'.roots, s.roots, view[d])
            && (s'.exited <==> forall r :: !IsRoot(s'.roots, r))
            && (!s'.exited ==> Mirrors(s', Without(view, view[d]), stale))
            && (!s'.exited && SelfMoves(s, view) ==> SelfMoves(s', Without(view, view[d])))
  {
    hide Wf, WfTable, Rebuild, WatchSubtree, CanZap, RemoveWatches;
    CachedAs(s, view, stale, d);
    var z := ZapRoot(s, view[d]);
    ZapRootRoots(s, view[d]);
    if !z.exited {
      ZapMirrors(z, view, stale, view[d]);
      ZapKeepsFlags(z, view, stale, view[d]);
    }
  }

  /** The deletion events of a replaced directory, which end every rename. */
  lemma HandleReplaced(s: Monitor, view: View, stale: map<int, string>, evs: seq<Event>, to: string)
    requires Mirrors(s, view, stale) && !s.exited
    requires (stale == map[] && evs == [] && !IsRoot(s.roots, to)) ||
             (exists wd :: 1 <= wd && stale == map[wd := to] && evs == DeletionPair(wd))
    ensures NoMovedFrom(evs)
    ensures var s' := RunSingles(s, evs);
            && s'.k == s.k && RootsWithout(s'.roots, s.roots, to)
            && (s'.exited ==> forall r :: !IsRoot(s'.roots, r))
            && (!s'.exited ==> Mirrors(s', view, map[]))
            && (SelfMoves(s, view) && (IsRoot(s.roots, to) ==> !InView(view, to)) ==> SelfMoves(s', view))
  {
    hide WfKernel, Mirrors, SelfMoves, InView, Process;
    if wd :| 1 <= wd && stale == map[wd := to] && evs == DeletionPair(wd) {
      HandleDeletion(s, view, wd, to);
    }
  }

  // ----- A rename of a synced monitor ---------------------------------------

  ghost predicate Scene(s: Monitor, op: Op, order: seq<DirId>) {
    && Synced(s) && !s.exited && op.Rename?
    && ValidOp(s.k.tree, op) && Lists(order, TreeAfter(s.k.tree, op))
  }

  ghost function OldPath(s: Monitor, op: Op): string
    requires Wf(s.k.tree) && op.Rename? && op.dir in s.k.tree
  {
    PathOf(s.k.tree, op.dir)
  }

  ghost function NewPath(s: Monitor, op: Op): string
    requires Wf(s.k.tree) && op.Rename? && Present(s.k.tree, op.target)
  {
    Child(PathOf(s.k.tree, op.target), op.name)
  }

  ghost predicate Watched(s: Monitor, d: DirId)
    requires Wf(s.k.tree)
  {
    d in Snapshot(s.roots, s.k.tree)
  }

  ghost predicate Replaces(s: Monitor, op: Op) {
    op.Rename? && Replaced(s.k.tree, op.target, op.name) != {}
  }

  /** What the view is while the events wait to be handled. */
  ghost function Pending(s: Monitor, op: Op): View
    requires Wf(s.k.tree)
  {
    Snapshot(s.roots, s.k.tree) - Deleted(s.k.tree, op)
  }

  /** The moved directory is a proper ancestor of a monitored root. */
  ghost predicate AboveRoot(s: Monitor, op: Op)
    requires Wf(s.k.tree) && op.Rename? && op.dir in s.k.tree
  {
    exists r :: IsRoot(s.roots, r) && IsUnder(OldPath(s, op), r) && r != OldPath(s, op)
  }

  /** The rename leaves a root in the list although nothing is left at its pathname: one below
      the moved directory, or the directory itself when its parent is monitored too. */
  ghost predicate Dangles(s: Monitor, op: Op)
    requires Wf(s.k.tree) && op.Rename? && op.dir in s.k.tree
  {
    exists r :: IsRoot(s.roots, r) && IsUnder(OldPath(s, op), r) &&
                (Watched(s, s.k.tree[op.dir].parent) || r != OldPath(s, op))
  }

  ghost predicate Tail(roots: Roots, stale: map<int, string>, evs: seq<Event>, to: string) {
    (stale == map[] && evs == [] && !IsRoot(roots, to)) ||
    (exists wd :: 1 <= wd && stale == map[wd := to] && evs == DeletionPair(wd))
  }

  lemma SceneTail(s: Monitor, op: Op, order: seq<DirId>)
    requires Scene(s, op, order)
    ensures var stale := StaleAfter(s, Snapshot(s.roots, s.k.tree), op);
            && Tail(s.roots, stale, ReplacedEvents(s.k, op.target, op.name), NewPath(s, op))
            && (Replaces(s, op) && Watched(s, op.target) ==> stale != map[])
            && (!Replaces(s, op) ==> stale == map[] && ReplacedEvents(s.k, op.target, op.name) == [])
  {
    hide Wf, SelfMoves, Leaf, IsUnder, Desc, Entries, WfTable, PathOf, UnderRoots, Lists;
    var t := s.k.tree;
    RenamePaths(t, op.dir, op.target, op.name);
    var gone := Replaced(t, op.target, op.name);
    if o: DirId :| IsChild(t, op.target, op.name, o) {
      assert o in gone;
      assert gone == {o};
      ReplacedTail(s, op, o);
      if Watched(s, op.target) {
        WatchedChild(s, o);
      }
    } else {
      assert forall x :: x in gone ==> IsChild(t, op.target, op.name, x);
      assert gone == {};
      StaleIsEmpty(s, Snapshot(s.roots, t), op);
      UnderReflexive(NewPath(s, op));
      assert forall x :: x in t ==> PathOf(t, x) != NewPath(s, op);
    }
  }

  /** A replaced directory that was watched leaves a stale entry and two events. */
  lemma ReplacedTail(s: Monitor, op: Op, o: DirId)
    requires Synced(s) && op.Rename? && Present(s.k.tree, op.target) && IsChild(s.k.tree, op.target, op.name, o)
    requires Deleted(s.k.tree, op) == {o} && PathOf(s.k.tree, o) == NewPath(s, op)
    ensures var stale := StaleAfter(s, Snapshot(s.roots, s.k.tree), op);
            && Tail(s.roots, stale, ReplacedEvents(s.k, op.target, op.name), NewPath(s, op))
            && (Watched(s, o) ==> stale != map[])
  {
    hide SelfMoves, IsUnder, Entries, WfTable, PathOf, UnderRoots, Lists;
    var view: View := Snapshot(s.roots, s.k.tree);
    SiblingsDiffer(s.k.tree, op.target, op.name, o);
    if o in view {
      StaleIs(s, view, op, o);
      CachedAs(s, view, map[], o);
      assert s.k.watch[o] in StaleAfter(s, view, op);
    } else {
      StaleIsEmpty(s, view, op);
      UnwatchedIsNoRoot(s.roots, s.k.tree, o);
    }
  }

  lemma UnderReflexive(p: string)
    ensures IsUnder(p, p)
  {
  }

  /** Everything in a monitored directory is monitored. */
  lemma WatchedChild(s: Monitor, d: DirId)
    requires WfKernel(s.k) && d in s.k.tree && Watched(s, s.k.tree[d].parent)
    ensures Watched(s, d)
  {
    hide Wf;
    var t := s.k.tree;
    PathOfChild(t, d);
    var r := RootAboveChild(s, t[d].parent, t[d].name);
    UnderRootsIntro(s.roots, r, PathOf(t, d));
  }

  /** Some root lies at or above a monitored directory, and so strictly above its children. */
  lemma RootAboveChild(s: Monitor, q: DirId, n: string) returns (r: string)
    requires WfKernel(s.k) && ValidName(n) && Watched(s, q)
    ensures var c := PathOf(s.k.tree, q);
            IsRoot(s.roots, r) && IsUnder(r, c) && IsUnder(r, Child(c, n)) && r != Child(c, n)
  {
    hide Wf;
    var c := PathOf(s.k.tree, q);
    r := UnderRootsWitness(s.roots, c);
    UnderChild(r, c, n);
  }

  lemma WatchedParent(s: Monitor, d: DirId)
    requires WfKernel(s.k) && RootsNamed(s.roots) && d in s.k.tree && Watched(s, d)
    requires !IsRoot(s.roots, PathOf(s.k.tree, d))
    ensures Watched(s, s.k.tree[d].parent)
  {
    var t := s.k.tree;
    PathOfChild(t, d);
    var r := UnderRootsWitness(s.roots, PathOf(t, d));
    UnderChild(r, PathOf(t, t[d].parent), t[d].name);
    UnderRootsIntro(s.roots, r, PathOf(t, t[d].parent));
  }

  /** Nothing watched lies below a directory that is neither watched nor above a root. */
  lemma NothingBelow(s: Monitor, op: Op, order: seq<DirId>)
    requires Scene(s, op, order) && !Watched(s, op.dir) && !AboveRoot(s, op)
    ensures Without(Pending(s, op), OldPath(s, op)) == Pending(s, op)
    ensures forall r :: IsRoot(s.roots, r) ==> !IsUnder(OldPath(s, op), r)
  {
    hide Wf, PathOf, Leaf, Desc, SelfMoves, Entries, WfTable;
    var t := s.k.tree;
    UnwatchedIsNoRoot(s.roots, t, op.dir);
    forall x | x in Snapshot(s.roots, t) ensures !IsUnder(OldPath(s, op), PathOf(t, x)) {
      if IsUnder(OldPath(s, op), PathOf(t, x)) {
        var r := UnderRootsWitness(s.roots, PathOf(t, x));
        UnderComparable(r, OldPath(s, op), PathOf(t, x));
        if IsUnder(r, OldPath(s, op)) {
          UnderRootsIntro(s.roots, r, OldPath(s, op));
        }
      }
    }
  }

  lemma NotWatched(s: Monitor, q: DirId)
    requires WfKernel(s.k) && RootsNamed(s.roots) && Present(s.k.tree, q) && !Watched(s, q)
    ensures !UnderRoots(s.roots, PathOf(s.k.tree, q))
  {
    hide Wf;
    if UnderRoots(s.roots, PathOf(s.k.tree, q)) {
      var r := UnderRootsWitness(s.roots, PathOf(s.k.tree, q));
    }
  }

  // ----- The four kinds of rename -------------------------------------------

  /** The outcome of a followed rename; `whole` says that every root left exists. */
  ghost predicate Followed(s': Monitor, whole: bool) {
    if s'.exited then forall r :: !IsRoot(s'.roots, r) else Exact(s') && (whole ==> Synced(s'))
  }

  ghost predicate NoneBelow(roots: Roots, from: string) {
    forall r :: IsRoot(roots, r) ==> !IsUnder(from, r)
  }

  lemma SceneStart(s: Monitor, op: Op, order: seq<DirId>)
    requires Scene(s, op, order)
    ensures var s1 := AfterOp(s, op, order);
            var stale := StaleAfter(s, Snapshot(s.roots, s.k.tree), op);
            && Renamed(s.k.tree, s1.k.tree, Replaced(s.k.tree, op.target, op.name), op.dir, op.target, op.name,
                       OldPath(s, op), NewPath(s, op))
            && Mirrors(s1, Pending(s, op), stale) && SelfMoves(s1, Pending(s, op))
            && (forall wd :: wd in stale ==> stale[wd] == NewPath(s, op))
            && (forall wd :: wd in stale ==> !IsUnder(OldPath(s, op), stale[wd]))
  {
    hide Wf, PathOf, Leaf, Desc, SelfMoves, Entries, WfTable, IsUnder;
    RenamePaths(s.k.tree, op.dir, op.target, op.name);
    AfterOpMirrors(s, Snapshot(s.roots, s.k.tree), op, order);
    SceneTail(s, op, order);
  }

  /** Nothing watched has the target's pathname. */
  lemma TargetNotInView(s: Monitor, op: Op, order: seq<DirId>, from: string)
    requires Scene(s, op, order)
    ensures !InView(Pending(s, op), NewPath(s, op))
    ensures !InView(Without(Pending(s, op), from), NewPath(s, op))
  {
    hide Wf, PathOf, Leaf, Desc, SelfMoves, Entries, WfTable;
    RenamePaths(s.k.tree, op.dir, op.target, op.name);
    var view := Pending(s, op);
    forall x | x in view ensures view[x] != NewPath(s, op) {
      UnderReflexive(NewPath(s, op));
    }
  }

  /** Moved out of the monitored trees, or from one unmonitored place to another: the
      entries below the old pathname go, and the roots at both ends are forgotten. */
  lemma FinishOut(s: Monitor, op: Op, order: seq<DirId>, s2: Monitor, whole: bool)
    requires Scene(s, op, order) && !Watched(s, op.target) && !s2.exited
    requires var stale := StaleAfter(s, Snapshot(s.roots, s.k.tree), op);
             var view2 := Without(Pending(s, op), OldPath(s, op));
             Mirrors(s2, view2, stale) && SelfMoves(s2, view2)
    requires s2.k.tree == TreeAfter(s.k.tree, op)
    requires RootsWithout(s2.roots, s.roots, OldPath(s, op))
    requires whole ==> NoneBelow(s2.roots, OldPath(s, op))
    ensures var evs := ReplacedEvents(s.k, op.target, op.name);
            NoMovedFrom(evs) && Followed(RunSingles(s2, evs), whole)
  {
    hide Wf, PathOf, Leaf, Desc, SelfMoves, Entries, WfTable, IsUnder, UnderRoots, InView, Snapshot, Without,
         RootsExist, RootsNamed, Renamed, ReplacedEvents, Lists;
    var from, to := OldPath(s, op), NewPath(s, op);
    var stale := StaleAfter(s, Snapshot(s.roots, s.k.tree), op);
    var evs := ReplacedEvents(s.k, op.target, op.name);
    SceneTail(s, op, order);
    TargetNotInView(s, op, order, from);
    RenamePaths(s.k.tree, op.dir, op.target, op.name);
    var gone := Replaced(s.k.tree, op.target, op.name);
    HandleReplaced(s2, Without(Pending(s, op), from), stale, evs, to);
    var s' := RunSingles(s2, evs);
    if !s'.exited {
      NotWatched(s, op.target);
      FewerRoots(s.roots, s'.roots, PathOf(s.k.tree, op.target));
      MovedOutSnapshot(s.k.tree, s2.k.tree, gone, op.dir, op.target, op.name, from, to, s.roots, s'.roots);
      if whole {
        RootsStillExist(s.k.tree, s2.k.tree, gone, op.dir, op.target, op.name, from, to, s.roots, s'.roots);
      }
    }
  }

  lemma FewerRoots(roots: Roots, roots': Roots, p: string)
    requires forall r :: IsRoot(roots', r) ==> IsRoot(roots, r)
    requires !UnderRoots(roots, p)
    ensures !UnderRoots(roots', p)
  {
    if UnderRoots(roots', p) {
      var r := UnderRootsWitness(roots', p);
      UnderRootsIntro(roots, r, p);
    }
  }

  lemma ArrivalSnapshot(s: Monitor, op: Op, order: seq<DirId>)
    requires Scene(s, op, order) && Watched(s, op.target) && !Replaces(s, op)
    ensures var t' := TreeAfter(s.k.tree, op);
            && Wf(t') && (NoneBelow(s.roots, OldPath(s, op)) ==> RootsExist(s.roots, t'))
            && Snapshot(s.roots, t') == Extend(Without(Pending(s, op), OldPath(s, op)), t', Subtree(t', NewPath(s, op)))
  {
    hide Wf, PathOf, Leaf, Desc, SelfMoves, Entries, WfTable, IsUnder, UnderRoots, Extend, Without;
    var t, t' := s.k.tree, TreeAfter(s.k.tree, op);
    var from, to := OldPath(s, op), NewPath(s, op);
    RenamePaths(t, op.dir, op.target, op.name);
    SceneTail(s, op, order);
    var r := RootAboveChild(s, op.target, op.name);
    UnderRootsIntro(s.roots, r, PathOf(t, op.target));
    MovedInSnapshot(t, t', {}, op.dir, op.target, op.name, from, to, s.roots);
    if NoneBelow(s.roots, from) {
      RootsStillExist(t, t', {}, op.dir, op.target, op.name, from, to, s.roots, s.roots);
    }
  }

  /** Arrived at an unoccupied place in the monitored trees, with no cache entry
      left below the old pathname: the walk caches what arrived. */
  lemma FinishIn(s: Monitor, op: Op, order: seq<DirId>, s2: Monitor, e: Event)
    requires Scene(s, op, order) && Watched(s, op.target) && !s2.exited && !Replaces(s, op)
    requires var view2 := Without(Pending(s, op), OldPath(s, op));
             Mirrors(s2, view2, map[]) && SelfMoves(s2, view2)
    requires s2.k.tree == TreeAfter(s.k.tree, op) && s2.roots == s.roots
    requires op.target in s2.k.watch && e == Event(s2.k.watch[op.target], {MOVED_TO, ISDIR}, COOKIE, op.name)
    ensures NoMovedFrom([e]) && !RunSingles(s2, [e]).exited
    ensures Followed(RunSingles(s2, [e]), NoneBelow(s.roots, OldPath(s, op)))
  {
    hide Wf, PathOf, Leaf, Desc, SelfMoves, Entries, WfTable, IsUnder, UnderRoots, InView, WatchSubtree, Process,
         Extend, Without, Snapshot, UpToDate, RootsExist, RootsNamed, NoneBelow, Subtree;
    var view2: View := Without(Pending(s, op), OldPath(s, op));
    TargetStays(s, op, order);
    CachedAs(s2, view2, map[], op.target);
    TargetNotInView(s, op, order, OldPath(s, op));
    HandleArrival(s2, view2, map[], op.target, op.name, e);
    var s3 := WatchSubtree(s2, NewPath(s, op));
    WatchSubtreeMirrors(s2, view2, map[], NewPath(s, op));
    ArrivalsAreNew(s, op, order);
    ArrivalSnapshot(s, op, order);
    RunSinglesCons(s2, e, [], s3);
    assert [e] + [] == [e];
  }

  lemma TargetStays(s: Monitor, op: Op, order: seq<DirId>)
    requires Scene(s, op, order) && Watched(s, op.target)
    ensures var view2 := Without(Pending(s, op), OldPath(s, op));
            op.target in view2 && view2[op.target] == PathOf(s.k.tree, op.target)
  {
    hide Wf, PathOf, Leaf, SelfMoves, Entries, WfTable;
    RenamePaths(s.k.tree, op.dir, op.target, op.name);
    UnderChild(OldPath(s, op), PathOf(s.k.tree, op.target), op.name);
  }

  lemma ArrivalsAreNew(s: Monitor, op: Op, order: seq<DirId>)
    requires Scene(s, op, order)
    ensures var t' := TreeAfter(s.k.tree, op);
            Wf(t') && UpToDate(Without(Pending(s, op), OldPath(s, op)), t', Subtree(t', NewPath(s, op)))
  {
    hide Wf, PathOf, Leaf, SelfMoves, Entries, WfTable, IsUnder;
    RenamePaths(s.k.tree, op.dir, op.target, op.name);
    SubtreeAtTarget(s.k.tree, TreeAfter(s.k.tree, op), Replaced(s.k.tree, op.target, op.name),
                    op.dir, op.target, op.name, OldPath(s, op), NewPath(s, op));
  }

  // ----- Renames that are followed ------------------------------------------

  ghost function FromEvent(s: Monitor, op: Op): (f: Event)
    requires op.Rename? && op.dir in s.k.tree && s.k.tree[op.dir].parent in s.k.watch
  {
    var l := s.k.tree[op.dir];
    Event(s.k.watch[l.parent], {MOVED_FROM, ISDIR}, COOKIE, l.name)
  }

  ghost function ToEvent(s: Monitor, op: Op): (e: Event)
    requires op.Rename? && op.target in s.k.watch
  {
    Event(s.k.watch[op.target], {MOVED_TO, ISDIR}, COOKIE, op.name)
  }

  lemma ParentStays(s: Monitor, op: Op, order: seq<DirId>)
    requires Scene(s, op, order) && Watched(s, s.k.tree[op.dir].parent)
    ensures var p := s.k.tree[op.dir].parent;
            && p in Pending(s, op) && Child(Pending(s, op)[p], s.k.tree[op.dir].name) == OldPath(s, op)
            && |s.k.tree[op.dir].name| <= NAME_MAX
  {
    hide Wf, Leaf, Desc, SelfMoves, Entries, WfTable, IsUnder;
    RenamePaths(s.k.tree, op.dir, op.target, op.name);
    PathOfChild(s.k.tree, op.dir);
  }

  /** The pair of events renames the cache entries as the tree was renamed. */
  lemma WithinPair(s: Monitor, op: Op, order: seq<DirId>)
    requires Scene(s, op, order) && Watched(s, s.k.tree[op.dir].parent) && Watched(s, op.target)
    ensures var s1 := AfterOp(s, op, order);
            var s2 := s1.(cache := RewriteCache(s1.cache, OldPath(s, op), NewPath(s, op)));
            && WfKernel(s1.k) && KernelEvent(FromEvent(s, op))
            && Process(s1, [FromEvent(s, op), ToEvent(s, op)], true) == Consumed(s2, 2)
            && Mirrors(s2, RewriteView(Pending(s, op), OldPath(s, op), NewPath(s, op)),
                       StaleAfter(s, Snapshot(s.roots, s.k.tree), op))
  {
    hide Wf, PathOf, Leaf, Desc, Entries, WfTable, IsUnder, UnderRoots, InView, Process, Without, Snapshot, RootsExist,
         RootsNamed, RewriteCache, RewriteView;
    var s1 := AfterOp(s, op, order);
    var from, to := OldPath(s, op), NewPath(s, op);
    var view: View := Pending(s, op);
    var p := s.k.tree[op.dir].parent;
    var stale := StaleAfter(s, Snapshot(s.roots, s.k.tree), op);
    SceneStart(s, op, order);
    ParentStays(s, op, order);
    TargetStays(s, op, order);
    assert op.target in view && Child(view[op.target], op.name) == to by { WithoutIsSmaller(view, from); }
    CachedAs(s1, view, stale, p);
    HandlePair(s1, view, stale, p, op.target, FromEvent(s, op), ToEvent(s, op));
    StaleNotRewritten(stale, from, to);
  }

  /** The deletion events after it, if a directory was replaced. */
  lemma FinishWithin(s: Monitor, op: Op, order: seq<DirId>, s2: Monitor)
    requires Scene(s, op, order) && Watched(s, s.k.tree[op.dir].parent) && Watched(s, op.target)
    requires Mirrors(s2, RewriteView(Pending(s, op), OldPath(s, op), NewPath(s, op)),
                     StaleAfter(s, Snapshot(s.roots, s.k.tree), op))
    requires s2.roots == s.roots && !s2.exited && s2.k == AfterOp(s, op, order).k
    ensures var evs := ReplacedEvents(s.k, op.target, op.name);
            && NoMovedFrom(evs) && !RunSingles(s2, evs).exited
            && Followed(RunSingles(s2, evs), NoneBelow(s.roots, OldPath(s, op)))
  {
    hide Wf, PathOf, Leaf, Desc, Entries, WfTable, IsUnder, UnderRoots, InView, Process, Without, Snapshot, RootsExist,
         RootsNamed, RewriteView, NoneBelow, SelfMoves;
    var from, to := OldPath(s, op), NewPath(s, op);
    var evs := ReplacedEvents(s.k, op.target, op.name);
    SceneTail(s, op, order);
    HandleReplaced(s2, RewriteView(Pending(s, op), from, to), StaleAfter(s, Snapshot(s.roots, s.k.tree), op), evs, to);
    var s' := RunSingles(s2, evs);
    var r := RootAboveChild(s, op.target, op.name);
    WithinSnapshot(s, op, order, s'.roots);
    if NoneBelow(s.roots, from) {
      WithinFlags(s, op, order, s'.roots);
      FlagsOnly(AfterOp(s, op, order), s', RewriteView(Pending(s, op), from, to));
    }
  }

  /** Only watches and roots matter for the request of IN_MOVE_SELF. */
  lemma FlagsOnly(s: Monitor, s': Monitor, view: View)
    requires s'.k == s.k && SelfMoves(s.(roots := s'.roots), view)
    ensures SelfMoves(s', view)
  {
  }

  lemma WithoutIsSmaller(view: View, path: string)
    ensures forall x :: x in Without(view, path) ==> x in view && Without(view, path)[x] == view[x]
  {
  }

  lemma StaleNotRewritten(stale: map<int, string>, from: string, to: string)
    requires forall wd :: wd in stale ==> !IsUnder(from, stale[wd])
    ensures RewriteCache(stale, from, to) == stale
  {
    var r := RewriteCache(stale, from, to);
    forall wd ensures wd in r <==> wd in stale {}
    forall wd | wd in stale ensures r[wd] == stale[wd] {}
    assert r == stale;
  }

  /** Forgetting a root at the target of a rename takes only the replaced directory out of view. */
  lemma WithoutTarget(s: Monitor, op: Op, order: seq<DirId>, roots': Roots)
    requires Scene(s, op, order) && RootsWithout(roots', s.roots, NewPath(s, op))
    ensures Snapshot(roots', s.k.tree) - Replaced(s.k.tree, op.target, op.name) == Pending(s, op)
    ensures RootsExist(roots', s.k.tree)
  {
    hide Wf, PathOf, Leaf, Desc, SelfMoves, Entries, WfTable, UnderRoots, IsUnder;
    var t := s.k.tree;
    RenamePaths(t, op.dir, op.target, op.name);
    forall x | x in t && x !in Replaced(t, op.target, op.name)
      ensures UnderRoots(roots', PathOf(t, x)) <==> UnderRoots(s.roots, PathOf(t, x))
    {
      assert x in TreeAfter(t, op);
      if UnderRoots(s.roots, PathOf(t, x)) {
        var r := UnderRootsWitness(s.roots, PathOf(t, x));
        UnderRootsIntro(roots', r, PathOf(t, x));
      }
      if UnderRoots(roots', PathOf(t, x)) {
        var r := UnderRootsWitness(roots', PathOf(t, x));
        UnderRootsIntro(s.roots, r, PathOf(t, x));
      }
    }
  }

  lemma WithinSnapshot(s: Monitor, op: Op, order: seq<DirId>, roots': Roots)
    requires Scene(s, op, order) && Watched(s, s.k.tree[op.dir].parent) && Watched(s, op.target)
    requires RootsWithout(roots', s.roots, NewPath(s, op))
    ensures var t' := TreeAfter(s.k.tree, op);
            && Wf(t') && RootsNamed(roots')
            && (NoneBelow(s.roots, OldPath(s, op)) ==> RootsExist(roots', t'))
            && Snapshot(roots', t') == RewriteView(Pending(s, op), OldPath(s, op), NewPath(s, op))
  {
    hide Wf, PathOf, Leaf, Desc, SelfMoves, Entries, WfTable, IsUnder, UnderRoots, RewriteView, Snapshot, Deleted;
    var t, t' := s.k.tree, TreeAfter(s.k.tree, op);
    var from, to := OldPath(s, op), NewPath(s, op);
    var gone := Replaced(t, op.target, op.name);
    RenamePaths(t, op.dir, op.target, op.name);
    WithoutTarget(s, op, order, roots');
    BothEndsMonitored(s, op, order, roots');
    MovedWithinSnapshot(t, t', gone, op.dir, op.target, op.name, from, to, roots');
    if NoneBelow(s.roots, from) {
      RootsStillExist(t, t', gone, op.dir, op.target, op.name, from, to, roots', roots');
    }
  }

  lemma BothEndsMonitored(s: Monitor, op: Op, order: seq<DirId>, roots': Roots)
    requires Scene(s, op, order) && Watched(s, s.k.tree[op.dir].parent) && Watched(s, op.target)
    requires RootsWithout(roots', s.roots, NewPath(s, op))
    ensures UnderRoots(roots', PathOf(s.k.tree, op.target)) && UnderRoots(roots', OldPath(s, op))
  {
    hide Wf, PathOf, Leaf, Desc, SelfMoves, Entries, WfTable, IsUnder, UnderRoots;
    var t := s.k.tree;
    RenamePaths(t, op.dir, op.target, op.name);
    var r := RootAboveChild(s, op.target, op.name);
    UnderRootsIntro(roots', r, PathOf(t, op.target));
    PathOfChild(t, op.dir);
    var r' := RootAboveChild(s, t[op.dir].parent, t[op.dir].name);
    assert t[op.dir].parent in TreeAfter(t, op);
    UnderRootsIntro(roots', r', OldPath(s, op));
  }

  /** A rename inside the trees makes no watched directory a root, nor unmakes one, when it
      moves no root. */
  lemma WithinFlags(s: Monitor, op: Op, order: seq<DirId>, roots': Roots)
    requires Scene(s, op, order) && NoneBelow(s.roots, OldPath(s, op))
    requires RootsWithout(roots', s.roots, NewPath(s, op))
    ensures var view := Pending(s, op);
            SelfMoves(AfterOp(s, op, order).(roots := roots'), RewriteView(view, OldPath(s, op), NewPath(s, op)))
  {
    hide Wf, PathOf, Leaf, Desc, Entries, WfTable, UnderRoots, Snapshot;
    var view := Pending(s, op);
    var from, to := OldPath(s, op), NewPath(s, op);
    SceneStart(s, op, order);
    TargetNotInView(s, op, order, from);
    forall x | x in view ensures IsRoot(roots', Rewrite(from, to, view[x])) <==> IsRoot(s.roots, view[x]) {
      if IsUnder(from, view[x]) {
        RewriteRoundTrip(from, to, view[x]);
        var r := Rewrite(from, to, view[x]);
        if IsRoot(roots', r) {
          NoRootBelowTarget(s, op, order, r);
        }
      }
    }
  }

  lemma NoRootBelowTarget(s: Monitor, op: Op, order: seq<DirId>, r: string)
    requires Scene(s, op, order) && IsRoot(s.roots, r) && r != NewPath(s, op)
    ensures !IsUnder(NewPath(s, op), r)
  {
    hide Wf, PathOf, Leaf, Desc, Entries, WfTable, UnderRoots, Snapshot, SelfMoves;
    RenamePaths(s.k.tree, op.dir, op.target, op.name);
    var x :| x in s.k.tree && PathOf(s.k.tree, x) == r;
    assert x in TreeAfter(s.k.tree, op);
  }
}
