/** The monitor keeps its cache equal to the monitored trees: which operations
    it follows, for every way the reads may split their events, and which not. */
module MonitorSync {
  import opened Pathnames
  import opened DirTree
  import opened Inotify
  import opened MonitorModel
  import opened Options
  import opened MonitorViews

  type Roots = seq<Option<string>>

  predicate UnderRoots(roots: Roots, p: string) {
    exists i :: 0 <= i < |roots| && roots[i].Some? && IsUnder(roots[i].value, p)
  }

  /** Every monitored directory with its current pathname. */
  ghost function Snapshot(roots: Roots, t: Tree): View
    requires Wf(t)
  {
    map d | d in t && UnderRoots(roots, PathOf(t, d)) :: PathOf(t, d)
  }

  /** No root is "/". */
  ghost predicate RootsNamed(roots: Roots) {
    forall r :: IsRoot(roots, r) ==> r != ""
  }

  ghost predicate Names(t: Tree, r: string)
    requires Wf(t)
  {
    exists d :: d in t && PathOf(t, d) == r
  }

  ghost predicate RootsExist(roots: Roots, t: Tree)
    requires Wf(t)
  {
    forall r :: IsRoot(roots, r) ==> Names(t, r)
  }

  lemma RootsExistNamed(roots: Roots, t: Tree)
    requires Wf(t) && RootsExist(roots, t)
    ensures RootsNamed(roots)
  {
    hide Wf;
    forall r | IsRoot(roots, r) ensures r != "" {
      var d :| d in t && PathOf(t, d) == r;
      NotTop(t, d);
    }
  }

  lemma NotTop(t: Tree, d: DirId)
    requires Wf(t) && d in t
    ensures d != TOP
  {
  }

  /** The cache is the snapshot, under the kernel's descriptors, and nothing else. */
  ghost predicate Exact(s: Monitor) {
    WfKernel(s.k) && Mirrors(s, Snapshot(s.roots, s.k.tree), map[])
  }

  /** The state from which operations are followed. Roots may lie below other roots. */
  ghost predicate Synced(s: Monitor) {
    && Exact(s)
    && SelfMoves(s, Snapshot(s.roots, s.k.tree))
    && RootsNamed(s.roots)
    && RootsExist(s.roots, s.k.tree)
  }

  lemma UnderRootsWitness(roots: Roots, p: string) returns (r: string)
    requires UnderRoots(roots, p)
    ensures IsRoot(roots, r) && IsUnder(r, p)
  {
    var i :| 0 <= i < |roots| && roots[i].Some? && IsUnder(roots[i].value, p);
    r := roots[i].value;
    assert Some(r) == roots[i];
  }

  lemma UnderRootsIntro(roots: Roots, r: string, p: string)
    requires IsRoot(roots, r) && IsUnder(r, p)
    ensures UnderRoots(roots, p)
  {
    var i :| 0 <= i < |roots| && roots[i] == Some(r);
    assert roots[i].value == r;
  }

  // ----- Rebuilding ---------------------------------------------------------

  lemma {:induction false} WatchRootsExact(s: Monitor, n: nat)
    requires WfKernel(s.k) && n <= |s.roots| && s.cache == map[] && s.k == NewInstance(s.k)
    ensures var s' := WatchRoots(s, n);
            var view: View := Snapshot(s.roots[..n], s.k.tree);
            Mirrors(s', view, map[]) && SelfMoves(s', view)
    decreases n
  {
    hide Wf;
    var t := s.k.tree;
    var view: View := Snapshot(s.roots[..n], t);
    if n == 0 {
      assert view == map[];
    } else {
      WatchRootsExact(s, n - 1);
      var view1 := Snapshot(s.roots[..n - 1], t);
      if s.roots[n - 1].Some? {
        var r := s.roots[n - 1].value;
        WatchSubtreeMirrors(WatchRoots(s, n - 1), view1, map[], r);
        SnapshotSnoc(s.roots, n, t);
      } else {
        SnapshotSnoc(s.roots, n, t);
      }
    }
  }

  lemma SnapshotSnoc(roots: Roots, n: nat, t: Tree)
    requires Wf(t) && 0 < n <= |roots|
    ensures var view1 := Snapshot(roots[..n - 1], t);
            Snapshot(roots[..n], t) ==
            if roots[n - 1].Some? then Extend(view1, t, Subtree(t, roots[n - 1].value)) else view1
  {
    hide Wf;
    forall p ensures UnderRoots(roots[..n], p) <==>
                     UnderRoots(roots[..n - 1], p) || (roots[n - 1].Some? && IsUnder(roots[n - 1].value, p))
    {
      if UnderRoots(roots[..n - 1], p) {
        var i :| 0 <= i < n - 1 && roots[..n - 1][i].Some? && IsUnder(roots[..n - 1][i].value, p);
        assert roots[..n][i] == roots[..n - 1][i];
      }
      if UnderRoots(roots[..n], p) {
        var i :| 0 <= i < n && roots[..n][i].Some? && IsUnder(roots[..n][i].value, p);
        assert i < n - 1 ==> roots[..n - 1][i] == roots[..n][i];
      }
      if roots[n - 1].Some? && IsUnder(roots[n - 1].value, p) {
        assert roots[..n][n - 1] == roots[n - 1];
      }
    }
  }

  /** A rebuild leaves the cache equal to a snapshot, whatever it held before. */
  lemma RebuildIsExact(s: Monitor)
    requires WfKernel(s.k)
    ensures var s' := Rebuild(s);
            && s'.roots == s.roots && s'.k.tree == s.k.tree && s'.exited == s.exited
            && Exact(s') && SelfMoves(s', Snapshot(s'.roots, s'.k.tree))
  {
    var s1 := s.(cache := map[], k := NewInstance(s.k));
    WatchRootsExact(s1, |s.roots|);
    assert s.roots[..|s.roots|] == s.roots;
  }

  /** An event whose descriptor is not cached, or a queue overflow, ends in a
      rebuild, and the cache is then a snapshot. */
  lemma UnknownDescriptorRebuilds(s: Monitor, evs: seq<Event>, firstTry: bool)
    requires WfKernel(s.k) && evs != [] && KernelEvent(evs[0])
    requires Q_OVERFLOW in evs[0].mask || (IGNORED !in evs[0].mask && evs[0].wd !in s.cache)
    ensures var o := Process(s, evs, firstTry); o.Rebuilt? && Exact(o.s) && o.s.roots == s.roots
  {
    hide Wf, WfTable, WatchRoots, Exact, Rebuild;
    RebuildIsExact(s);
  }

  /** So does the partner of a "moved from" event. */
  lemma UnknownPartnerRebuilds(s: Monitor, evs: seq<Event>, firstTry: bool)
    requires WfKernel(s.k) && |evs| > 1 && KernelEvent(evs[0]) && IsMovedFrom(evs[0]) && IGNORED !in evs[0].mask
    requires Pairs(evs[0], evs[1]) && evs[1].wd !in s.cache
    ensures var o := Process(s, evs, firstTry); o.Rebuilt? && Exact(o.s) && o.s.roots == s.roots
  {
    hide Wf, WfTable, WatchRoots, Exact, Rebuild;
    RebuildIsExact(s);
  }

  /** Events about files that are not directories are passed over. */
  lemma FilesAreIgnored(s: Monitor, evs: seq<Event>, firstTry: bool)
    requires WfKernel(s.k) && evs != [] && KernelEvent(evs[0]) && evs[0].wd in s.cache
    requires evs[0].mask == {CREATE} || evs[0].mask == {MOVED_FROM} || evs[0].mask == {MOVED_TO}
    ensures Process(s, evs, firstTry) == Consumed(s, 1)
  {
    hide WfKernel;
  }

  /** No event is consumed whose descriptor is not cached, but for reports of removed watches. */
  lemma ConsumedAreKnown(s: Monitor, evs: seq<Event>, firstTry: bool)
    requires WfKernel(s.k) && evs != [] && AllKernel(evs)
    ensures var o := Process(s, evs, firstTry);
            o.Consumed? ==> forall i :: 0 <= i < o.count ==> evs[i].wd in s.cache || IGNORED in evs[i].mask
  {
    hide WfKernel, Rebuild, CanZap, Zap, ZapRoot, WatchSubtree, RewriteCache;
    assert KernelEvent(evs[0]);
  }

  /** Whatever event led to a rebuild, and in whatever state: the cache is then a snapshot
      of the trees as they are at that moment. */
  lemma EveryRebuildIsExact(s: Monitor, evs: seq<Event>, firstTry: bool)
    requires WfKernel(s.k) && evs != [] && KernelEvent(evs[0])
    ensures var o := Process(s, evs, firstTry); o.Rebuilt? ==> Exact(o.s) && o.s.k.tree == s.k.tree
  {
    hide Wf, WfTable, WatchRoots, Exact, Rebuild, WatchSubtree, Zap, CanZap;
    RebuildIsExact(s);
    var wd := evs[0].wd;
    if wd in s.cache {
      RebuildIsExact(ZapRoot(s, s.cache[wd]));
    }
  }

  // ----- One operation on the tree ------------------------------------------

  ghost function AfterOp(s: Monitor, op: Op, order: seq<DirId>): Monitor {
    s.(k := KernelAfter(s.k, op, order))
  }

  /** The kernel drops the watch of a deleted directory; its cache entry is stale
      until the deletion event is handled. */
  ghost function StaleAfter(s: Monitor, view: View, op: Op): map<int, string>
    requires view.Keys == s.k.watch.Keys
  {
    map wd | wd in s.k.dirOf && wd in s.cache && s.k.dirOf[wd] in Deleted(s.k.tree, op) :: s.cache[wd]
  }

  lemma AfterOpMirrors(s: Monitor, view: View, op: Op, order: seq<DirId>)
    requires Mirrors(s, view, map[]) && SelfMoves(s, view) && ValidOp(s.k.tree, op)
    requires var t' := TreeAfter(s.k.tree, op); Wf(t') && Lists(order, t')
    ensures var s' := AfterOp(s, op, order);
            Mirrors(s', view - Deleted(s.k.tree, op), StaleAfter(s, view, op)) &&
            SelfMoves(s', view - Deleted(s.k.tree, op))
  {
    hide Wf, Lists, IsRoot, ValidOp, Deleted, TreeAfter;
    KernelAfterWf(s.k, op, order);
  }

  lemma KernelAfterWf(k: Kernel, op: Op, order: seq<DirId>)
    requires WfKernel(k) && ValidOp(k.tree, op)
    requires var t' := TreeAfter(k.tree, op); Wf(t') && Lists(order, t')
    ensures WfKernel(KernelAfter(k, op, order))
  {
    hide Wf, Leaf, Vacant, Desc, Lists, IsChild, ValidName;
    var k' := KernelAfter(k, op, order);
    assert WfTable(k');
    assert k'.watch.Keys <= k'.tree.Keys;
  }

  // ----- Deletions ----------------------------------------------------------

  lemma ZapRootRoots(s: Monitor, p: string)
    ensures var s' := ZapRoot(s, p);
            && (forall r :: IsRoot(s'.roots, r) <==> IsRoot(s.roots, r) && r != p)
            && (s'.exited <==> forall r :: !IsRoot(s'.roots, r))
  {
    var s' := ZapRoot(s, p);
    forall r ensures IsRoot(s'.roots, r) <==> IsRoot(s.roots, r) && r != p {
      if IsRoot(s.roots, r) && r != p {
        var i :| 0 <= i < |s.roots| && s.roots[i] == Some(r);
        assert s'.roots[i] == Some(r);
      }
      if IsRoot(s'.roots, r) {
        var i :| 0 <= i < |s'.roots| && s'.roots[i] == Some(r);
        assert s.roots[i] == Some(r);
      }
    }
    if !s'.exited {
      var i :| 0 <= i < |s'.roots| && s'.roots[i].Some?;
      assert IsRoot(s'.roots, s'.roots[i].value);
    }
  }

  /** `roots'` is `roots` without `p`. */
  ghost predicate RootsWithout(roots': Roots, roots: Roots, p: string) {
    forall r :: IsRoot(roots', r) <==> IsRoot(roots, r) && r != p
  }

  ghost function DeletionPair(wd: int): (evs: seq<Event>)
    requires 1 <= wd
    ensures NoMovedFrom(evs)
  {
    [Event(wd, {DELETE_SELF}, 0, ""), Event(wd, {IGNORED}, 0, "")]
  }

  lemma HandleDeletion(s: Monitor, view: View, wd: int, p: string)
    requires Mirrors(s, view, map[wd := p]) && !s.exited
    ensures 1 <= wd
    ensures var s' := RunSingles(s, DeletionPair(wd));
            && RootsWithout(s'.roots, s.roots, p)
            && s'.k == s.k
            && (s'.exited ==> forall r :: !IsRoot(s'.roots, r))
            && (!s'.exited ==> Mirrors(s', view, map[]))
            && (SelfMoves(s, view) && (IsRoot(s.roots, p) ==> !InView(view, p)) ==> SelfMoves(s', view))
  {
    hide Wf, WfTable, Lists;
    var stale := map[wd := p];
    assert wd in stale && s.cache[wd] == p;
    var evs := DeletionPair(wd);
    var z := if IsRoot(s.roots, p) then ZapRoot(s, p) else s;
    ZapRootRoots(s, p);
    assert RootsWithout(z.roots, s.roots, p);
    var s1 := if z.exited then z else z.(cache := z.cache - {wd});
    RunSinglesCons(s, evs[0], [evs[1]], s1);
    if !s1.exited {
      RunSinglesCons(s1, evs[1], [], s1);
    }
    assert evs == [evs[0]] + [evs[1]];
    if !z.exited {
      DropStale(z, view, stale, wd);
      assert stale - {wd} == map[];
    }
  }

  // ----- mkdir and rmdir ----------------------------------------------------

  /** Handling one "created" or unpaired "moved to" event. */
  lemma HandleArrival(s: Monitor, view: View, stale: map<int, string>, q: DirId, n: string, e: Event)
    requires Mirrors(s, view, stale) && q in view && !s.exited && ValidName(n)
    requires KernelEvent(e) && e.wd == s.k.watch[q] && e.name == n && ISDIR in e.mask
    requires (CREATE in e.mask || MOVED_TO in e.mask)
    ensures var p := Child(view[q], n);
            Process(s, [e], false) ==
            Consumed(if InView(view, p) || InCache(stale, p) then s else WatchSubtree(s, p), 1)
  {
    hide Wf;
    InCacheIsInView(s, view, stale, Child(view[q], n));
    assert s.k.watch[q] in s.k.dirOf;
  }

  lemma MkdirFresh(t: Tree, p: DirId, n: string, d: DirId)
    requires Wf(t) && ValidOp(t, Mkdir(p, n, d))
    ensures var t' := t[d := Link(p, n)];
            && Wf(t') && PathOf(t', d) == Child(PathOf(t, p), n)
            && Subtree(t', PathOf(t', d)) == {d}
            && (forall x :: x in t ==> PathOf(t, x) != PathOf(t', d))
  {
    hide Wf;
    var t' := t[d := Link(p, n)];
    MkdirPaths(t, p, n, d);
    forall x | x in t' ensures x in Subtree(t', PathOf(t', d)) <==> x == d {
      UnderIsDesc(t', d, x);
      if x != d {
        LeafHasNoDesc(t', d, x);
      }
    }
    forall x | x in t ensures PathOf(t, x) != PathOf(t', d) {
      if PathOf(t', x) == PathOf(t', d) {
        PathInjective(t', x, d);
      }
    }
  }

  lemma MkdirRoots(roots: Roots, t: Tree, p: DirId, n: string, d: DirId)
    requires Wf(t) && ValidOp(t, Mkdir(p, n, d)) && RootsNamed(roots) && RootsExist(roots, t)
    ensures var t' := t[d := Link(p, n)];
            && Wf(t') && RootsExist(roots, t')
            && (UnderRoots(roots, PathOf(t', d)) <==> p in Snapshot(roots, t))
  {
    hide Wf;
    var t' := t[d := Link(p, n)];
    MkdirPaths(t, p, n, d);
    MkdirFresh(t, p, n, d);
    var c := PathOf(t', d);
    forall r | IsRoot(roots, r) ensures Names(t', r) && (IsUnder(r, c) <==> IsUnder(r, PathOf(t, p))) {
      var x :| x in t && PathOf(t, x) == r;
      assert PathOf(t', x) == r;
      UnderChild(r, PathOf(t, p), n);
    }
    MkdirMonitored(roots, t, p, c);
  }

  lemma MkdirSnapshot(roots: Roots, t: Tree, p: DirId, n: string, d: DirId)
    requires Wf(t) && ValidOp(t, Mkdir(p, n, d)) && RootsNamed(roots) && RootsExist(roots, t)
    ensures var t' := t[d := Link(p, n)];
            && Wf(t')
            && Snapshot(roots, t') ==
               (if p in Snapshot(roots, t) then Extend(Snapshot(roots, t), t', {d}) else Snapshot(roots, t))
            && !InView(Snapshot(roots, t), PathOf(t', d))
            && UpToDate(Snapshot(roots, t), t', {d})
  {
    hide Wf, PathOf, UnderRoots, Vacant, Leaf;
    MkdirPaths(t, p, n, d);
    MkdirFresh(t, p, n, d);
    MkdirRoots(roots, t, p, n, d);
  }

  lemma MkdirMonitored(roots: Roots, t: Tree, p: DirId, c: string)
    requires Wf(t) && Present(t, p) && RootsNamed(roots)
    requires forall r :: IsRoot(roots, r) ==> (IsUnder(r, c) <==> IsUnder(r, PathOf(t, p)))
    ensures UnderRoots(roots, c) <==> p in Snapshot(roots, t)
  {
    hide Wf;
    var q := PathOf(t, p);
    if UnderRoots(roots, c) {
      var r := UnderRootsWitness(roots, c);
      assert p != TOP;
      UnderRootsIntro(roots, r, q);
    }
    if p in Snapshot(roots, t) {
      var r := UnderRootsWitness(roots, q);
      UnderRootsIntro(roots, r, c);
    }
  }

  lemma WatchedWd(k: Kernel, d: DirId)
    requires WfTable(k) && d in k.watch
    ensures 1 <= k.watch[d]
  {
    assert k.watch[d] in k.dirOf;
  }

  lemma MkdirSynced(s: Monitor, p: DirId, n: string, d: DirId, order: seq<DirId>)
    requires Synced(s) && !s.exited && ValidOp(s.k.tree, Mkdir(p, n, d))
    requires Lists(order, TreeAfter(s.k.tree, Mkdir(p, n, d)))
    ensures var op := Mkdir(p, n, d);
            var s1 := AfterOp(s, op, order);
            var evs := OpEvents(s.k, op);
            WfKernel(s1.k) && NoMovedFrom(evs) && !RunSingles(s1, evs).exited && Synced(RunSingles(s1, evs))
  {
    hide Wf, WfTable, Entries, SelfMoves, Extend, UpToDate, Visit, PathOf, Process, WatchSubtree, UnderRoots, InView,
         Vacant, Leaf, RootsExist, RootsNamed;
    var op := Mkdir(p, n, d);
    var view: View := Snapshot(s.roots, s.k.tree);
    MkdirFresh(s.k.tree, p, n, d);
    MkdirRoots(s.roots, s.k.tree, p, n, d);
    MkdirSnapshot(s.roots, s.k.tree, p, n, d);
    var s1 := AfterOp(s, op, order);
    AfterOpMirrors(s, view, op, order);
    assert view - Deleted(s.k.tree, op) == view;
    assert StaleAfter(s, view, op) == map[];
    if p in s.k.watch {
      var e := Event(s.k.watch[p], {CREATE, ISDIR}, 0, n);
      WatchedWd(s.k, p);
      assert view[p] == PathOf(s.k.tree, p);
      HandleArrival(s1, view, map[], p, n, e);
      var s2 := WatchSubtree(s1, Child(view[p], n));
      WatchSubtreeMirrors(s1, view, map[], Child(view[p], n));
      RunSinglesCons(s1, e, [], s2);
      assert OpEvents(s.k, op) == [e] + [];
    }
  }

  /** What is left of the snapshot after deleting the leaf `o`, once its root,
      if it was one, is forgotten. */
  lemma RmdirSnapshot(roots: Roots, roots': Roots, t: Tree, d: DirId)
    requires Wf(t) && d in t && Leaf(t, d) && RootsNamed(roots) && RootsExist(roots, t)
    requires RootsWithout(roots', roots, PathOf(t, d))
    ensures var t' := t - {d};
            && Wf(t') && RootsExist(roots', t') && RootsNamed(roots')
            && Snapshot(roots', t') == Snapshot(roots, t) - {d}
  {
    hide Wf, Leaf;
    var t' := t - {d};
    RmdirPaths(t, d);
    forall r | IsRoot(roots', r) ensures Names(t', r) {
      var x :| x in t && PathOf(t, x) == r;
      assert x != d && PathOf(t', x) == r;
    }
    forall x | x in t' ensures UnderRoots(roots', PathOf(t', x)) <==> UnderRoots(roots, PathOf(t, x)) {
      var p := PathOf(t, x);
      if UnderRoots(roots, p) {
        var r := UnderRootsWitness(roots, p);
        UnderIsDesc(t, d, x);
        LeafHasNoDesc(t, d, x);
        UnderRootsIntro(roots', r, p);
      }
      if UnderRoots(roots', p) {
        var r := UnderRootsWitness(roots', p);
        UnderRootsIntro(roots, r, p);
      }
    }
  }

  /** A root is itself monitored, so an unwatched directory is no root. */
  lemma UnwatchedIsNoRoot(roots: Roots, t: Tree, d: DirId)
    requires Wf(t) && d in t && d !in Snapshot(roots, t)
    ensures !IsRoot(roots, PathOf(t, d))
  {
    hide Wf;
    if IsRoot(roots, PathOf(t, d)) {
      UnderRootsIntro(roots, PathOf(t, d), PathOf(t, d));
    }
  }

  lemma SnapshotPathUnique(roots: Roots, t: Tree, d: DirId)
    requires Wf(t) && d in t
    ensures !InView(Snapshot(roots, t) - {d}, PathOf(t, d))
  {
    hide Wf;
    var view := Snapshot(roots, t) - {d};
    forall x | x in view ensures view[x] != PathOf(t, d) {
      if PathOf(t, x) == PathOf(t, d) {
        PathInjective(t, x, d);
      }
    }
  }

  lemma RmdirSynced(s: Monitor, d: DirId, order: seq<DirId>)
    requires Synced(s) && !s.exited && ValidOp(s.k.tree, Rmdir(d)) && Lists(order, TreeAfter(s.k.tree, Rmdir(d)))
    ensures var s1 := AfterOp(s, Rmdir(d), order);
            var evs := OpEvents(s.k, Rmdir(d));
            && WfKernel(s1.k) && NoMovedFrom(evs)
            && var s' := RunSingles(s1, evs);
               if s'.exited then forall r :: !IsRoot(s'.roots, r) else Synced(s')
  {
    hide Wf, WfTable, SelfMoves, PathOf, Process, UnderRoots, InView, Leaf, RootsExist, RootsNamed;
    var op := Rmdir(d);
    var t := s.k.tree;
    var view: View := Snapshot(s.roots, t);
    RmdirPaths(t, d);
    var s1 := AfterOp(s, op, order);
    AfterOpMirrors(s, view, op, order);
    if d in s.k.watch {
      var wd := s.k.watch[d];
      StaleIs(s, view, op, d);
      SnapshotPathUnique(s.roots, t, d);
      HandleDeletion(s1, view - {d}, wd, view[d]);
      assert OpEvents(s.k, op) == DeletionPair(wd);
      var s' := RunSingles(s1, DeletionPair(wd));
      RmdirSnapshot(s.roots, s'.roots, t, d);
    } else {
      assert StaleAfter(s, view, op) == map[] by { StaleIsEmpty(s, view, op); }
      assert view - {d} == view;
      UnwatchedIsNoRoot(s.roots, t, d);
      RmdirSnapshot(s.roots, s.roots, t, d);
    }
  }

  lemma StaleIs(s: Monitor, view: View, op: Op, d: DirId)
    requires Mirrors(s, view, map[]) && Deleted(s.k.tree, op) == {d} && d in view
    ensures StaleAfter(s, view, op) == map[s.k.watch[d] := view[d]]
  {
    hide Wf;
    assert s.k.watch[d] in s.k.dirOf;
    var stale := StaleAfter(s, view, op);
    assert forall wd :: wd in stale ==> s.k.dirOf[wd] == d && s.k.watch[s.k.dirOf[wd]] == wd;
    assert stale.Keys == {s.k.watch[d]};
  }

  lemma StaleIsEmpty(s: Monitor, view: View, op: Op)
    requires Mirrors(s, view, map[]) && Deleted(s.k.tree, op) !! view.Keys
    ensures StaleAfter(s, view, op) == map[]
  {
    hide Wf;
    forall wd | wd in s.k.dirOf ensures s.k.dirOf[wd] !in Deleted(s.k.tree, op) {
      assert s.k.dirOf[wd] in s.k.watch;
    }
    assert StaleAfter(s, view, op).Keys == {};
  }
}
