/** The main results on the directory monitor: exactly which renames it follows,
    and that over whole runs the cache equals the monitored trees. */
module MonitorTheorem {
  import opened Pathnames
  import opened DirTree
  import opened Inotify
  import opened MonitorModel
  import opened Options
  import opened MonitorViews
  import opened MonitorSync
  import opened MonitorRename

  /** The renames that the monitor follows. It loses track when a directory that is not
      monitored moves with a root below it; when a root moves from a place that is not
      monitored into a monitored tree; and when a directory arrives on top of a cached one in
      an event that is not paired, except that a root below another root is then noticed
      by its own event, which comes for a descriptor that has gone. */
  ghost predicate CanFollow(s: Monitor, op: Op, chunks: seq<seq<Event>>)
    requires WfKernel(s.k) && ValidOp(s.k.tree, op)
  {
    op.Rename? ==>
      if Watched(s, s.k.tree[op.dir].parent) then
        Watched(s, op.target) && Replaces(s, op) && Torn(chunks) ==> IsRoot(s.roots, OldPath(s, op))
      else if IsRoot(s.roots, OldPath(s, op)) then
        !Watched(s, op.target)
      else
        !AboveRoot(s, op) && (Watched(s, op.target) ==> !Replaces(s, op))
  }

  /** Every root left exists afterwards: the state is again one to start from. */
  ghost predicate KeepsRoots(s: Monitor, op: Op)
    requires WfKernel(s.k) && ValidOp(s.k.tree, op)
  {
    op.Rename? ==> !Dangles(s, op)
  }

  /** Watches are where the snapshot says. */
  lemma SceneWatches(s: Monitor, op: Op, order: seq<DirId>)
    requires Scene(s, op, order)
    ensures forall x :: x in s.k.watch <==> Watched(s, x)
    ensures op.dir in s.k.selfMove <==> Watched(s, op.dir) && IsRoot(s.roots, OldPath(s, op))
  {
    hide Wf, PathOf, Leaf, Desc, Entries, IsUnder, UnderRoots;
  }

  lemma RenameEvents(s: Monitor, op: Op, order: seq<DirId>)
    requires Scene(s, op, order)
    ensures var rest := ReplacedEvents(s.k, op.target, op.name);
            && NoMovedFrom(rest) && (rest == [] || rest[0].mask == {DELETE_SELF})
            && (!Replaces(s, op) ==> rest == [])
            && var self := if Watched(s, op.dir) && IsRoot(s.roots, OldPath(s, op))
                           then [Event(s.k.watch[op.dir], {MOVE_SELF}, 0, "")] else [];
            && NoMovedFrom(self)
            && var to := if Watched(s, op.target) then [ToEvent(s, op)] else [];
            && NoMovedFrom(to)
            && OpEvents(s.k, op) ==
               (if Watched(s, s.k.tree[op.dir].parent) then [FromEvent(s, op)] else []) + to + self + rest
  {
    hide Wf, PathOf, Leaf, Desc, Entries, IsUnder, UnderRoots, Snapshot, SelfMoves;
    SceneWatches(s, op, order);
    SceneTail(s, op, order);
    if op.dir in s.k.watch {
      WatchedWd(s.k, op.dir);
    }
    if op.target in s.k.watch {
      WatchedWd(s.k, op.target);
    }
  }

  lemma AppendSingles(a: seq<Event>, b: seq<Event>)
    requires NoMovedFrom(a) && NoMovedFrom(b)
    ensures NoMovedFrom(a + b)
  {
  }

  lemma FromEventIsKernel(s: Monitor, op: Op, order: seq<DirId>)
    requires Scene(s, op, order) && Watched(s, s.k.tree[op.dir].parent)
    ensures s.k.tree[op.dir].parent in s.k.watch && KernelEvent(FromEvent(s, op)) && IsMovedFrom(FromEvent(s, op))
  {
    hide Wf, PathOf, Leaf, Desc, Entries, IsUnder, UnderRoots, Snapshot, SelfMoves;
    SceneWatches(s, op, order);
    ParentStays(s, op, order);
    WatchedWd(s.k, s.k.tree[op.dir].parent);
  }

  lemma ToEventIsKernel(s: Monitor, op: Op, order: seq<DirId>)
    requires Scene(s, op, order) && Watched(s, op.target)
    ensures op.target in s.k.watch && KernelEvent(ToEvent(s, op)) && NoMovedFrom([ToEvent(s, op)])
  {
    hide Wf, PathOf, Leaf, Desc, Entries, WfTable, IsUnder, UnderRoots, Snapshot, SelfMoves, RootsExist, RootsNamed;
    SceneParts(s, op, order);
    WatchedWd(s.k, op.target);
  }

  ghost function SelfEvent(s: Monitor, op: Op): Event
    requires op.Rename? && op.dir in s.k.watch
  {
    Event(s.k.watch[op.dir], {MOVE_SELF}, 0, "")
  }

  /** The events of a rename from a monitored directory. */
  lemma MovedFromEvents(s: Monitor, op: Op, order: seq<DirId>) returns (self: seq<Event>, rest: seq<Event>)
    requires Scene(s, op, order) && Watched(s, s.k.tree[op.dir].parent)
    ensures s.k.tree[op.dir].parent in s.k.watch && KernelEvent(FromEvent(s, op)) && IsMovedFrom(FromEvent(s, op))
    ensures op.dir in s.k.watch && self == if IsRoot(s.roots, OldPath(s, op)) then [SelfEvent(s, op)] else []
    ensures Watched(s, op.target) ==> op.target in s.k.watch
    ensures var tail := self + ReplacedEvents(s.k, op.target, op.name);
            NoMovedFrom(tail) && rest == if Watched(s, op.target) then [ToEvent(s, op)] + tail else tail
    ensures NoMovedFrom(rest) && OpEvents(s.k, op) == [FromEvent(s, op)] + rest
    ensures rest != [] ==> (Watched(s, op.target) <==> Pairs(FromEvent(s, op), rest[0]))
  {
    hide Wf, PathOf, Leaf, Desc, Entries, WfTable, IsUnder, UnderRoots, Snapshot, SelfMoves, RootsExist, RootsNamed,
         OpEvents, ReplacedEvents, KernelEvent, NoMovedFrom, IsMovedFrom, Synced, ValidOp, Lists, TreeAfter;
    SceneParts(s, op, order);
    SceneWatches(s, op, order);
    RenameEvents(s, op, order);
    FromEventIsKernel(s, op, order);
    WatchedChild(s, op.dir);
    self := if IsRoot(s.roots, OldPath(s, op)) then [SelfEvent(s, op)] else [];
    var f, tail := [FromEvent(s, op)], ReplacedEvents(s.k, op.target, op.name);
    AppendSingles(self, tail);
    if Watched(s, op.target) {
      AppendSingles([ToEvent(s, op)], self + tail);
      rest := [ToEvent(s, op)] + (self + tail);
      Associate(f, [ToEvent(s, op)], self, tail);
    } else {
      rest := self + tail;
      Associate(f, [], self, tail);
      assert [] + rest == rest;
    }
  }

  /** The events of a rename from a directory that is not monitored. */
  lemma OtherEvents(s: Monitor, op: Op, order: seq<DirId>) returns (self: seq<Event>)
    requires Scene(s, op, order) && !Watched(s, s.k.tree[op.dir].parent)
    ensures IsRoot(s.roots, OldPath(s, op)) ==> op.dir in s.k.watch
    ensures self == if IsRoot(s.roots, OldPath(s, op)) then [SelfEvent(s, op)] else []
    ensures Watched(s, op.target) ==> op.target in s.k.watch
    ensures var tail := self + ReplacedEvents(s.k, op.target, op.name);
            && NoMovedFrom(tail) && NoMovedFrom(OpEvents(s.k, op))
            && OpEvents(s.k, op) == if Watched(s, op.target) then [ToEvent(s, op)] + tail else tail
  {
    hide Wf, PathOf, Leaf, Desc, Entries, WfTable, IsUnder, UnderRoots, Snapshot, SelfMoves, RootsExist, RootsNamed,
         OpEvents, ReplacedEvents, KernelEvent, NoMovedFrom, IsMovedFrom, Synced, ValidOp, Lists, TreeAfter;
    SceneParts(s, op, order);
    SceneWatches(s, op, order);
    RenameEvents(s, op, order);
    if IsRoot(s.roots, OldPath(s, op)) {
      RootIsWatched(s, op, order);
    }
    self := if IsRoot(s.roots, OldPath(s, op)) then [SelfEvent(s, op)] else [];
    var to := if Watched(s, op.target) then [ToEvent(s, op)] else [];
    var tail := ReplacedEvents(s.k, op.target, op.name);
    AppendSingles(self, tail);
    AppendSingles(to, self + tail);
    Associate([], to, self, tail);
    assert [] + (self + tail) == self + tail && [] + (to + (self + tail)) == to + (self + tail);
  }

  /** The events of a rename of a directory that is not monitored itself. */
  lemma UnwatchedEvents(s: Monitor, op: Op, order: seq<DirId>)
    requires Scene(s, op, order) && !Watched(s, op.dir)
    ensures Watched(s, op.target) ==> op.target in s.k.watch && NoMovedFrom([ToEvent(s, op)])
    ensures var tail := ReplacedEvents(s.k, op.target, op.name);
            && NoMovedFrom(tail) && NoMovedFrom(OpEvents(s.k, op))
            && OpEvents(s.k, op) == if Watched(s, op.target) then [ToEvent(s, op)] + tail else tail
  {
    hide Wf, PathOf, Leaf, Desc, Entries, WfTable, IsUnder, UnderRoots, Snapshot, SelfMoves, RootsExist, RootsNamed,
         OpEvents, ReplacedEvents, KernelEvent, NoMovedFrom, IsMovedFrom, Synced, ValidOp, Lists, TreeAfter;
    SceneParts(s, op, order);
    UnwatchedParent(s, op, order);
    UnwatchedIsNoRoot(s.roots, s.k.tree, op.dir);
    var self := OtherEvents(s, op, order);
    assert self + ReplacedEvents(s.k, op.target, op.name) == ReplacedEvents(s.k, op.target, op.name);
    if Watched(s, op.target) {
      ToEventIsKernel(s, op, order);
    }
  }

  lemma Associate(a: seq<Event>, b: seq<Event>, c: seq<Event>, d: seq<Event>)
    ensures a + b + c + d == a + (b + (c + d))
  {
  }

  // ----- Followed renames ---------------------------------------------------

  /** Without a root below it, the pair of events is all there is to a rename within the
      monitored trees. With the moved directory a root itself, its own event follows: it finds
      an entry that is no root, or, if it replaced a root, one that cannot be removed. */
  lemma PairFollowed(s: Monitor, op: Op, order: seq<DirId>, self: seq<Event>)
    requires Scene(s, op, order) && Watched(s, s.k.tree[op.dir].parent) && Watched(s, op.target)
    requires if IsRoot(s.roots, OldPath(s, op)) then op.dir in s.k.watch && self == [SelfEvent(s, op)] else self == []
    ensures var s1 := AfterOp(s, op, order);
            var evs := self + ReplacedEvents(s.k, op.target, op.name);
            && WfKernel(s1.k) && KernelEvent(FromEvent(s, op)) && NoMovedFrom(evs)
            && var o := Process(s1, [FromEvent(s, op), ToEvent(s, op)], true);
               o.Consumed? && o.count == 2 && Followed(RunSingles(o.s, evs), NoneBelow(s.roots, OldPath(s, op)))
  {
    hide Wf, PathOf, Leaf, Desc, Entries, WfTable, IsUnder, UnderRoots, Snapshot, SelfMoves, Process, RootsExist,
         RootsNamed, RewriteCache, RewriteView, Synced, Exact, RunSingles, Followed, ReplacedEvents;
    SceneParts(s, op, order);
    SceneWatches(s, op, order);
    WithinPair(s, op, order);
    RenameEvents(s, op, order);
    var s2 := Process(AfterOp(s, op, order), [FromEvent(s, op), ToEvent(s, op)], true).s;
    var tail := ReplacedEvents(s.k, op.target, op.name);
    if self == [] {
      assert [] + tail == tail;
      FinishWithin(s, op, order, s2);
    } else {
      SelfAfterPair(s, op, order, s2);
      UnderReflexive(OldPath(s, op));
    }
  }

  lemma SelfAfterPair(s: Monitor, op: Op, order: seq<DirId>, s2: Monitor)
    requires Scene(s, op, order) && Watched(s, s.k.tree[op.dir].parent) && Watched(s, op.target)
    requires IsRoot(s.roots, OldPath(s, op)) && op.dir in s.k.watch
    requires Mirrors(s2, RewriteView(Pending(s, op), OldPath(s, op), NewPath(s, op)),
                     StaleAfter(s, Snapshot(s.roots, s.k.tree), op))
    requires s2.roots == s.roots && !s2.exited && s2.k == AfterOp(s, op, order).k
    ensures var evs := [SelfEvent(s, op)] + ReplacedEvents(s.k, op.target, op.name);
            NoMovedFrom(evs) && Followed(RunSingles(s2, evs), false)
  {
    hide Wf, PathOf, Leaf, Desc, Entries, WfTable, IsUnder, UnderRoots, Snapshot, SelfMoves, RootsExist,
         RootsNamed, RewriteView, Synced, Exact, RunSingles, ReplacedEvents, Rebuild, ZapRoot, Zap, CanZap,
         WatchSubtree;
    SceneParts(s, op, order);
    var to := NewPath(s, op);
    var view := RewriteView(Pending(s, op), OldPath(s, op), to);
    var stale := StaleAfter(s, Snapshot(s.roots, s.k.tree), op);
    var self, tail := SelfEvent(s, op), ReplacedEvents(s.k, op.target, op.name);
    RenameEvents(s, op, order);
    RootIsWatched(s, op, order);
    RewrittenRoot(s, op, order);
    SceneTail(s, op, order);
    var r := RootAboveChild(s, op.target, op.name);
    SelfMoveSeen(s2, view, stale, op.dir, r);
    if IsRoot(s.roots, to) {
      RunSinglesRebuilt(s2, self, tail, Rebuild(ZapRoot(s2, to)));
    } else {
      RunSinglesCons(s2, self, tail, s2);
      FinishWithin(s, op, order, s2);
    }
  }

  /** The event of a moved directory that is cached under its new pathname. */
  lemma SelfMoveSeen(s: Monitor, view: View, stale: map<int, string>, d: DirId, r: string)
    requires Mirrors(s, view, stale) && d in view && !s.exited && IsRoot(s.roots, r) && r != view[d]
    requires IsRoot(s.roots, view[d]) ==> exists wd :: 1 <= wd && stale == map[wd := view[d]]
    ensures var e := Event(s.k.watch[d], {MOVE_SELF}, 0, "");
            && KernelEvent(e)
            && if IsRoot(s.roots, view[d]) then
                 && Process(s, [e], false) == Rebuilt(Rebuild(ZapRoot(s, view[d])))
                 && Exact(Rebuild(ZapRoot(s, view[d]))) && !Rebuild(ZapRoot(s, view[d])).exited
               else Process(s, [e], false) == Consumed(s, 1)
  {
    hide Wf, WfTable, Rebuild, ZapRoot, Zap, CanZap, WatchSubtree, Exact;
    CachedAs(s, view, stale, d);
    if IsRoot(s.roots, view[d]) {
      ZapRootRoots(s, view[d]);
      StaleBlocksZap(ZapRoot(s, view[d]), view, stale, view[d]);
      RebuildIsExact(ZapRoot(s, view[d]));
    }
  }

  lemma RewrittenRoot(s: Monitor, op: Op, order: seq<DirId>)
    requires Scene(s, op, order) && op.dir in Pending(s, op) && Pending(s, op)[op.dir] == OldPath(s, op)
    ensures var view := RewriteView(Pending(s, op), OldPath(s, op), NewPath(s, op));
            op.dir in view && view[op.dir] == NewPath(s, op)
  {
    hide Wf, PathOf, Leaf, Desc, Entries, WfTable, UnderRoots, Snapshot, SelfMoves, RootsExist, RootsNamed;
    var from, to := OldPath(s, op), NewPath(s, op);
    UnderReflexive(from);
    assert to + from[|from|..] == to;
  }

  /** An entry whose watch the kernel has dropped cannot be removed with its subtree. */
  lemma StaleBlocksZap(s: Monitor, view: View, stale: map<int, string>, to: string)
    requires Mirrors(s, view, stale) && (exists wd :: 1 <= wd && stale == map[wd := to])
    ensures !CanZap(s, to)
  {
    hide Wf;
    var wd :| 1 <= wd && stale == map[wd := to];
    assert wd in stale;
    UnderReflexive(to);
    assert wd in Matched(s.cache, to);
  }

  /** Renamed within the monitored trees. */
  lemma FollowWithin(s: Monitor, op: Op, order: seq<DirId>, chunks: seq<seq<Event>>)
    requires Scene(s, op, order) && CanFollow(s, op, chunks)
    requires Watched(s, s.k.tree[op.dir].parent) && Watched(s, op.target)
    requires AllReads(chunks) && Flatten(chunks) == OpEvents(s.k, op)
    ensures WfKernel(AfterOp(s, op, order).k)
    ensures Followed(Serve(AfterOp(s, op, order), chunks), NoneBelow(s.roots, OldPath(s, op)))
  {
    hide Wf, PathOf, Leaf, Desc, Entries, WfTable, IsUnder, UnderRoots, Snapshot, SelfMoves, Process, RootsExist,
         RootsNamed, Serve, Zap, Synced, Exact, Flatten, AboveRoot, RunSingles, Followed, Replaces, Torn, Pairs,
         KernelEvent, IsMovedFrom, ReplacedEvents, OpEvents, ValidOp, Lists, TreeAfter, KernelAfter, NoneBelow;
    SceneParts(s, op, order);
    OpKeepsWf(s.k, op, order);
    var self, rest := MovedFromEvents(s, op, order);
    assert rest[1..] == self + ReplacedEvents(s.k, op.target, op.name);
    ServeMovedFrom(AfterOp(s, op, order), chunks, FromEvent(s, op), rest);
    if !Torn(chunks) {
      PairFollowed(s, op, order, self);
    } else if IsRoot(s.roots, OldPath(s, op)) {
      TornRoot(s, op, order);
    } else {
      TornRename(s, op, order);
    }
  }

  /** Renamed out of the monitored trees. */
  lemma FollowOut(s: Monitor, op: Op, order: seq<DirId>, chunks: seq<seq<Event>>)
    requires Scene(s, op, order) && Watched(s, s.k.tree[op.dir].parent) && !Watched(s, op.target)
    requires AllReads(chunks) && Flatten(chunks) == OpEvents(s.k, op)
    ensures WfKernel(AfterOp(s, op, order).k)
    ensures Followed(Serve(AfterOp(s, op, order), chunks), NoneBelow(s.roots, OldPath(s, op)))
  {
    hide Wf, PathOf, Leaf, Desc, Entries, WfTable, IsUnder, UnderRoots, Snapshot, SelfMoves, Process, RootsExist,
         RootsNamed, Serve, Zap, Synced, Exact, Flatten, RunSingles, Followed, Pairs, KernelEvent, IsMovedFrom,
         ReplacedEvents, OpEvents, ValidOp, Lists, TreeAfter, KernelAfter, NoneBelow, Torn;
    SceneParts(s, op, order);
    OpKeepsWf(s.k, op, order);
    var self, rest := MovedFromEvents(s, op, order);
    ServeMovedFrom(AfterOp(s, op, order), chunks, FromEvent(s, op), rest);
    if IsRoot(s.roots, OldPath(s, op)) {
      RootMovedOut(s, op, order);
    } else {
      assert rest == ReplacedEvents(s.k, op.target, op.name);
      MovedOut(s, op, order);
    }
  }

  lemma SceneParts(s: Monitor, op: Op, order: seq<DirId>)
    requires Scene(s, op, order)
    ensures WfKernel(s.k) && RootsNamed(s.roots) && RootsExist(s.roots, s.k.tree) && !s.exited
    ensures op.dir in s.k.tree && Present(s.k.tree, op.target) && ValidName(op.name)
    ensures Snapshot(s.roots, s.k.tree).Keys == s.k.watch.Keys
  {
    hide Wf, PathOf, Leaf, Desc, Entries, WfTable, IsUnder, UnderRoots, SelfMoves;
  }

  /** Zapping the subtree when "moved from" is handled alone. */
  lemma Departed(s: Monitor, op: Op, order: seq<DirId>)
    requires Scene(s, op, order) && Watched(s, s.k.tree[op.dir].parent)
    ensures WfKernel(AfterOp(s, op, order).k)
    ensures var s1 := AfterOp(s, op, order);
            var s2 := Zap(s1, OldPath(s, op));
            var view2 := Without(Pending(s, op), OldPath(s, op));
            && s.k.tree[op.dir].parent in s.k.watch && KernelEvent(FromEvent(s, op))
            && WfKernel(s1.k) && Process(s1, [FromEvent(s, op)], false) == Consumed(s2, 1)
            && s2.roots == s.roots && s2.exited == s.exited && s2.k.tree == s1.k.tree
            && Mirrors(s2, view2, StaleAfter(s, Snapshot(s.roots, s.k.tree), op)) && SelfMoves(s2, view2)
            && (forall x :: x in view2 ==> s2.k.watch[x] == s.k.watch[x])
  {
    hide Wf, PathOf, Leaf, Desc, Entries, WfTable, IsUnder, UnderRoots, SelfMoves, Process, Snapshot, Without, Zap,
         RootsExist, RootsNamed, Rewrite, Renamed, ValidName;
    var s1 := AfterOp(s, op, order);
    SceneParts(s, op, order);
    SceneStart(s, op, order);
    ParentStays(s, op, order);
    FromEventIsKernel(s, op, order);
    HandleDeparture(s1, Pending(s, op), StaleAfter(s, Snapshot(s.roots, s.k.tree), op),
                    s.k.tree[op.dir].parent, FromEvent(s, op));
  }

  lemma TornRename(s: Monitor, op: Op, order: seq<DirId>)
    requires Scene(s, op, order) && Watched(s, s.k.tree[op.dir].parent) && Watched(s, op.target) && !Replaces(s, op)
    ensures var s1 := AfterOp(s, op, order);
            var evs := [ToEvent(s, op)] + ([] + ReplacedEvents(s.k, op.target, op.name));
            && WfKernel(s1.k) && KernelEvent(FromEvent(s, op)) && NoMovedFrom(evs)
            && var o := Process(s1, [FromEvent(s, op)], false);
               o.Consumed? && Followed(RunSingles(o.s, evs), NoneBelow(s.roots, OldPath(s, op)))
  {
    hide Wf, PathOf, Leaf, Desc, Entries, WfTable, IsUnder, UnderRoots, SelfMoves, Process, Snapshot, Without, Zap,
         Synced;
    SceneParts(s, op, order);
    SceneWatches(s, op, order);
    RenameEvents(s, op, order);
    SceneTail(s, op, order);
    Departed(s, op, order);
    TargetStays(s, op, order);
    var s2 := Zap(AfterOp(s, op, order), OldPath(s, op));
    FinishIn(s, op, order, s2, ToEvent(s, op));
    assert [ToEvent(s, op)] + ([] + []) == [ToEvent(s, op)];
  }

  /** The descriptor of the moved directory has gone with its subtree. */
  lemma DepartedDescriptor(s: Monitor, op: Op, order: seq<DirId>)
    requires Scene(s, op, order) && Watched(s, s.k.tree[op.dir].parent) && op.dir in s.k.watch
    ensures WfKernel(AfterOp(s, op, order).k)
    ensures var k2, wd := Zap(AfterOp(s, op, order), OldPath(s, op)).k, s.k.watch[op.dir];
            && wd !in k2.dirOf && wd < k2.nextWd
            && wd !in StaleAfter(s, Snapshot(s.roots, s.k.tree), op)
  {
    hide Wf, PathOf, Leaf, Desc, IsUnder, UnderRoots, SelfMoves, RootsExist, RootsNamed, Rewrite, Renamed;
    var s1 := AfterOp(s, op, order);
    SceneStart(s, op, order);
    MovedIsPending(s, op, order);
    CachedAs(s1, Pending(s, op), StaleAfter(s, Snapshot(s.roots, s.k.tree), op), op.dir);
    UnderReflexive(OldPath(s, op));
    assert s.k.watch[op.dir] in Matched(s1.cache, OldPath(s, op));
  }

  lemma MovedIsPending(s: Monitor, op: Op, order: seq<DirId>)
    requires Scene(s, op, order) && op.dir in s.k.watch
    ensures op.dir in Pending(s, op) && Pending(s, op)[op.dir] == OldPath(s, op)
    ensures AfterOp(s, op, order).k.watch[op.dir] == s.k.watch[op.dir]
  {
    hide Wf, PathOf, Leaf, Desc, Entries, WfTable, IsUnder, UnderRoots, SelfMoves, RootsExist, RootsNamed;
    SceneParts(s, op, order);
    RenamePaths(s.k.tree, op.dir, op.target, op.name);
  }

  /** The event of a moved root whose descriptor is no longer cached leads to a rebuild. */
  lemma UnknownSelf(s: Monitor, op: Op, order: seq<DirId>, s3: Monitor, view: View)
    requires Scene(s, op, order) && IsRoot(s.roots, OldPath(s, op)) && op.dir in s.k.watch && !s3.exited
    requires Mirrors(s3, view, StaleAfter(s, Snapshot(s.roots, s.k.tree), op))
    requires s.k.watch[op.dir] !in s3.k.dirOf
    requires s.k.watch[op.dir] !in StaleAfter(s, Snapshot(s.roots, s.k.tree), op)
    ensures var evs := [SelfEvent(s, op)] + ReplacedEvents(s.k, op.target, op.name);
            NoMovedFrom(evs) && Followed(RunSingles(s3, evs), false)
  {
    hide Wf, PathOf, Leaf, Desc, WfTable, IsUnder, UnderRoots, Snapshot, SelfMoves, RootsExist, RootsNamed, Synced,
         Exact, RunSingles, ReplacedEvents, Rebuild;
    RenameEvents(s, op, order);
    RootIsWatched(s, op, order);
    RebuildIsExact(s3);
    RunSinglesRebuilt(s3, SelfEvent(s, op), ReplacedEvents(s.k, op.target, op.name), Rebuild(s3));
  }

  /** A root moved out of the tree of another one. */
  lemma RootMovedOut(s: Monitor, op: Op, order: seq<DirId>)
    requires Scene(s, op, order) && Watched(s, s.k.tree[op.dir].parent) && IsRoot(s.roots, OldPath(s, op))
    requires op.dir in s.k.watch
    ensures var s1 := AfterOp(s, op, order);
            var evs := [SelfEvent(s, op)] + ReplacedEvents(s.k, op.target, op.name);
            && WfKernel(s1.k) && KernelEvent(FromEvent(s, op)) && NoMovedFrom(evs)
            && var o := Process(s1, [FromEvent(s, op)], false);
               o.Consumed? && Followed(RunSingles(o.s, evs), NoneBelow(s.roots, OldPath(s, op)))
  {
    hide Wf, PathOf, Leaf, Desc, Entries, WfTable, IsUnder, UnderRoots, SelfMoves, Process, Snapshot, Without, Zap,
         Synced, Exact, RunSingles;
    SceneParts(s, op, order);
    Departed(s, op, order);
    DepartedDescriptor(s, op, order);
    UnderReflexive(OldPath(s, op));
    UnknownSelf(s, op, order, Zap(AfterOp(s, op, order), OldPath(s, op)), Without(Pending(s, op), OldPath(s, op)));
  }

  /** A root below another one, renamed within the monitored trees in two events torn apart. */
  lemma TornRoot(s: Monitor, op: Op, order: seq<DirId>)
    requires Scene(s, op, order) && Watched(s, s.k.tree[op.dir].parent) && Watched(s, op.target)
    requires IsRoot(s.roots, OldPath(s, op)) && op.dir in s.k.watch
    ensures var s1 := AfterOp(s, op, order);
            var evs := [ToEvent(s, op)] + ([SelfEvent(s, op)] + ReplacedEvents(s.k, op.target, op.name));
            && WfKernel(s1.k) && op.target in s.k.watch && KernelEvent(FromEvent(s, op)) && NoMovedFrom(evs)
            && var o := Process(s1, [FromEvent(s, op)], false);
               o.Consumed? && Followed(RunSingles(o.s, evs), NoneBelow(s.roots, OldPath(s, op)))
  {
    hide Wf, PathOf, Leaf, Desc, Entries, WfTable, IsUnder, UnderRoots, SelfMoves, Process, Snapshot, Without, Zap,
         Synced, Exact, RunSingles, ReplacedEvents, KernelEvent, IsMovedFrom;
    SceneParts(s, op, order);
    RenameEvents(s, op, order);
    Departed(s, op, order);
    UnderReflexive(OldPath(s, op));
    var s2 := Zap(AfterOp(s, op, order), OldPath(s, op));
    var s3, view3 := ArrivalAfterZap(s, op, order);
    UnknownSelf(s, op, order, s3, view3);
    RunSinglesCons(s2, ToEvent(s, op), [SelfEvent(s, op)] + ReplacedEvents(s.k, op.target, op.name), s3);
  }

  /** A "moved to" event after the subtree was removed brings no old descriptor back. */
  lemma ArrivalAfterZap(s: Monitor, op: Op, order: seq<DirId>) returns (s3: Monitor, view3: View)
    requires Scene(s, op, order) && Watched(s, s.k.tree[op.dir].parent) && Watched(s, op.target) && op.dir in s.k.watch
    ensures WfKernel(AfterOp(s, op, order).k) && op.target in s.k.watch
    ensures var s2 := Zap(AfterOp(s, op, order), OldPath(s, op));
            WfKernel(s2.k) && KernelEvent(ToEvent(s, op)) && Process(s2, [ToEvent(s, op)], false) == Consumed(s3, 1)
    ensures var stale := StaleAfter(s, Snapshot(s.roots, s.k.tree), op);
            Mirrors(s3, view3, stale) && s.k.watch[op.dir] !in s3.k.dirOf && s.k.watch[op.dir] !in stale
    ensures !s3.exited
  {
    hide Wf, PathOf, Leaf, Desc, Entries, WfTable, IsUnder, UnderRoots, SelfMoves, Process, Snapshot, Without, Zap,
         Synced, RootsExist, RootsNamed, ReplacedEvents, OpEvents;
    SceneParts(s, op, order);
    ToEventIsKernel(s, op, order);
    Departed(s, op, order);
    DepartedDescriptor(s, op, order);
    TargetStays(s, op, order);
    var s2 := Zap(AfterOp(s, op, order), OldPath(s, op));
    var view2: View := Without(Pending(s, op), OldPath(s, op));
    var stale := StaleAfter(s, Snapshot(s.roots, s.k.tree), op);
    s3, view3 := ArrivalStep(s2, view2, stale, op.target, op.name, ToEvent(s, op));
  }

  /** Handling a "moved to" event keeps the correspondence, and adds only new descriptors. */
  lemma ArrivalStep(s: Monitor, view: View, stale: map<int, string>, q: DirId, n: string, e: Event)
    returns (s': Monitor, view': View)
    requires Mirrors(s, view, stale) && q in view && !s.exited && ValidName(n)
    requires KernelEvent(e) && e == Event(s.k.watch[q], {MOVED_TO, ISDIR}, COOKIE, n)
    ensures Process(s, [e], false) == Consumed(s', 1) && Mirrors(s', view', stale) && !s'.exited
    ensures forall wd :: wd in s'.k.dirOf ==> wd in s.k.dirOf || s.k.nextWd <= wd
  {
    hide Wf, WfTable, Entries, Process, WatchSubtree, Extend, InView;
    var p := Child(view[q], n);
    HandleArrival(s, view, stale, q, n, e);
    WatchSubtreeMirrors(s, view, stale, p);
    WalkedDescriptors(s, p);
    s' := Process(s, [e], false).s;
    view' := if s' == s then view else Extend(view, s.k.tree, Subtree(s.k.tree, p));
  }

  lemma WalkedDescriptors(s: Monitor, path: string)
    requires WfKernel(s.k)
    ensures var k' := WatchSubtree(s, path).k; forall wd :: wd in k'.dirOf ==> wd in s.k.dirOf || s.k.nextWd <= wd
  {
    hide Wf;
    NewDescriptors(s, Below(s.k.tree, s.k.order, path));
  }

  lemma MovedOut(s: Monitor, op: Op, order: seq<DirId>)
    requires Scene(s, op, order) && Watched(s, s.k.tree[op.dir].parent) && !Watched(s, op.target)
    requires !IsRoot(s.roots, OldPath(s, op))
    ensures var s1 := AfterOp(s, op, order);
            var evs := ReplacedEvents(s.k, op.target, op.name);
            && WfKernel(s1.k) && s.k.tree[op.dir].parent in s.k.watch
            && KernelEvent(FromEvent(s, op)) && NoMovedFrom(evs)
            && var o := Process(s1, [FromEvent(s, op)], false);
               o.Consumed? && Followed(RunSingles(o.s, evs), NoneBelow(s.roots, OldPath(s, op)))
  {
    hide Wf, PathOf, Leaf, Desc, Entries, WfTable, IsUnder, UnderRoots, SelfMoves, Process, Snapshot, Without, Zap,
         Synced;
    SceneParts(s, op, order);
    Departed(s, op, order);
    FinishOut(s, op, order, Zap(AfterOp(s, op, order), OldPath(s, op)), NoneBelow(s.roots, OldPath(s, op)));
  }

  lemma RootIsWatched(s: Monitor, op: Op, order: seq<DirId>)
    requires Scene(s, op, order) && IsRoot(s.roots, OldPath(s, op))
    ensures Watched(s, op.dir) && op.dir in s.k.watch
    ensures op.dir in Pending(s, op) && Pending(s, op)[op.dir] == OldPath(s, op)
    ensures AfterOp(s, op, order).k.watch[op.dir] == s.k.watch[op.dir]
  {
    hide Wf, PathOf, Leaf, Desc, Entries, WfTable, IsUnder, UnderRoots, SelfMoves, RootsExist;
    SceneParts(s, op, order);
    UnderReflexive(OldPath(s, op));
    UnderRootsIntro(s.roots, OldPath(s, op), OldPath(s, op));
    MovedIsPending(s, op, order);
  }

  /** A root moved to a place that is not monitored. */
  lemma FollowRootOut(s: Monitor, op: Op, order: seq<DirId>)
    requires Scene(s, op, order) && IsRoot(s.roots, OldPath(s, op)) && !Watched(s, op.target)
    requires !Watched(s, s.k.tree[op.dir].parent)
    ensures WfKernel(AfterOp(s, op, order).k) && NoMovedFrom(OpEvents(s.k, op))
    ensures Followed(RunSingles(AfterOp(s, op, order), OpEvents(s.k, op)), !Dangles(s, op))
  {
    hide Wf, PathOf, Leaf, Desc, Entries, WfTable, IsUnder, UnderRoots, Snapshot, SelfMoves, Process, RootsExist,
         RootsNamed, Synced, Without, Renamed, ZapRoot, Zap, Rewrite, ValidName, AboveRoot;
    var s1 := AfterOp(s, op, order);
    SceneParts(s, op, order);
    var from := OldPath(s, op);
    RootIsWatched(s, op, order);
    var self := OtherEvents(s, op, order);
    RenameEvents(s, op, order);
    SceneStart(s, op, order);
    var tail := ReplacedEvents(s.k, op.target, op.name);
    var e := Event(s.k.watch[op.dir], {MOVE_SELF}, 0, "");
    var stale := StaleAfter(s, Snapshot(s.roots, s.k.tree), op);
    HandleSelfMove(s1, Pending(s, op), stale, op.dir);
    var z := ZapRoot(s1, from);
    var s2 := if z.exited then z else Zap(z, from);
    RunSinglesCons(s1, e, tail, s2);
    if !s2.exited {
      FinishOut(s, op, order, s2, !Dangles(s, op));
    }
  }

  /** The directory was not watched and holds no root. */
  lemma FollowUnwatched(s: Monitor, op: Op, order: seq<DirId>)
    requires Scene(s, op, order) && !Watched(s, op.dir) && !AboveRoot(s, op)
    requires Watched(s, op.target) ==> !Replaces(s, op)
    ensures WfKernel(AfterOp(s, op, order).k) && NoMovedFrom(OpEvents(s.k, op))
    ensures Followed(RunSingles(AfterOp(s, op, order), OpEvents(s.k, op)), true)
  {
    hide Wf, PathOf, Leaf, Desc, Entries, WfTable, IsUnder, UnderRoots, Snapshot, SelfMoves, Process, RootsExist,
         RootsNamed, Synced, Without, Renamed;
    var s1 := AfterOp(s, op, order);
    SceneParts(s, op, order);
    SceneStart(s, op, order);
    SceneTail(s, op, order);
    NothingBelow(s, op, order);
    UnwatchedEvents(s, op, order);
    if Watched(s, op.target) {
      TargetStays(s, op, order);
      assert [ToEvent(s, op)] + [] == [ToEvent(s, op)];
      FinishIn(s, op, order, s1, ToEvent(s, op));
    } else {
      UnwatchedIsNoRoot(s.roots, s.k.tree, op.dir);
      FinishOut(s, op, order, s1, true);
    }
  }

  lemma UnwatchedParent(s: Monitor, op: Op, order: seq<DirId>)
    requires Scene(s, op, order) && !Watched(s, op.dir)
    ensures !Watched(s, s.k.tree[op.dir].parent)
  {
    hide Wf, PathOf, Leaf, Desc, Entries, WfTable, IsUnder, UnderRoots, Snapshot, SelfMoves;
    SceneParts(s, op, order);
    if Watched(s, s.k.tree[op.dir].parent) {
      WatchedChild(s, op.dir);
    }
  }

  lemma RenameIsFollowed(s: Monitor, op: Op, order: seq<DirId>, chunks: seq<seq<Event>>)
    requires Scene(s, op, order) && CanFollow(s, op, chunks)
    requires AllReads(chunks) && Flatten(chunks) == OpEvents(s.k, op)
    ensures WfKernel(AfterOp(s, op, order).k) && Followed(Serve(AfterOp(s, op, order), chunks), !Dangles(s, op))
  {
    hide Wf, PathOf, Leaf, Desc, Entries, WfTable, IsUnder, UnderRoots, Snapshot, SelfMoves, RootsExist, RootsNamed,
         Synced, Exact, Serve, Flatten, AboveRoot, RunSingles, Watched;
    SceneParts(s, op, order);
    if Watched(s, s.k.tree[op.dir].parent) {
      if Watched(s, op.target) {
        FollowWithin(s, op, order, chunks);
      } else {
        FollowOut(s, op, order, chunks);
      }
    } else {
      if IsRoot(s.roots, OldPath(s, op)) {
        FollowRootOut(s, op, order);
      } else {
        if Watched(s, op.dir) {
          WatchedParent(s, op.dir);
        }
        FollowUnwatched(s, op, order);
      }
      ServeFlat(AfterOp(s, op, order), chunks);
    }
  }

  // ----- Renames that are not -----------------------------------------------

  lemma MirrorsUnique(s: Monitor, view: View, view': View)
    requires Mirrors(s, view, map[]) && Mirrors(s, view', map[])
    ensures view == view'
  {
    hide Wf;
    forall d | d in view ensures view[d] == view'[d] {
      CachedAs(s, view, map[], d);
      CachedAs(s, view', map[], d);
    }
  }

  /** What arrives in a monitored directory ought to be monitored. */
  lemma ArrivalIsDue(s: Monitor, op: Op, order: seq<DirId>, roots: Roots)
    requires Scene(s, op, order) && Watched(s, op.target)
    requires forall r :: IsRoot(s.roots, r) && !IsUnder(OldPath(s, op), r) && r != NewPath(s, op) ==> IsRoot(roots, r)
    ensures Wf(TreeAfter(s.k.tree, op)) && op.dir in Snapshot(roots, TreeAfter(s.k.tree, op))
    ensures exists r :: IsRoot(s.roots, r) && !IsUnder(OldPath(s, op), r) && r != NewPath(s, op)
  {
    hide Wf, PathOf, Leaf, Desc, Entries, WfTable, UnderRoots, SelfMoves, RootsExist, RootsNamed;
    var t := s.k.tree;
    var from, to := OldPath(s, op), NewPath(s, op);
    RenamePaths(t, op.dir, op.target, op.name);
    var r := RootAboveChild(s, op.target, op.name);
    if IsUnder(from, r) {
      UnderTransitive(from, r, to);
    }
    RewriteRoundTrip(from, to, from);
    assert PathOf(TreeAfter(t, op), op.dir) == to + from[|from|..] == to;
    UnderRootsIntro(roots, r, to);
  }

  /** Handling the deletion of what was replaced does not bring the arrival back. */
  lemma NeverCached(s: Monitor, op: Op, order: seq<DirId>, s2: Monitor, view: View)
    requires Scene(s, op, order) && Watched(s, op.target) && !s2.exited && op.dir !in view
    requires Mirrors(s2, view, StaleAfter(s, Snapshot(s.roots, s.k.tree), op))
    requires s2.k.tree == TreeAfter(s.k.tree, op)
    requires forall r :: IsRoot(s2.roots, r) ==> IsRoot(s.roots, r)
    requires forall r :: IsRoot(s.roots, r) && !IsUnder(OldPath(s, op), r) ==> IsRoot(s2.roots, r)
    ensures var evs := ReplacedEvents(s.k, op.target, op.name);
            NoMovedFrom(evs) && !RunSingles(s2, evs).exited && !Exact(RunSingles(s2, evs))
  {
    hide Wf, PathOf, Leaf, Desc, Entries, WfTable, IsUnder, UnderRoots, Snapshot, SelfMoves, RootsExist, RootsNamed,
         Process;
    SceneParts(s, op, order);
    SceneTail(s, op, order);
    var evs := ReplacedEvents(s.k, op.target, op.name);
    TailShrinks(s.roots, s2.roots, StaleAfter(s, Snapshot(s.roots, s.k.tree), op), evs, NewPath(s, op));
    HandleReplaced(s2, view, StaleAfter(s, Snapshot(s.roots, s.k.tree), op), evs, NewPath(s, op));
    var s' := RunSingles(s2, evs);
    ArrivalIsDue(s, op, order, s'.roots);
    if Exact(s') {
      MirrorsUnique(s', view, Snapshot(s'.roots, s'.k.tree));
    }
  }

  lemma TailShrinks(roots: Roots, roots': Roots, stale: map<int, string>, evs: seq<Event>, to: string)
    requires Tail(roots, stale, evs, to) && forall r :: IsRoot(roots', r) ==> IsRoot(roots, r)
    ensures Tail(roots', stale, evs, to)
  {
  }

  /** The "moved to" event at a place where a cache entry is still listed does nothing. */
  lemma ArrivalIgnored(s: Monitor, op: Op, order: seq<DirId>, s2: Monitor, view: View)
    requires Scene(s, op, order) && Watched(s, op.target) && Replaces(s, op) && !s2.exited
    requires Mirrors(s2, view, StaleAfter(s, Snapshot(s.roots, s.k.tree), op))
    requires op.target in view && view[op.target] == PathOf(s.k.tree, op.target)
    requires op.target in s.k.watch && s2.k.watch[op.target] == s.k.watch[op.target]
    ensures KernelEvent(ToEvent(s, op)) && Process(s2, [ToEvent(s, op)], false) == Consumed(s2, 1)
  {
    hide Wf, PathOf, Leaf, Desc, Entries, WfTable, IsUnder, UnderRoots, Snapshot, SelfMoves, RootsExist, RootsNamed,
         Process, WatchSubtree;
    var stale := StaleAfter(s, Snapshot(s.roots, s.k.tree), op);
    SceneParts(s, op, order);
    SceneTail(s, op, order);
    CachedAs(s2, view, stale, op.target);
    HandleArrival(s2, view, stale, op.target, op.name, ToEvent(s, op));
    var wd :| 1 <= wd && stale == map[wd := NewPath(s, op)];
    assert wd in stale && stale[wd] == NewPath(s, op);
  }

  lemma KeepsTarget(s: Monitor, op: Op, order: seq<DirId>)
    requires Scene(s, op, order) && Watched(s, op.target)
    ensures op.target in Pending(s, op) && Pending(s, op)[op.target] == PathOf(s.k.tree, op.target)
    ensures AfterOp(s, op, order).k.watch[op.target] == s.k.watch[op.target]
  {
    hide Wf, PathOf, Leaf, Desc, Entries, WfTable, IsUnder, UnderRoots, Snapshot, SelfMoves, RootsExist, RootsNamed,
         Without;
    TargetStays(s, op, order);
    WithoutIsSmaller(Pending(s, op), OldPath(s, op));
    SceneStart(s, op, order);
  }

  /** An unpaired "moved to" event takes nothing out of the view. */
  lemma MovedToStep(s: Monitor, op: Op, order: seq<DirId>) returns (s2: Monitor, view2: View)
    requires Scene(s, op, order) && Watched(s, op.target)
    ensures WfKernel(AfterOp(s, op, order).k) && op.target in s.k.watch && KernelEvent(ToEvent(s, op))
    ensures Process(AfterOp(s, op, order), [ToEvent(s, op)], false) == Consumed(s2, 1)
    ensures Mirrors(s2, view2, StaleAfter(s, Snapshot(s.roots, s.k.tree), op))
    ensures view2 == Pending(s, op) ||
            (Wf(s2.k.tree) && view2 == Extend(Pending(s, op), s2.k.tree, Subtree(s2.k.tree, NewPath(s, op))))
    ensures s2.roots == s.roots && !s2.exited && s2.k.tree == TreeAfter(s.k.tree, op)
    ensures forall x :: x in Pending(s, op) ==> x in s2.k.watch && s2.k.watch[x] == s.k.watch[x]
  {
    hide Wf, PathOf, Leaf, Desc, Entries, WfTable, IsUnder, UnderRoots, Snapshot, SelfMoves, Process, WatchSubtree,
         RootsExist, RootsNamed, Synced, Renamed, IsMovedFrom, Extend;
    var s1 := AfterOp(s, op, order);
    SceneParts(s, op, order);
    SceneStart(s, op, order);
    SceneWatches(s, op, order);
    KeepsTarget(s, op, order);
    var stale := StaleAfter(s, Snapshot(s.roots, s.k.tree), op);
    WatchedWd(s.k, op.target);
    HandleArrival(s1, Pending(s, op), stale, op.target, op.name, ToEvent(s, op));
    WatchSubtreeMirrors(s1, Pending(s, op), stale, NewPath(s, op));
    s2 := Process(s1, [ToEvent(s, op)], false).s;
    view2 := if s2 == s1 then Pending(s, op) else Extend(Pending(s, op), s1.k.tree, Subtree(s1.k.tree, NewPath(s, op)));
  }

  /** Onto a cached directory, with "moved to" handled on its own after "moved from". */
  lemma LostWhenTorn(s: Monitor, op: Op, order: seq<DirId>, chunks: seq<seq<Event>>)
    requires Scene(s, op, order) && Watched(s, op.target) && Replaces(s, op)
    requires Watched(s, s.k.tree[op.dir].parent) && Torn(chunks) && !IsRoot(s.roots, OldPath(s, op))
    requires AllReads(chunks) && Flatten(chunks) == OpEvents(s.k, op)
    ensures WfKernel(AfterOp(s, op, order).k)
    ensures var s' := Serve(AfterOp(s, op, order), chunks); !s'.exited && !Exact(s')
  {
    hide Wf, PathOf, Leaf, Desc, Entries, WfTable, IsUnder, UnderRoots, Snapshot, SelfMoves, Process, Zap, RootsExist,
         RootsNamed, Serve, Synced, Exact, Flatten, Renamed, KernelEvent, IsMovedFrom, Torn, OpEvents, ReplacedEvents,
         ValidOp, Lists, TreeAfter;
    SceneParts(s, op, order);
    OpKeepsWf(s.k, op, order);
    var s1, e, tail := AfterOp(s, op, order), ToEvent(s, op), ReplacedEvents(s.k, op.target, op.name);
    var self, rest := MovedFromEvents(s, op, order);
    assert rest == [e] + tail;
    ServeMovedFrom(s1, chunks, FromEvent(s, op), rest);
    Departed(s, op, order);
    var s2 := Zap(s1, OldPath(s, op));
    LostAfterZap(s, op, order, s2);
    ToEventIsKernel(s, op, order);
    RunSinglesCons(s2, e, tail, s2);
  }

  lemma LostAfterZap(s: Monitor, op: Op, order: seq<DirId>, s2: Monitor)
    requires Scene(s, op, order) && Watched(s, op.target) && Replaces(s, op) && !s2.exited
    requires Mirrors(s2, Without(Pending(s, op), OldPath(s, op)), StaleAfter(s, Snapshot(s.roots, s.k.tree), op))
    requires s2.k.tree == TreeAfter(s.k.tree, op) && s2.roots == s.roots
    requires op.target in s2.k.watch ==> op.target in s.k.watch && s2.k.watch[op.target] == s.k.watch[op.target]
    ensures op.target in s.k.watch && KernelEvent(ToEvent(s, op))
    ensures Process(s2, [ToEvent(s, op)], false) == Consumed(s2, 1)
    ensures var evs := ReplacedEvents(s.k, op.target, op.name);
            NoMovedFrom(evs) && !RunSingles(s2, evs).exited && !Exact(RunSingles(s2, evs))
  {
    hide Wf, PathOf, Leaf, Desc, Entries, WfTable, UnderRoots, Snapshot, SelfMoves, Process, RootsExist, RootsNamed,
         Synced, Exact;
    SceneParts(s, op, order);
    var view2: View := Without(Pending(s, op), OldPath(s, op));
    TargetStays(s, op, order);
    ArrivalIgnored(s, op, order, s2, view2);
    assert op.dir !in view2 by { GoneBelow(s, op, order); }
    NeverCached(s, op, order, s2, view2);
  }

  lemma GoneBelow(s: Monitor, op: Op, order: seq<DirId>)
    requires Scene(s, op, order)
    ensures op.dir !in Without(Pending(s, op), OldPath(s, op))
  {
    hide Wf, PathOf, Leaf, Desc, Entries, WfTable, UnderRoots, SelfMoves, RootsExist, RootsNamed;
    UnderReflexive(OldPath(s, op));
  }

  /** Onto a cached directory, from a place that is not monitored. */
  lemma LostWhenReplacing(s: Monitor, op: Op, order: seq<DirId>)
    requires Scene(s, op, order) && Watched(s, op.target) && Replaces(s, op) && !Watched(s, op.dir)
    ensures WfKernel(AfterOp(s, op, order).k) && NoMovedFrom(OpEvents(s.k, op))
    ensures var s' := RunSingles(AfterOp(s, op, order), OpEvents(s.k, op)); !s'.exited && !Exact(s')
  {
    hide Wf, PathOf, Leaf, Desc, Entries, WfTable, IsUnder, UnderRoots, Snapshot, SelfMoves, Process, RootsExist,
         RootsNamed, Synced, Exact, Renamed, KernelEvent, IsMovedFrom;
    var s1 := AfterOp(s, op, order);
    SceneParts(s, op, order);
    SceneStart(s, op, order);
    UnwatchedEvents(s, op, order);
    KeepsTarget(s, op, order);
    ArrivalIgnored(s, op, order, s1, Pending(s, op));
    NeverCached(s, op, order, s1, Pending(s, op));
    var tail := ReplacedEvents(s.k, op.target, op.name);
    RunSinglesCons(s1, ToEvent(s, op), tail, s1);
  }

  /** The walk after a root's arrival finds every directory of it watched already. */
  lemma RootArrivalKnown(s: Monitor, op: Op, order: seq<DirId>)
    requires Scene(s, op, order) && IsRoot(s.roots, OldPath(s, op))
    ensures var t' := TreeAfter(s.k.tree, op);
            Wf(t') && Extend(Pending(s, op), t', Subtree(t', NewPath(s, op))) == Pending(s, op)
  {
    hide Wf, PathOf, Leaf, Desc, Entries, WfTable, UnderRoots, SelfMoves, RootsExist, RootsNamed, IsUnder;
    var t, t' := s.k.tree, TreeAfter(s.k.tree, op);
    RenamePaths(t, op.dir, op.target, op.name);
    SubtreeAtTarget(t, t', Replaced(t, op.target, op.name), op.dir, op.target, op.name, OldPath(s, op), NewPath(s, op));
    forall x | x in Subtree(t', NewPath(s, op)) ensures x in Pending(s, op) {
      UnderRootsIntro(s.roots, OldPath(s, op), PathOf(t, x));
    }
  }

  /** A root moved into another monitored tree: the entries are zapped with the old
      root, and nothing caches them under the new one. */
  lemma LostRoot(s: Monitor, op: Op, order: seq<DirId>)
    requires Scene(s, op, order) && Watched(s, op.target) && IsRoot(s.roots, OldPath(s, op))
    requires !Watched(s, s.k.tree[op.dir].parent)
    ensures WfKernel(AfterOp(s, op, order).k) && NoMovedFrom(OpEvents(s.k, op))
    ensures var s' := RunSingles(AfterOp(s, op, order), OpEvents(s.k, op)); !s'.exited && !Exact(s')
  {
    hide Wf, PathOf, Leaf, Desc, Entries, WfTable, IsUnder, UnderRoots, Snapshot, SelfMoves, Process, WatchSubtree,
         RootsExist, RootsNamed, Synced, Exact, Renamed, KernelEvent, IsMovedFrom, Extend, Subtree, OpEvents,
         ReplacedEvents;
    SceneParts(s, op, order);
    RootIsWatched(s, op, order);
    RootArrivalKnown(s, op, order);
    var s2, view2 := MovedToStep(s, op, order);
    LostAfterSelfMove(s, op, order, s2);
    var self := OtherEvents(s, op, order);
    ToEventIsKernel(s, op, order);
    RunSinglesCons(AfterOp(s, op, order), ToEvent(s, op), self + ReplacedEvents(s.k, op.target, op.name), s2);
  }

  lemma LostAfterSelfMove(s: Monitor, op: Op, order: seq<DirId>, s2: Monitor)
    requires Scene(s, op, order) && Watched(s, op.target) && IsRoot(s.roots, OldPath(s, op)) && !s2.exited
    requires Mirrors(s2, Pending(s, op), StaleAfter(s, Snapshot(s.roots, s.k.tree), op))
    requires s2.k.tree == TreeAfter(s.k.tree, op) && s2.roots == s.roots
    requires op.dir in s2.k.watch && op.dir in s.k.watch && s2.k.watch[op.dir] == s.k.watch[op.dir]
    ensures var self := [Event(s.k.watch[op.dir], {MOVE_SELF}, 0, "")];
            var tail := ReplacedEvents(s.k, op.target, op.name);
            && NoMovedFrom(self) && NoMovedFrom(tail) && NoMovedFrom(self + tail)
            && !RunSingles(s2, self + tail).exited && !Exact(RunSingles(s2, self + tail))
  {
    hide Wf, PathOf, Leaf, Desc, Entries, WfTable, IsUnder, UnderRoots, Snapshot, SelfMoves, Process, ZapRoot, Zap,
         Without, RootsExist, RootsNamed, Synced, Exact, Renamed, KernelEvent, IsMovedFrom, ReplacedEvents;
    SceneParts(s, op, order);
    SceneStart(s, op, order);
    RenameEvents(s, op, order);
    RootIsWatched(s, op, order);
    ArrivalIsDue(s, op, order, s.roots);
    UnderReflexive(OldPath(s, op));
    var stale := StaleAfter(s, Snapshot(s.roots, s.k.tree), op);
    HandleSelfMove(s2, Pending(s, op), stale, op.dir);
    var s3 := Zap(ZapRoot(s2, OldPath(s, op)), OldPath(s, op));
    GoneBelow(s, op, order);
    NeverCached(s, op, order, s3, Without(Pending(s, op), OldPath(s, op)));
    RunSinglesCons(s2, Event(s.k.watch[op.dir], {MOVE_SELF}, 0, ""), ReplacedEvents(s.k, op.target, op.name), s3);
  }

  /** A root whose ancestor moved stays cached under the pathname it used to have. */
  lemma StaleRoot(s: Monitor, op: Op, order: seq<DirId>, r: string, s2: Monitor, view: View, x: DirId)
    requires Scene(s, op, order) && !s2.exited
    requires IsRoot(s.roots, r) && IsUnder(OldPath(s, op), r) && x in s.k.tree && PathOf(s.k.tree, x) == r
    requires Mirrors(s2, view, StaleAfter(s, Snapshot(s.roots, s.k.tree), op)) && x in view && view[x] == r
    requires s2.k.tree == TreeAfter(s.k.tree, op) && s2.roots == s.roots
    ensures var evs := ReplacedEvents(s.k, op.target, op.name);
            NoMovedFrom(evs) && !RunSingles(s2, evs).exited && !Exact(RunSingles(s2, evs))
  {
    hide Wf, PathOf, Leaf, Desc, Entries, WfTable, UnderRoots, SelfMoves, RootsExist, RootsNamed, Process;
    SceneParts(s, op, order);
    SceneTail(s, op, order);
    SceneStart(s, op, order);
    var from, to := OldPath(s, op), NewPath(s, op);
    var evs := ReplacedEvents(s.k, op.target, op.name);
    HandleReplaced(s2, view, StaleAfter(s, Snapshot(s.roots, s.k.tree), op), evs, to);
    var s' := RunSingles(s2, evs);
    RewriteRoundTrip(from, to, r);
    assert x in s2.k.tree && PathOf(s2.k.tree, x) != r;
    assert r != to;
    if Exact(s') {
      MirrorsUnique(s', view, Snapshot(s'.roots, s'.k.tree));
    }
  }

  lemma RootBelowIsPending(s: Monitor, op: Op, order: seq<DirId>, r: string) returns (x: DirId)
    requires Scene(s, op, order) && IsRoot(s.roots, r) && IsUnder(OldPath(s, op), r)
    ensures x in s.k.tree && PathOf(s.k.tree, x) == r && x in Pending(s, op) && Pending(s, op)[x] == r
  {
    hide Wf, PathOf, Leaf, Desc, Entries, WfTable, UnderRoots, SelfMoves, RootsNamed;
    RenamePaths(s.k.tree, op.dir, op.target, op.name);
    x :| x in s.k.tree && PathOf(s.k.tree, x) == r;
    UnderReflexive(r);
    UnderRootsIntro(s.roots, r, r);
  }

  lemma LostBelowAncestor(s: Monitor, op: Op, order: seq<DirId>)
    requires Scene(s, op, order) && AboveRoot(s, op) && !Watched(s, op.dir)
    ensures WfKernel(AfterOp(s, op, order).k) && NoMovedFrom(OpEvents(s.k, op))
    ensures var s' := RunSingles(AfterOp(s, op, order), OpEvents(s.k, op)); !s'.exited && !Exact(s')
  {
    hide Wf, PathOf, Leaf, Desc, Entries, WfTable, IsUnder, UnderRoots, Snapshot, SelfMoves, Process, WatchSubtree,
         RootsExist, RootsNamed, Synced, Exact, Renamed, KernelEvent, IsMovedFrom, Subtree, OpEvents, ReplacedEvents;
    var s1 := AfterOp(s, op, order);
    SceneParts(s, op, order);
    SceneStart(s, op, order);
    UnwatchedEvents(s, op, order);
    var r :| IsRoot(s.roots, r) && IsUnder(OldPath(s, op), r) && r != OldPath(s, op);
    var x := RootBelowIsPending(s, op, order, r);
    if Watched(s, op.target) {
      LostAncestorArrival(s, op, order, r, x);
    } else {
      StaleRoot(s, op, order, r, s1, Pending(s, op), x);
    }
  }

  lemma LostAncestorArrival(s: Monitor, op: Op, order: seq<DirId>, r: string, x: DirId)
    requires Scene(s, op, order) && Watched(s, op.target) && !Watched(s, op.dir)
    requires IsRoot(s.roots, r) && IsUnder(OldPath(s, op), r)
    requires x in s.k.tree && PathOf(s.k.tree, x) == r && x in Pending(s, op) && Pending(s, op)[x] == r
    ensures WfKernel(AfterOp(s, op, order).k) && NoMovedFrom(OpEvents(s.k, op))
    ensures var s' := RunSingles(AfterOp(s, op, order), OpEvents(s.k, op)); !s'.exited && !Exact(s')
  {
    hide Wf, PathOf, Leaf, Desc, Entries, WfTable, IsUnder, UnderRoots, Snapshot, SelfMoves, Process, WatchSubtree,
         RootsExist, RootsNamed, Synced, Exact, Renamed, KernelEvent, IsMovedFrom, Subtree, OpEvents, ReplacedEvents;
    SceneParts(s, op, order);
    UnwatchedEvents(s, op, order);
    var s2, view2 := MovedToStep(s, op, order);
    StaleRoot(s, op, order, r, s2, view2, x);
    RunSinglesCons(AfterOp(s, op, order), ToEvent(s, op), ReplacedEvents(s.k, op.target, op.name), s2);
  }

  lemma RenameIsLost(s: Monitor, op: Op, order: seq<DirId>, chunks: seq<seq<Event>>)
    requires Scene(s, op, order) && !CanFollow(s, op, chunks)
    requires AllReads(chunks) && Flatten(chunks) == OpEvents(s.k, op)
    ensures WfKernel(AfterOp(s, op, order).k)
    ensures var s' := Serve(AfterOp(s, op, order), chunks); !s'.exited && !Exact(s')
  {
    hide Wf, PathOf, Leaf, Desc, Entries, WfTable, IsUnder, UnderRoots, Snapshot, SelfMoves, RootsExist, RootsNamed,
         Synced, Exact, Serve, Flatten, AboveRoot, RunSingles, Replaces, Torn;
    SceneParts(s, op, order);
    if Watched(s, s.k.tree[op.dir].parent) {
      LostWhenTorn(s, op, order, chunks);
    } else {
      if IsRoot(s.roots, OldPath(s, op)) {
        LostRoot(s, op, order);
      } else {
        if Watched(s, op.dir) {
          WatchedParent(s, op.dir);
        }
        if AboveRoot(s, op) {
          LostBelowAncestor(s, op, order);
        } else {
          LostWhenReplacing(s, op, order);
        }
      }
      ServeFlat(AfterOp(s, op, order), chunks);
    }
  }

  // ----- Every operation, and whole runs ------------------------------------

  /** For every mkdir, rmdir and rename, every way the reads split its events, and any
      roots: once the events are handled, the monitor has left because no root remains, or
      its cache equals the monitored trees exactly if the operation can be followed. If
      moreover the operation leaves no root without a directory, the state is again one
      from which operations are followed. */
  lemma OneOperation(s: Monitor, op: Op, order: seq<DirId>, chunks: seq<seq<Event>>)
    requires Synced(s) && !s.exited && ValidOp(s.k.tree, op) && Lists(order, TreeAfter(s.k.tree, op))
    requires AllReads(chunks) && Flatten(chunks) == OpEvents(s.k, op)
    ensures WfKernel(AfterOp(s, op, order).k)
    ensures var s' := Serve(AfterOp(s, op, order), chunks);
            if s'.exited then CanFollow(s, op, chunks) && forall r :: !IsRoot(s'.roots, r)
            else if CanFollow(s, op, chunks) then Exact(s') && (KeepsRoots(s, op) ==> Synced(s')) else !Exact(s')
  {
    hide Wf, PathOf, Leaf, Desc, Entries, WfTable, IsUnder, UnderRoots, Snapshot, SelfMoves, RootsExist, RootsNamed,
         Synced, Exact, Serve, Flatten, AboveRoot, RunSingles, Replaces, Torn;
    assert WfKernel(s.k) by { SyncedIsExact(s); }
    match op
    case Mkdir(p, n, d) =>
      MkdirSynced(s, p, n, d, order);
      ServeFlat(AfterOp(s, op, order), chunks);
      SyncedIsExact(Serve(AfterOp(s, op, order), chunks));
    case Rmdir(d) =>
      RmdirSynced(s, d, order);
      ServeFlat(AfterOp(s, op, order), chunks);
      if !Serve(AfterOp(s, op, order), chunks).exited {
        SyncedIsExact(Serve(AfterOp(s, op, order), chunks));
      }
    case Rename(_, _, _) =>
      if CanFollow(s, op, chunks) {
        RenameIsFollowed(s, op, order, chunks);
      } else {
        RenameIsLost(s, op, order, chunks);
      }
  }

  /** The monitored trees are disjoint. */
  ghost predicate RootsApart(roots: Roots) {
    forall r, r' :: IsRoot(roots, r) && IsRoot(roots, r') && IsUnder(r, r') ==> r == r'
  }

  /** With disjoint trees, whatever can be followed keeps the roots. */
  lemma DisjointKeepsRoots(s: Monitor, op: Op, chunks: seq<seq<Event>>)
    requires Synced(s) && RootsApart(s.roots) && ValidOp(s.k.tree, op) && CanFollow(s, op, chunks)
    ensures KeepsRoots(s, op)
  {
    hide Wf, PathOf, Leaf, Desc, Entries, WfTable, UnderRoots, Snapshot, SelfMoves, IsUnder, Torn;
    if op.Rename? && Watched(s, s.k.tree[op.dir].parent) {
      var from := OldPath(s, op);
      PathOfChild(s.k.tree, op.dir);
      var r := RootAboveChild(s, s.k.tree[op.dir].parent, s.k.tree[op.dir].name);
      forall r' | IsRoot(s.roots, r') ensures !IsUnder(from, r') {
        if IsUnder(from, r') {
          UnderTransitive(r, from, r');
          UnderAntisymmetric(r, from);
        }
      }
    }
  }

  lemma SyncedIsExact(s: Monitor)
    requires Synced(s)
    ensures WfKernel(s.k) && Exact(s)
  {
  }

  /** An operation, the walk order it leaves, and the reads that fetch its events. */
  datatype Move = Move(op: Op, order: seq<DirId>, chunks: seq<seq<Event>>)

  ghost predicate Allowed(s: Monitor, m: Move) {
    && WfKernel(s.k) && ValidOp(s.k.tree, m.op) && Lists(m.order, TreeAfter(s.k.tree, m.op))
    && AllReads(m.chunks) && Flatten(m.chunks) == OpEvents(s.k, m.op)
    && WfKernel(AfterOp(s, m.op, m.order).k)
  }

  ghost function After(s: Monitor, m: Move): Monitor
    requires Allowed(s, m)
  {
    Serve(AfterOp(s, m.op, m.order), m.chunks)
  }

  /** `run` holds the state before and after each of the moves. */
  ghost predicate IsRun(run: seq<Monitor>, moves: seq<Move>) {
    && |run| == |moves| + 1
    && forall i :: 0 <= i < |moves| ==>
         && !run[i].exited && Allowed(run[i], moves[i])
         && CanFollow(run[i], moves[i].op, moves[i].chunks)
         && run[i + 1] == After(run[i], moves[i])
  }

  lemma {:induction false} StaysSynced(s: Monitor, run: seq<Monitor>, moves: seq<Move>, i: nat)
    requires WfKernel(s.k) && RootsExist(s.roots, s.k.tree) && !s.exited
    requires IsRun(run, moves) && run[0] == Rebuild(s) && i < |run|
    requires forall j :: 0 <= j < i ==> KeepsRoots(run[j], moves[j].op)
    ensures run[i].exited || Synced(run[i])
    decreases i
  {
    hide Wf, PathOf, Leaf, Desc, Entries, WfTable, IsUnder, UnderRoots, Snapshot, SelfMoves, RootsNamed, Serve,
         Flatten, AboveRoot, Replaces, Torn, CanFollow, KeepsRoots, Rebuild, ValidOp;
    if i == 0 {
      RebuildIsExact(s);
      RootsExistNamed(s.roots, s.k.tree);
    } else {
      StaysSynced(s, run, moves, i - 1);
      var m := moves[i - 1];
      OneOperation(run[i - 1], m.op, m.order, m.chunks);
    }
  }

  /** From the initial build on, through every run of operations that can be followed, the
      cache equals the monitored trees after each of them, as long as none before it left
      a root without a directory. With disjoint roots none does. */
  lemma WholeRun(s: Monitor, run: seq<Monitor>, moves: seq<Move>, i: nat)
    requires WfKernel(s.k) && RootsExist(s.roots, s.k.tree) && !s.exited
    requires IsRun(run, moves) && run[0] == Rebuild(s) && i < |run|
    requires forall j :: 0 <= j < i - 1 ==> KeepsRoots(run[j], moves[j].op)
    ensures run[i].exited || Exact(run[i])
  {
    hide Wf, PathOf, Leaf, Desc, Entries, WfTable, IsUnder, UnderRoots, Snapshot, SelfMoves, RootsNamed, Serve,
         Flatten, AboveRoot, Replaces, Torn, CanFollow, KeepsRoots, Rebuild, ValidOp, Synced, Exact, RootsExist;
    if i == 0 {
      RebuildIsExact(s);
    } else {
      StaysSynced(s, run, moves, i - 1);
      var m := moves[i - 1];
      OneOperation(run[i - 1], m.op, m.order, m.chunks);
    }
  }

  ghost predicate Fewer(roots': Roots, roots: Roots) {
    forall r :: IsRoot(roots', r) ==> IsRoot(roots, r)
  }

  lemma ProcessFewer(s: Monitor, evs: seq<Event>, firstTry: bool)
    requires WfKernel(s.k) && evs != [] && KernelEvent(evs[0])
    ensures var o := Process(s, evs, firstTry); !o.Hanging? ==> Fewer(o.s.roots, s.roots)
  {
    hide WfKernel, WatchRoots, WatchSubtree, CanZap, Zap, InCache;
    RebuildIsExact(s);
    var wd := evs[0].wd;
    if wd in s.cache {
      ZapRootRoots(s, s.cache[wd]);
      RebuildIsExact(ZapRoot(s, s.cache[wd]));
    }
  }

  lemma {:induction false} LoopFewer(s: Monitor, buf: seq<Event>, chunks: seq<seq<Event>>, firstTry: bool)
    requires WfKernel(s.k) && AllKernel(buf) && AllReads(chunks)
    ensures Fewer(Loop(s, buf, chunks, firstTry).s.roots, s.roots)
    decreases |buf| + TotalLen(chunks), |chunks|, firstTry
  {
    hide WfKernel, Process, KernelEvent;
    if buf != [] && !s.exited {
      ProcessFewer(s, buf, firstTry);
      match Process(s, buf, firstTry)
      case Consumed(s', n) => LoopFewer(s', buf[n..], chunks, true);
      case Rebuilt(_) =>
      case Hanging =>
        if chunks == [] {
          LoopFewer(s, buf, [], false);
        } else {
          LoopFewer(s, buf + chunks[0], chunks[1..], false);
        }
    }
  }

  /** No event adds a root. */
  lemma {:induction false} ServeFewer(s: Monitor, chunks: seq<seq<Event>>)
    requires WfKernel(s.k) && AllReads(chunks)
    ensures Fewer(Serve(s, chunks).roots, s.roots)
    decreases |chunks|
  {
    hide WfKernel, Process, KernelEvent, Loop;
    if chunks != [] && !s.exited {
      assert AllKernel(chunks[0]) && AllReads(chunks[1..]);
      LoopFewer(s, chunks[0], chunks[1..], true);
      var e := Loop(s, chunks[0], chunks[1..], true);
      if !e.rebuilt {
        ServeFewer(e.s, e.chunks);
      }
    }
  }

  /** With disjoint roots, every run of operations that can be followed keeps the cache equal
      to the monitored trees throughout. */
  lemma {:induction false} DisjointRun(s: Monitor, run: seq<Monitor>, moves: seq<Move>, i: nat)
    requires WfKernel(s.k) && RootsExist(s.roots, s.k.tree) && !s.exited && RootsApart(s.roots)
    requires IsRun(run, moves) && run[0] == Rebuild(s) && i < |run|
    ensures RootsApart(run[i].roots) && (run[i].exited || Synced(run[i]))
    decreases i
  {
    hide Wf, PathOf, Leaf, Desc, Entries, WfTable, IsUnder, UnderRoots, Snapshot, SelfMoves, RootsNamed, Serve,
         Flatten, AboveRoot, Replaces, Torn, CanFollow, KeepsRoots, Rebuild, ValidOp;
    if i == 0 {
      RebuildIsExact(s);
      RootsExistNamed(s.roots, s.k.tree);
    } else {
      DisjointRun(s, run, moves, i - 1);
      var m := moves[i - 1];
      OneOperation(run[i - 1], m.op, m.order, m.chunks);
      DisjointKeepsRoots(run[i - 1], m.op, m.chunks);
      ServeFewer(AfterOp(run[i - 1], m.op, m.order), m.chunks);
    }
  }

  // ----- Renames that are lost ----------------------------------------------

  /** The directories /a, /b, /a/e, /o, /p, /p/r and /a/f; /a, /b and /p/r are monitored. */
  ghost function SampleTree(): Tree {
    map[1 := Link(TOP, "a"), 2 := Link(TOP, "b"), 3 := Link(1, "e"), 4 := Link(TOP, "o"), 5 := Link(TOP, "p"),
        6 := Link(5, "r"), 7 := Link(1, "f")]
  }

  ghost function SampleKernel(): Kernel {
    Kernel(SampleTree(), [1, 2, 3, 4, 5, 6, 7], map[], map[], {}, 1)
  }

  lemma SampleKernelWf()
    ensures WfKernel(SampleKernel())
  {
    hide Wf, PathOf;
    SamplePaths();
  }

  ghost function Sample(): (s: Monitor)
    ensures WfKernel(s.k)
  {
    SampleKernelWf();
    Monitor(map[], [Some("/a"), Some("/b"), Some("/p/r")], SampleKernel(), false)
  }

  lemma EmptyIsWf()
    ensures Wf(map[])
  {
    assert Ranked(map[], map[0 := 0]);
  }

  ghost function SmallTree(): Tree {
    map[1 := Link(TOP, "a"), 2 := Link(TOP, "b"), 3 := Link(1, "e"), 4 := Link(TOP, "o")]
  }

  lemma SmallPaths()
    ensures var t := SmallTree();
            && Wf(t) && PathOf(t, TOP) == "" && PathOf(t, 1) == "/a" && PathOf(t, 2) == "/b" && PathOf(t, 3) == "/a/e"
            && PathOf(t, 4) == "/o"
  {
    hide Wf, PathOf, Leaf;
    EmptyIsWf();
    var t0: Tree := map[];
    var t1 := t0[1 := Link(TOP, "a")];
    var t2 := t1[2 := Link(TOP, "b")];
    var t3 := t2[3 := Link(1, "e")];
    TopPath(t0);
    MkdirPaths(t0, TOP, "a", 1);
    MkdirPaths(t1, TOP, "b", 2);
    MkdirPaths(t2, 1, "e", 3);
    MkdirPaths(t3, TOP, "o", 4);
    assert t3[4 := Link(TOP, "o")] == SmallTree();
  }

  lemma SamplePaths()
    ensures var t := SampleTree();
            && Wf(t) && PathOf(t, 1) == "/a" && PathOf(t, 2) == "/b" && PathOf(t, 3) == "/a/e" && PathOf(t, 4) == "/o"
            && PathOf(t, 5) == "/p" && PathOf(t, 6) == "/p/r" && PathOf(t, 7) == "/a/f"
  {
    hide Wf, PathOf, Leaf;
    SmallPaths();
    var t4 := SmallTree();
    var t5 := t4[5 := Link(TOP, "p")];
    var t6 := t5[6 := Link(5, "r")];
    MkdirPaths(t4, TOP, "p", 5);
    MkdirPaths(t5, 5, "r", 6);
    MkdirPaths(t6, 1, "f", 7);
    assert t6[7 := Link(1, "f")] == SampleTree();
  }

  lemma TopPath(t: Tree)
    requires Wf(t)
    ensures PathOf(t, TOP) == ""
  {
  }

  lemma DiffersAt(p: string, q: string, i: nat)
    requires i < |p| && i < |q| && p[i] != q[i]
    ensures !IsUnder(p, q) && !IsUnder(q, p)
  {
    if |p| <= |q| {
      assert q[..|p|][i] == q[i];
    }
    if |q| <= |p| {
      assert p[..|q|][i] == p[i];
    }
  }

  lemma SampleSynced()
    ensures var s := Rebuild(Sample());
            Synced(s) && !s.exited && s.k.tree == SampleTree() && s.roots == Sample().roots
  {
    hide Wf, PathOf, Rebuild, Entries, SelfMoves, Snapshot;
    var s0 := Sample();
    var t := SampleTree();
    SamplePaths();
    RebuildIsExact(s0);
    assert forall r :: IsRoot(s0.roots, r) <==> r == "/a" || r == "/b" || r == "/p/r";
    assert Names(t, "/a") && Names(t, "/b") && Names(t, "/p/r");
  }

  /** One directory on top of another in a monitored tree. */
  const SAMPLE_PAIR := Rename(7, 1, "e")

  /** A root moved into another tree; a directory from outside on top of a cached one; a
      directory above a root; and a rename onto a cached directory. */
  ghost predicate IsSampleOp(op: Op) {
    op == Rename(2, 1, "x") || op == Rename(4, 1, "e") || op == Rename(5, TOP, "z") || op == SAMPLE_PAIR
  }

  lemma SampleOpValid(op: Op)
    requires IsSampleOp(op)
    ensures Wf(SampleTree()) && ValidOp(SampleTree(), op)
  {
    hide Wf, PathOf, Desc;
    var t := SampleTree();
    SamplePaths();
    TopPath(t);
    UnderIsDesc(t, op.dir, op.target);
    DiffersAt("/b", "/a", 1);
    DiffersAt("/o", "/a", 1);
    assert |"/a"| < |"/a/f"|;
    assert forall o :: IsChild(t, op.target, op.name, o) ==> o == 3;
  }

  lemma SampleWatched()
    ensures var s := Rebuild(Sample()); WfKernel(s.k) && Watched(s, 1) && !Watched(s, TOP)
  {
    hide Wf, PathOf, Desc, Entries, WfTable, SelfMoves, Rebuild, RootsExist, RootsNamed;
    SampleSynced();
    SamplePaths();
    var s := Rebuild(Sample());
    assert s.roots[0] == Some("/a");
    UnderRootsIntro(s.roots, "/a", "/a");
    assert 1 in s.k.tree && TOP !in s.k.tree;
  }

  lemma SampleOpLost(op: Op, chunks: seq<seq<Event>>)
    requires IsSampleOp(op) && (op == SAMPLE_PAIR ==> Torn(chunks))
    ensures var s := Rebuild(Sample());
            WfKernel(s.k) && ValidOp(s.k.tree, op) && !CanFollow(s, op, chunks)
  {
    hide Wf, PathOf, Desc, Entries, WfTable, SelfMoves, Rebuild, RootsExist, RootsNamed, Snapshot, Watched, Torn,
         Vacant, Leaf;
    SampleSynced();
    SampleOpValid(op);
    SamplePaths();
    SampleWatched();
    var s := Rebuild(Sample());
    if op == Rename(2, 1, "x") {
      assert s.roots[1] == Some("/b") && OldPath(s, op) == "/b";
    } else if op == Rename(4, 1, "e") {
      assert s.k.tree[3] == Link(1, "e") && 3 in Replaced(s.k.tree, 1, "e");
      assert s.k.tree[4].parent == TOP;
    } else if op == SAMPLE_PAIR {
      assert s.k.tree[3] == Link(1, "e") && 3 in Replaced(s.k.tree, 1, "e");
    } else {
      assert s.roots[2] == Some("/p/r") && OldPath(s, op) == "/p" && IsUnder(OldPath(s, op), "/p/r");
      assert AboveRoot(s, op);
    }
  }

  lemma RenameEventsAreKernel(s: Monitor, op: Op, order: seq<DirId>)
    requires Scene(s, op, order)
    ensures AllKernel(OpEvents(s.k, op))
    ensures Watched(s, s.k.tree[op.dir].parent) ==> OpEvents(s.k, op) != []
  {
    hide Wf, PathOf, Leaf, Desc, Entries, WfTable, IsUnder, UnderRoots, Snapshot, SelfMoves, RootsExist, RootsNamed,
         Synced, Scene, OpEvents, KernelEvent, Watched;
    SceneParts(s, op, order);
    RenameEvents(s, op, order);
    if Watched(s, s.k.tree[op.dir].parent) {
      FromEventIsKernel(s, op, order);
    }
  }

  /** All events in one read, or the first alone and nothing in the read after it. */
  ghost function ReadsOf(evs: seq<Event>, torn: bool): seq<seq<Event>> {
    if torn && evs != [] then [evs[..1], [], evs[1..]] else [evs]
  }

  lemma ReadsOfAll(evs: seq<Event>, torn: bool)
    requires AllKernel(evs)
    ensures AllReads(ReadsOf(evs, torn)) && Flatten(ReadsOf(evs, torn)) == evs
    ensures torn && evs != [] ==> Torn(ReadsOf(evs, torn))
  {
    hide KernelEvent;
    var chunks := ReadsOf(evs, torn);
    if torn && evs != [] {
      assert chunks[1..] == [[], evs[1..]] && chunks[1..][1..] == [evs[1..]] && chunks[1..][1..][1..] == [];
      assert Flatten(chunks[1..][1..]) == evs[1..] + [];
      assert evs == evs[..1] + evs[1..];
    } else {
      assert chunks[1..] == [] && evs + [] == evs;
    }
  }

  lemma SampleOrder(op: Op) returns (order: seq<DirId>)
    requires IsSampleOp(op)
    ensures Lists(order, TreeAfter(SampleTree(), op))
  {
    order := if op.name == "e" then [1, 2, 4, 5, 6, 7] else [1, 2, 3, 4, 5, 6, 7];
  }

  /** In the sample, four renames leave the cache different from the monitored trees: three
      with their events in one read, and one onto a cached directory with its two events torn
      apart. */
  lemma LostRenames(op: Op) returns (order: seq<DirId>, chunks: seq<seq<Event>>)
    requires IsSampleOp(op)
    ensures var s := Rebuild(Sample());
            && Synced(s) && ValidOp(s.k.tree, op) && Lists(order, TreeAfter(s.k.tree, op))
            && chunks == ReadsOf(OpEvents(s.k, op), op == SAMPLE_PAIR)
            && AllReads(chunks) && Flatten(chunks) == OpEvents(s.k, op)
            && WfKernel(AfterOp(s, op, order).k)
            && var s' := Serve(AfterOp(s, op, order), chunks); !s'.exited && !Exact(s')
  {
    hide Wf, PathOf, Leaf, Desc, Entries, WfTable, IsUnder, UnderRoots, Snapshot, SelfMoves, RootsExist, RootsNamed,
         Serve, Flatten, Rebuild, SampleTree, Sample, ValidOp, CanFollow, OpEvents, Torn, AllReads, TreeAfter, ReadsOf,
         Watched;
    var s := Rebuild(Sample());
    var torn := op == SAMPLE_PAIR;
    SampleSynced();
    SampleOpIsOp(op);
    order := SampleOrder(op);
    assert Scene(s, op, order);
    RenameEventsAreKernel(s, op, order);
    chunks := ReadsOf(OpEvents(s.k, op), torn);
    ReadsOfAll(OpEvents(s.k, op), torn);
    SampleOpLost(op, chunks);
    OneOperation(s, op, order, chunks);
  }

  lemma SampleOpIsOp(op: Op)
    requires IsSampleOp(op)
    ensures var s := Rebuild(Sample());
            && WfKernel(s.k) && ValidOp(s.k.tree, op) && op.dir in s.k.tree
            && (op == SAMPLE_PAIR ==> Watched(s, s.k.tree[op.dir].parent))
  {
    hide Wf, PathOf, Desc, Rebuild, Watched, Snapshot;
    SampleSynced();
    SampleOpValid(op);
    SampleWatched();
  }
}
