/** The monitor as the program keeps it: a growing table of slots that is searched
    from the front, the list of root pathnames, and a read buffer. */
module DirectoryMonitor {
  import opened Pathnames
  import opened DirTree
  import opened Inotify
  import opened MonitorModel
  import opened Options

  /** A cache slot; `wd` is -1 while the slot is unused. */
  datatype Slot = Slot(wd: int, path: string)

  const EMPTY := Slot(-1, "")
  const ALLOC_INCR: nat := 200

  /** A pathname argument, which may be the one stored in a cache slot. */
  datatype PathRef = Given(text: string) | InSlot(slot: nat)

  /** Used slots have distinct descriptors and hold the cache; unused ones are blank. */
  ghost predicate Holds(slots: seq<Slot>, cache: map<int, string>) {
    && (forall j :: 0 <= j < |slots| ==> slots[j] == EMPTY || 0 <= slots[j].wd)
    && (forall i, j :: 0 <= i < j < |slots| && slots[i].wd == slots[j].wd ==> slots[i] == EMPTY)
    && (forall j :: 0 <= j < |slots| && slots[j] != EMPTY ==>
          slots[j].wd in cache && cache[slots[j].wd] == slots[j].path)
    && (forall wd :: wd in cache ==> exists j :: 0 <= j < |slots| && slots[j].wd == wd)
    && (forall wd :: wd in cache ==> 0 <= wd)
  }

  lemma HoldsEmpty(slots: seq<Slot>, cache: map<int, string>, j: nat)
    requires Holds(slots, cache) && j < |slots| && slots[j] != EMPTY
    ensures Holds(slots[j := EMPTY], cache - {slots[j].wd})
  {
    var slots' := slots[j := EMPTY];
    var cache' := cache - {slots[j].wd};
    forall wd | wd in cache' ensures exists i :: 0 <= i < |slots'| && slots'[i].wd == wd {
      var i :| 0 <= i < |slots| && slots[i].wd == wd;
      assert slots'[i].wd == wd;
    }
  }

  lemma HoldsFill(slots: seq<Slot>, cache: map<int, string>, j: nat, wd: int, p: string)
    requires Holds(slots, cache) && j < |slots| && slots[j] == EMPTY && 0 <= wd && wd !in cache
    ensures Holds(slots[j := Slot(wd, p)], cache[wd := p])
  {
    var slots' := slots[j := Slot(wd, p)];
    var cache' := cache[wd := p];
    forall w | w in cache' ensures exists i :: 0 <= i < |slots'| && slots'[i].wd == w {
      if w == wd {
        assert slots'[j].wd == w;
      } else {
        var i :| 0 <= i < |slots| && slots[i].wd == w;
        assert slots'[i].wd == w;
      }
    }
  }

  lemma HoldsGrow(slots: seq<Slot>, cache: map<int, string>, more: seq<Slot>)
    requires Holds(slots, cache) && forall j :: 0 <= j < |more| ==> more[j] == EMPTY
    ensures Holds(slots + more, cache)
  {
    forall wd | wd in cache ensures exists i :: 0 <= i < |slots + more| && (slots + more)[i].wd == wd {
      var i :| 0 <= i < |slots| && slots[i].wd == wd;
      assert (slots + more)[i].wd == wd;
    }
  }

  lemma HoldsRewrite(slots: seq<Slot>, slots': seq<Slot>, cache: map<int, string>, from: string, to: string)
    requires Holds(slots, cache) && |slots'| == |slots| && from != ""
    requires forall j :: 0 <= j < |slots| ==> slots'[j] == Slot(slots[j].wd, Rewrite(from, to, slots[j].path))
    ensures Holds(slots', RewriteCache(cache, from, to))
  {
    forall wd | wd in cache ensures exists i :: 0 <= i < |slots'| && slots'[i].wd == wd {
      var i :| 0 <= i < |slots| && slots[i].wd == wd;
      assert slots'[i].wd == wd;
    }
  }

  class Monitored {
    var wlCache: seq<Slot>
    var rootDirPaths: seq<Option<string>>
    var ignoreRootDirs: nat
    var kernel: Kernel
    var exited: bool
    ghost var cache: map<int, string>

    ghost predicate Valid()
      reads this
    {
      && WfKernel(kernel)
      && Holds(wlCache, cache)
      && DistinctRoots(rootDirPaths)
      && ignoreRootDirs == Forgotten(rootDirPaths)
    }

    ghost function State(): Monitor
      reads this
    {
      Monitor(cache, rootDirPaths, kernel, exited)
    }

    /** The program before its first walk. */
    constructor (kernel: Kernel, paths: seq<string>)
      requires WfKernel(kernel) && forall i, j :: 0 <= i < j < |paths| ==> paths[i] != paths[j]
      ensures Valid() && !exited && this.kernel == kernel && rootDirPaths == AllSome(paths) && cache == map[]
    {
      this.kernel := kernel;
      rootDirPaths := AllSome(paths);
      ignoreRootDirs := 0;
      wlCache := [];
      cache := map[];
      exited := false;
      NoneForgotten(AllSome(paths));
    }

    method FindWatch(wd: int) returns (slot: int)
      ensures -1 <= slot < |wlCache|
      ensures 0 <= slot ==> wlCache[slot].wd == wd
      ensures forall j :: 0 <= j < (if slot == -1 then |wlCache| else slot) ==> wlCache[j].wd != wd
      ensures Holds(wlCache, cache) && 0 <= wd ==>
                (slot == -1 <==> wd !in cache) && (0 <= slot ==> wlCache[slot].path == cache[wd])
    {
      for j := 0 to |wlCache|
        invariant forall i :: 0 <= i < j ==> wlCache[i].wd != wd
      {
        if wlCache[j].wd == wd {
          return j;
        }
      }
      return -1;
    }

    method FindEmptyCacheSlot() returns (slot: nat)
      requires Valid()
      modifies this`wlCache
      ensures Valid() && slot < |wlCache| && wlCache[slot] == Slot(-1, "")
      ensures forall j :: 0 <= j < slot ==> wlCache[j] != EMPTY
      ensures |old(wlCache)| <= |wlCache| && wlCache[..|old(wlCache)|] == old(wlCache)
      ensures if slot < |old(wlCache)| then wlCache == old(wlCache)
              else slot == |old(wlCache)| && |wlCache| == slot + 200 &&
                   forall j :: slot <= j < |wlCache| ==> wlCache[j] == EMPTY
    {
      for j := 0 to |wlCache|
        invariant wlCache == old(wlCache)
        invariant forall i :: 0 <= i < j ==> wlCache[i] != EMPTY
      {
        if wlCache[j].wd == -1 {
          return j;
        }
      }
      slot := |wlCache|;
      var more := seq(ALLOC_INCR, _ => EMPTY);
      HoldsGrow(wlCache, cache, more);
      wlCache := wlCache + more;
    }

    method AddWatchToCache(wd: int, pathname: string) returns (slot: nat)
      requires Valid() && 0 <= wd && wd !in cache
      modifies this`wlCache, this`cache
      ensures Valid() && cache == old(cache)[wd := pathname]
      ensures slot < |wlCache| && wlCache[slot] == Slot(wd, pathname)
    {
      slot := FindEmptyCacheSlot();
      HoldsFill(wlCache, cache, slot, wd, pathname);
      wlCache := wlCache[slot := Slot(wd, pathname)];
      cache := cache[wd := pathname];
    }

    method MarkCacheSlotEmpty(slot: nat)
      requires Valid() && slot < |wlCache| && wlCache[slot] != EMPTY
      modifies this`wlCache, this`cache
      ensures Valid() && wlCache == old(wlCache)[slot := EMPTY] && cache == old(cache) - {old(wlCache[slot].wd)}
    {
      HoldsEmpty(wlCache, cache, slot);
      cache := cache - {wlCache[slot].wd};
      wlCache := wlCache[slot := EMPTY];
    }

    method PathnameInCache(pathname: string) returns (found: bool)
      requires Holds(wlCache, cache)
      ensures found <==> InCache(cache, pathname)
    {
      for j := 0 to |wlCache|
        invariant forall i :: 0 <= i < j && 0 <= wlCache[i].wd ==> wlCache[i].path != pathname
      {
        if wlCache[j].wd >= 0 && wlCache[j].path == pathname {
          return true;
        }
      }
      forall wd | wd in cache ensures cache[wd] != pathname {
        var j :| 0 <= j < |wlCache| && wlCache[j].wd == wd;
      }
      return false;
    }

    method FindRootDirPath(path: string) returns (i: int)
      ensures -1 <= i < |rootDirPaths|
      ensures 0 <= i ==> rootDirPaths[i] == Some(path)
      ensures i == -1 <==> !IsRoot(rootDirPaths, path)
    {
      for j := 0 to |rootDirPaths|
        invariant forall k :: 0 <= k < j ==> rootDirPaths[k] != Some(path)
      {
        if rootDirPaths[j] == Some(path) {
          return j;
        }
      }
      return -1;
    }

    method ZapRootDirPath(path: string)
      requires Valid() && IsRoot(rootDirPaths, path)
      modifies this`rootDirPaths, this`ignoreRootDirs, this`exited
      ensures Valid() && State() == ZapRoot(old(State()), path)
    {
      var i := FindRootDirPath(path);
      ForgetRoot(rootDirPaths, i);
      rootDirPaths := rootDirPaths[i := None];
      ignoreRootDirs := ignoreRootDirs + 1;
      exited := ignoreRootDirs == |rootDirPaths|;
      AllForgotten(rootDirPaths);
      assert rootDirPaths == ZapRoot(old(State()), path).roots;
    }

    method TraverseTree(d: DirId)
      requires Valid() && d in kernel.tree
      modifies this`wlCache, this`cache, this`kernel
      ensures Valid() && State() == Visit(old(State()), d)
    {
      hide Wf, Lists, DistinctRoots, Forgotten;
      var pathname := PathOf(kernel.tree, d);
      var root := FindRootDirPath(pathname);
      kernel := AddWatch(kernel, d, root >= 0);
      var wd := kernel.watch[d];
      assert wd in kernel.dirOf;
      var slot := FindWatch(wd);
      if slot < 0 {
        var _ := AddWatchToCache(wd, pathname);
      }
    }

    method WatchDir(path: string)
      requires Valid()
      modifies this`wlCache, this`cache, this`kernel
      ensures Valid() && State() == WatchSubtree(old(State()), path)
    {
      var ds := Below(kernel.tree, kernel.order, path);
      for j := 0 to |ds|
        invariant Valid() && kernel.tree == old(kernel.tree)
        invariant VisitAll(State(), ds[j..]) == VisitAll(old(State()), ds)
      {
        assert ds[j..][0] == ds[j] && ds[j..][1..] == ds[j + 1..];
        TraverseTree(ds[j]);
      }
    }

    method Reinitialize()
      requires Valid()
      modifies this`wlCache, this`cache, this`kernel
      ensures Valid() && State() == Rebuild(old(State()))
    {
      hide WfKernel, Holds, DistinctRoots, Forgotten, NewInstance, WatchSubtree;
      FreshStart(kernel);
      kernel := NewInstance(kernel);
      wlCache := [];
      cache := map[];
      ghost var start := State();
      for j := 0 to |rootDirPaths|
        invariant Valid() && State() == WatchRoots(start, j)
      {
        if rootDirPaths[j].Some? {
          WatchDir(rootDirPaths[j].value);
        }
      }
    }

    method RewriteCachedPaths(oldPathPrefix: string, oldName: string, newPathPrefix: string, newName: string)
      requires Valid()
      modifies this`wlCache, this`cache
      ensures Valid()
      ensures cache == RewriteCache(old(cache), Child(oldPathPrefix, oldName), Child(newPathPrefix, newName))
      ensures |wlCache| == |old(wlCache)|
      ensures forall j :: 0 <= j < |wlCache| ==>
                var Slot(wd, path) := old(wlCache)[j];
                wlCache[j] == Slot(wd, Rewrite(Child(oldPathPrefix, oldName), Child(newPathPrefix, newName), path))
    {
      var fullPath := Child(oldPathPrefix, oldName);
      var newPrefix := Child(newPathPrefix, newName);
      var len := |fullPath|;
      hide WfKernel;
      for j := 0 to |wlCache|
        modifies this`wlCache
        invariant |wlCache| == |old(wlCache)|
        invariant forall i :: 0 <= i < j ==>
                    wlCache[i] == Slot(old(wlCache)[i].wd, Rewrite(fullPath, newPrefix, old(wlCache)[i].path))
        invariant forall i :: j <= i < |wlCache| ==> wlCache[i] == old(wlCache)[i]
      {
        if IsUnder(fullPath, wlCache[j].path) {
          wlCache := wlCache[j := Slot(wlCache[j].wd, newPrefix + wlCache[j].path[len..])];
        }
      }
      HoldsRewrite(old(wlCache), wlCache, cache, fullPath, newPrefix);
      cache := RewriteCache(cache, fullPath, newPrefix);
    }

    function Text(path: PathRef): string
      reads this
    {
      match path
      case Given(text) => text
      case InSlot(j) => if j < |wlCache| then wlCache[j].path else ""
    }

    /** inotify_rm_watch() on the watch of a slot, which is then emptied. */
    method RemoveSlot(j: nat) returns (ok: bool)
      requires Valid() && j < |wlCache| && wlCache[j] != EMPTY
      modifies this`wlCache, this`cache, this`kernel
      ensures Valid() && (ok <==> old(wlCache[j].wd) in old(kernel).dirOf)
      ensures kernel == if ok then RemoveWatches(old(kernel), {old(wlCache[j].wd)}) else old(kernel)
      ensures cache == if ok then old(cache) - {old(wlCache[j].wd)} else old(cache)
      ensures wlCache == if ok then old(wlCache)[j := EMPTY] else old(wlCache)
    {
      hide WfKernel, RemoveWatches, Holds;
      var wd := wlCache[j].wd;
      ok := wd in kernel.dirOf;
      if ok {
        kernel := RemoveWatches(kernel, {wd});
        MarkCacheSlotEmpty(j);
      }
    }

    /** Returns how many entries it removed, or -1 when the kernel no longer knew
        one of the watches; the rest of the subtree is then left as it is. */
    method ZapSubtree(path: PathRef) returns (cnt: int)
      requires Valid()
      modifies this`wlCache, this`cache, this`kernel
      ensures Valid() && kernel.tree == old(kernel.tree) && kernel.order == old(kernel.order)
      ensures cnt == -1 <==> !CanZap(old(State()), old(Text(path)))
      ensures cnt != -1 ==>
                && cnt == |Matched(old(cache), old(Text(path)))|
                && State() == Zap(old(State()), old(Text(path)))
    {
      hide Wf, WfTable, Lists, DistinctRoots, Forgotten, IsUnder, Holds, RemoveWatches;
      var pn := Text(path);
      cnt := 0;
      ghost var zapped: set<int> := {};
      RemoveNone(kernel);
      for j := 0 to |wlCache|
        invariant Valid() && |wlCache| == |old(wlCache)| && cnt == |zapped|
        invariant forall i :: j <= i < |wlCache| ==> wlCache[i] == old(wlCache)[i]
        invariant zapped <= Matched(old(cache), pn) && zapped <= old(kernel).dirOf.Keys
        invariant forall i :: 0 <= i < j && old(wlCache)[i] != EMPTY && IsUnder(pn, old(wlCache)[i].path) ==>
                    old(wlCache)[i].wd in zapped
        invariant cache == old(cache) - zapped && kernel == RemoveWatches(old(kernel), zapped)
      {
        SlotIsCached(wlCache, cache, j);
        if wlCache[j].wd >= 0 && IsUnder(pn, wlCache[j].path) {
          ghost var wd := wlCache[j].wd;
          assert wd in Matched(old(cache), pn) && wd !in zapped;
          Remaining(old(kernel), zapped);
          var ok := RemoveSlot(j);
          if !ok {
            return -1;
          }
          RemoveOneMore(old(kernel), zapped, wd);
          zapped := zapped + {wd};
          cnt := cnt + 1;
        }
      }
      AllMatched(old(wlCache), old(cache), pn, zapped);
      Remaining(old(kernel), zapped);
    }

    method ZapOrReinitialize(path: PathRef) returns (r: Reply)
      requires Valid()
      modifies this`wlCache, this`cache, this`kernel
      ensures Valid() && Answers(r, State(), old(State()), ZapOrRebuild(old(State()), old(Text(path))))
    {
      hide Wf, WfTable, Lists, DistinctRoots, Forgotten, IsUnder, CanZap, Zap, Rebuild, Holds;
      var cnt := ZapSubtree(path);
      if cnt == -1 {
        RebuildSame(State(), old(State()));
        Reinitialize();
        r := Discard;
      } else {
        r := Used(1);
      }
    }

    method HandleMovedFrom(ev: Event, slot: nat, next: Option<Event>, firstTry: bool, ghost evs: seq<Event>)
      returns (r: Reply)
      requires Valid() && evs != [] && ev == evs[0] && next == Following(evs)
      requires slot < |wlCache| && 0 <= ev.wd && wlCache[slot].wd == ev.wd && (next.Some? ==> KernelEvent(next.value))
      modifies this`wlCache, this`cache, this`kernel
      ensures Valid() && ev.wd in old(cache)
      ensures Answers(r, State(), old(State()), ProcessMovedFrom(old(State()), evs, firstTry))
    {
      hide Wf, WfTable, Lists, DistinctRoots, Forgotten, IsUnder, CanZap, Zap, Rebuild, RewriteCache, ZapOrRebuild;
      assert wlCache[slot] != EMPTY;
      if next.Some? && MOVED_TO in next.value.mask && next.value.cookie == ev.cookie {
        var nextSlot := FindWatch(next.value.wd);
        if nextSlot == -1 {
          Reinitialize();
          r := Discard;
        } else {
          RewriteCachedPaths(wlCache[slot].path, ev.name, wlCache[nextSlot].path, next.value.name);
          r := Used(2);
        }
      } else if next.Some? || !firstTry {
        r := ZapOrReinitialize(Given(Child(wlCache[slot].path, ev.name)));
      } else {
        r := ReadMore;
      }
    }

    method HandleDeleteSelf(slot: nat)
      requires Valid() && !exited && slot < |wlCache| && wlCache[slot] != EMPTY
      modifies this`wlCache, this`cache, this`rootDirPaths, this`ignoreRootDirs, this`exited
      ensures Valid() && old(wlCache[slot].wd) in old(cache)
      ensures var wd := old(wlCache[slot].wd);
              var p := old(cache)[wd];
              var s := if IsRoot(old(rootDirPaths), p) then ZapRoot(old(State()), p) else old(State());
              State() == if s.exited then s else s.(cache := s.cache - {wd})
    {
      hide WfKernel, ZapRoot, DistinctRoots, Forgotten;
      var path := wlCache[slot].path;
      assert path == cache[wlCache[slot].wd];
      var root := FindRootDirPath(path);
      if root >= 0 {
        ZapRootDirPath(path);
        if exited {
          return;
        }
      }
      MarkCacheSlotEmpty(slot);
    }

    method HandleMoveSelf(slot: nat) returns (r: Reply)
      requires Valid() && !exited && slot < |wlCache| && wlCache[slot] != EMPTY
      requires IsRoot(rootDirPaths, wlCache[slot].path)
      modifies this
      ensures Valid()
      ensures var p := old(wlCache[slot].path);
              var z := ZapRoot(old(State()), p);
              && WfKernel(z.k)
              && Answers(r, State(), old(State()), if z.exited then Consumed(z, 1) else ZapOrRebuild(z, p))
    {
      hide WfKernel, ZapRoot, DistinctRoots, Forgotten, Zap, Rebuild, CanZap, Holds;
      ZapRootDirPath(wlCache[slot].path);
      if exited {
        return Used(1);
      }
      r := ZapOrReinitialize(InSlot(slot));
    }

    /** One or two events of the buffer, given as the events they are. */
    method HandleEvent(ev: Event, next: Option<Event>, firstTry: bool, ghost evs: seq<Event>) returns (r: Reply)
      requires Valid() && !exited && evs != [] && ev == evs[0] && next == Following(evs) && AllKernel(evs)
      modifies this
      ensures Valid() && Answers(r, State(), old(State()), Process(old(State()), evs, firstTry))
    {
      hide Wf, WfTable, Lists, DistinctRoots, Forgotten, IsUnder, CanZap, Zap, ZapRoot, Rebuild, RewriteCache,
           ZapOrRebuild, ProcessMovedFrom, WatchSubtree;
      var slot := -1;
      if ev.wd != -1 && IGNORED !in ev.mask {
        slot := FindWatch(ev.wd);
        if slot == -1 {
          Reinitialize();
          return Discard;
        }
        assert wlCache[slot] != EMPTY;
      }
      r := Used(1);
      if ISDIR in ev.mask && (CREATE in ev.mask || MOVED_TO in ev.mask) {
        var fullPath := Child(wlCache[slot].path, ev.name);
        var cached := PathnameInCache(fullPath);
        if !cached {
          WatchDir(fullPath);
        }
      } else if DELETE_SELF in ev.mask {
        HandleDeleteSelf(slot);
      } else if {MOVED_FROM, ISDIR} <= ev.mask {
        r := HandleMovedFrom(ev, slot, next, firstTry, evs);
      } else if Q_OVERFLOW in ev.mask {
        Reinitialize();
        r := Discard;
      } else if UNMOUNT in ev.mask {
        MarkCacheSlotEmpty(slot);
      } else if MOVE_SELF in ev.mask {
        var root := FindRootDirPath(wlCache[slot].path);
        if root >= 0 {
          r := HandleMoveSelf(slot);
        }
      }
    }
  }

  /** What the caller does next: go on after the events used, drop the whole
      buffer, or read some more events. */
  datatype Reply = Used(count: nat) | Discard | ReadMore

  function Following(evs: seq<Event>): Option<Event> {
    if |evs| > 1 then Some(evs[1]) else None
  }

  /** The reply `r`, with the state now `s` and before `s0`, is the outcome `o`. */
  ghost predicate Answers(r: Reply, s: Monitor, s0: Monitor, o: Outcome) {
    match o
    case Consumed(s', n) => r == Used(n) && s == s'
    case Rebuilt(s') => r == Discard && s == s'
    case Hanging => r == ReadMore && s == s0
  }

  lemma RebuildSame(s: Monitor, s': Monitor)
    requires WfKernel(s.k) && WfKernel(s'.k)
    requires s.roots == s'.roots && s.exited == s'.exited && s.k.tree == s'.k.tree && s.k.order == s'.k.order
    ensures Rebuild(s) == Rebuild(s')
  {
    hide Wf;
    assert s.(cache := map[], k := NewInstance(s.k)) == s'.(cache := map[], k := NewInstance(s'.k));
  }

  lemma FreshStart(k: Kernel)
    requires WfKernel(k)
    ensures WfKernel(NewInstance(k)) && Holds([], map[])
  {
    hide Wf;
  }

  lemma RemoveNone(k: Kernel)
    requires WfKernel(k)
    ensures RemoveWatches(k, {}) == k
  {
    hide Wf, WfTable;
  }

  lemma RemoveOneMore(k: Kernel, wds: set<int>, wd: int)
    requires WfKernel(k)
    ensures RemoveWatches(RemoveWatches(k, wds), {wd}) == RemoveWatches(k, wds + {wd})
  {
    hide Wf, WfTable;
    var k1 := RemoveWatches(RemoveWatches(k, wds), {wd});
    var k2 := RemoveWatches(k, wds + {wd});
    assert k1.watch == k2.watch && k1.dirOf == k2.dirOf && k1.selfMove == k2.selfMove;
  }

  lemma Remaining(k: Kernel, wds: set<int>)
    requires WfKernel(k)
    ensures var k' := RemoveWatches(k, wds); k'.tree == k.tree && k'.order == k.order && k'.dirOf == k.dirOf - wds
  {
    hide Wf, WfTable;
  }

  lemma SlotIsCached(slots: seq<Slot>, cache: map<int, string>, j: nat)
    requires Holds(slots, cache) && j < |slots|
    ensures slots[j] == EMPTY <==> slots[j].wd < 0
    ensures slots[j] != EMPTY ==> slots[j].wd in cache && cache[slots[j].wd] == slots[j].path
  {
  }

  lemma AllMatched(slots: seq<Slot>, cache: map<int, string>, p: string, zapped: set<int>)
    requires Holds(slots, cache) && zapped <= Matched(cache, p)
    requires forall i :: 0 <= i < |slots| && slots[i] != EMPTY && IsUnder(p, slots[i].path) ==> slots[i].wd in zapped
    ensures zapped == Matched(cache, p)
  {
    forall wd | wd in Matched(cache, p) ensures wd in zapped {
      var i :| 0 <= i < |slots| && slots[i].wd == wd;
      assert slots[i] != EMPTY;
    }
  }

  function AllSome(paths: seq<string>): (r: seq<Option<string>>)
    ensures |r| == |paths| && forall i :: 0 <= i < |r| ==> r[i] == Some(paths[i])
  {
    seq(|paths|, i requires 0 <= i < |paths| => Some(paths[i]))
  }

  lemma {:induction false} NoneForgotten(roots: seq<Option<string>>)
    requires forall i :: 0 <= i < |roots| ==> roots[i].Some?
    ensures Forgotten(roots) == 0
    decreases |roots|
  {
    if roots != [] {
      NoneForgotten(roots[1..]);
    }
  }

  lemma ForgetRoot(roots: seq<Option<string>>, i: nat)
    requires i < |roots| && roots[i].Some?
    ensures Forgotten(roots[i := None]) == Forgotten(roots) + 1
    decreases roots
  {
    if i == 0 {
      assert roots[0 := None][1..] == roots[1..];
    } else {
      ForgetRoot(roots[1..], i - 1);
      assert roots[i := None][1..] == roots[1..][i - 1 := None];
    }
  }

  lemma AllForgotten(roots: seq<Option<string>>)
    ensures Forgotten(roots) <= |roots|
    ensures Forgotten(roots) == |roots| <==> forall i :: 0 <= i < |roots| ==> roots[i].None?
  {
    if roots != [] {
      AllForgotten(roots[1..]);
      assert forall i :: 0 < i < |roots| ==> roots[i] == roots[1..][i - 1];
    }
  }

  ghost predicate DistinctRoots(roots: seq<Option<string>>) {
    forall i, j :: 0 <= i < j < |roots| && roots[i].Some? ==> roots[i] != roots[j]
  }

  ghost function Forgotten(roots: seq<Option<string>>): nat {
    if roots == [] then 0 else (if roots[0].None? then 1 else 0) + Forgotten(roots[1..])
  }
}
