/** The monitor and umount(2): the kernel drops the watches of the filesystem that goes, with
    an event for each, and the directory it was mounted on comes to light. */
module MonitorUnmount {
  import opened Pathnames
  import opened DirTree
  import opened Inotify
  import opened MonitorModel
  import opened MonitorViews
  import opened MonitorSync
  import opened MonitorTheorem

  /** The directories of `gone` were unmounted. The others stay as they are, and directories
      that were covered may have come to light. */
  ghost predicate Unmounted(k: Kernel, k': Kernel, gone: set<DirId>) {
    && WfKernel(k) && WfKernel(k')
    && gone <= k.tree.Keys && k.tree.Keys - gone <= k'.tree.Keys && gone !! k'.tree.Keys
    && (forall x :: x in k.tree && x !in gone ==> PathOf(k'.tree, x) == PathOf(k.tree, x))
    && k'.watch == k.watch - gone && k'.selfMove == k.selfMove - gone && k'.nextWd == k.nextWd
    && k'.dirOf == map wd | wd in k.dirOf && k.dirOf[wd] !in gone :: k.dirOf[wd]
  }

  ghost function Lost(s: Monitor, gone: set<DirId>): map<int, string> {
    map wd | wd in s.k.dirOf && wd in s.cache && s.k.dirOf[wd] in gone :: s.cache[wd]
  }

  /** For each watch dropped, an event says why, and another that it is gone. */
  ghost function UnmountEvents(wds: seq<int>): seq<Event> {
    if wds == [] then []
    else [Event(wds[0], {UNMOUNT}, 0, ""), Event(wds[0], {IGNORED}, 0, "")] + UnmountEvents(wds[1..])
  }

  /** The descriptors of `wds` are those of `stale`, each once. */
  ghost predicate Once(wds: seq<int>, stale: map<int, string>) {
    && (forall i, j :: 0 <= i < j < |wds| ==> wds[i] != wds[j])
    && (set wd | wd in wds) == stale.Keys
  }

  lemma AfterUnmount(s: Monitor, view: View, k': Kernel, gone: set<DirId>)
    requires Mirrors(s, view, map[]) && Unmounted(s.k, k', gone)
    ensures Mirrors(s.(k := k'), view - gone, Lost(s, gone))
  {
    hide Wf, Lists, PathOf;
  }

  /** An entry whose watch went with its filesystem is taken out, and nothing else changes. */
  lemma HandleUnmount(s: Monitor, view: View, stale: map<int, string>, wd: int)
    requires Mirrors(s, view, stale) && wd in stale && !s.exited
    ensures 1 <= wd && KernelEvent(Event(wd, {UNMOUNT}, 0, ""))
    ensures var s' := s.(cache := s.cache - {wd});
            Process(s, [Event(wd, {UNMOUNT}, 0, "")], false) == Consumed(s', 1) && Mirrors(s', view, stale - {wd})
  {
    hide Wf, WfTable;
    DropStale(s, view, stale, wd);
  }

  lemma {:induction false} HandleUnmounts(s: Monitor, view: View, stale: map<int, string>, wds: seq<int>)
    requires Mirrors(s, view, stale) && Once(wds, stale) && !s.exited
    ensures NoMovedFrom(UnmountEvents(wds))
    ensures var s' := RunSingles(s, UnmountEvents(wds));
            Mirrors(s', view, map[]) && s'.roots == s.roots && s'.k == s.k && !s'.exited
    decreases |wds|
  {
    hide Wf, WfTable, Entries, Process;
    if wds == [] {
      assert stale.Keys == {} && stale == map[];
    } else {
      var wd, rest := wds[0], UnmountEvents(wds[1..]);
      var s1 := s.(cache := s.cache - {wd});
      HandleUnmount(s, view, stale, wd);
      OnceRest(wds, stale);
      HandleUnmounts(s1, view, stale - {wd}, wds[1..]);
      var a, b := Event(wd, {UNMOUNT}, 0, ""), Event(wd, {IGNORED}, 0, "");
      IgnoredConsumed(s1, wd);
      RunSinglesCons(s1, b, rest, s1);
      RunSinglesCons(s, a, [b] + rest, s1);
      assert UnmountEvents(wds) == [a] + ([b] + rest);
    }
  }

  lemma OnceRest(wds: seq<int>, stale: map<int, string>)
    requires Once(wds, stale) && wds != []
    ensures wds[0] in stale && Once(wds[1..], stale - {wds[0]})
  {
    assert wds == [wds[0]] + wds[1..] && wds[0] in wds;
    assert (set wd | wd in wds[1..]) == (set wd | wd in wds) - {wds[0]};
  }

  lemma IgnoredConsumed(s: Monitor, wd: int)
    requires WfKernel(s.k) && 1 <= wd
    ensures var e := Event(wd, {IGNORED}, 0, ""); KernelEvent(e) && Process(s, [e], false) == Consumed(s, 1)
  {
    hide WfKernel;
  }

  /** Something that was covered lies below a root. */
  ghost predicate Uncovers(s: Monitor, k': Kernel)
    requires WfKernel(k')
  {
    exists x :: x in k'.tree && x !in s.k.tree && UnderRoots(s.roots, PathOf(k'.tree, x))
  }

  /** However the events are read: the entries of the filesystem are gone and all others kept,
      and no root is forgotten. So the cache equals the monitored trees exactly if nothing that
      came to light lies below a root. */
  lemma UnmountIff(s: Monitor, k': Kernel, gone: set<DirId>, wds: seq<int>, chunks: seq<seq<Event>>)
    requires Exact(s) && !s.exited && Unmounted(s.k, k', gone) && Once(wds, Lost(s, gone))
    requires AllReads(chunks) && Flatten(chunks) == UnmountEvents(wds)
    ensures var s' := Serve(s.(k := k'), chunks);
            && !s'.exited && s'.roots == s.roots && s'.k == k'
            && Mirrors(s', Snapshot(s.roots, s.k.tree) - gone, map[])
            && (Exact(s') <==> !Uncovers(s, k'))
  {
    hide Wf, WfTable, Entries, Process, Lists, PathOf, UnderRoots, Serve, Flatten;
    var view: View := Snapshot(s.roots, s.k.tree);
    AfterUnmount(s, view, k', gone);
    HandleUnmounts(s.(k := k'), view - gone, Lost(s, gone), wds);
    ServeFlat(s.(k := k'), chunks);
    var s' := Serve(s.(k := k'), chunks);
    if Uncovers(s, k') {
      var x :| x in k'.tree && x !in s.k.tree && UnderRoots(s.roots, PathOf(k'.tree, x));
      assert x in Snapshot(s.roots, k'.tree) && x !in view;
      if Exact(s') {
        MirrorsUnique(s', view - gone, Snapshot(s.roots, k'.tree));
      }
    } else {
      assert Snapshot(s.roots, k'.tree) == view - gone;
    }
  }

  /** In particular the directory on which a monitored filesystem was mounted is missed. */
  lemma MountPointIsMissed(s: Monitor, k': Kernel, gone: set<DirId>, wds: seq<int>, chunks: seq<seq<Event>>,
                           d: DirId, c: DirId)
    requires Exact(s) && !s.exited && Unmounted(s.k, k', gone) && Once(wds, Lost(s, gone))
    requires AllReads(chunks) && Flatten(chunks) == UnmountEvents(wds)
    requires d in gone && UnderRoots(s.roots, PathOf(s.k.tree, d))
    requires c in k'.tree && c !in s.k.tree && PathOf(k'.tree, c) == PathOf(s.k.tree, d)
    ensures !Exact(Serve(s.(k := k'), chunks))
  {
    hide Wf, WfTable, Entries, Process, Lists, PathOf, UnderRoots, Serve, Flatten, Exact, Unmounted;
    UnmountIff(s, k', gone, wds, chunks);
  }
}
