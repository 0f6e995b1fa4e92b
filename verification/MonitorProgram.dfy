/** The program as a whole: what its table of slots holds after each operation. */
module MonitorProgram {
  import opened DirTree
  import opened Inotify
  import opened MonitorModel
  import opened MonitorViews
  import opened MonitorSync
  import opened MonitorRename
  import opened MonitorTheorem
  import opened DirectoryMonitor
  import opened ReadLoop

  lemma {:induction false} TotalIsFlat(chunks: seq<seq<Event>>)
    ensures TotalLen(chunks) == |Flatten(chunks)|
    decreases |chunks|
  {
    if chunks != [] {
      TotalIsFlat(chunks[1..]);
    }
  }

  lemma FewEvents(k: Kernel, op: Op)
    requires WfKernel(k) && ValidOp(k.tree, op)
    ensures |OpEvents(k, op)| <= 5
  {
    hide Wf, WfTable, ValidOp;
  }

  /** What it means for the table that the cache is exact: its used slots are the monitored
      directories, each once, with the kernel's descriptor and the current pathname. */
  lemma TableIsSnapshot(m: Monitored, dirs: View)
    requires m.Valid() && Exact(m.State()) && dirs == Snapshot(m.rootDirPaths, m.kernel.tree)
    ensures forall d :: d in dirs ==>
              d in m.kernel.watch && Slot(m.kernel.watch[d], PathOf(m.kernel.tree, d)) in m.wlCache
    ensures forall j :: 0 <= j < |m.wlCache| && m.wlCache[j] != EMPTY ==>
              var Slot(wd, path) := m.wlCache[j];
              wd in m.kernel.dirOf && m.kernel.dirOf[wd] in dirs && path == PathOf(m.kernel.tree, m.kernel.dirOf[wd])
    ensures forall i, j :: 0 <= i < j < |m.wlCache| && m.wlCache[i] != EMPTY ==> m.wlCache[i].wd != m.wlCache[j].wd
  {
    hide Wf, PathOf, UnderRoots;
    forall d | d in dirs ensures Slot(m.kernel.watch[d], PathOf(m.kernel.tree, d)) in m.wlCache {
      var wd := m.kernel.watch[d];
      CachedAs(m.State(), dirs, map[], d);
      var j :| 0 <= j < |m.wlCache| && m.wlCache[j].wd == wd;
      assert m.wlCache[j] == Slot(wd, PathOf(m.kernel.tree, d));
    }
  }

  /** Another process carries out an operation, and the program handles the events. Its
      table then lists the monitored directories with their pathnames and descriptors
      exactly if the operation can be followed; or no root is left, and it has ended. */
  method FollowOperation(m: Monitored, op: Op, order: seq<DirId>, chunks: seq<seq<Event>>)
    requires m.Valid() && !m.exited && Synced(m.State())
    requires WfKernel(m.kernel) && ValidOp(m.kernel.tree, op) && Lists(order, TreeAfter(m.kernel.tree, op))
    requires AllReads(chunks) && Flatten(chunks) == OpEvents(m.kernel, op)
    modifies m
    ensures m.Valid()
    ensures if m.exited then CanFollow(old(m.State()), op, chunks) && forall r :: !IsRoot(m.rootDirPaths, r)
            else if CanFollow(old(m.State()), op, chunks) then
              Exact(m.State()) && (KeepsRoots(old(m.State()), op) ==> Synced(m.State()))
            else !Exact(m.State())
  {
    hide WfKernel, Holds, DistinctRoots, Forgotten, Synced, Exact, CanFollow, KeepsRoots, Serve, ServeFits, OpEvents,
         Flatten, AllReads, ValidOp, Lists, TreeAfter, KernelAfter;
    OneOperation(m.State(), op, order, chunks);
    TotalIsFlat(chunks);
    FewEvents(m.kernel, op);
    m.kernel := KernelAfter(m.kernel, op, order);
    assert m.State() == AfterOp(old(m.State()), op, order);
    FewServeFit(m.State(), chunks);
    MonitorEvents(m, chunks);
  }

  /** Starting the program: the table is a snapshot, also when roots are nested. */
  method Start(kernel: Kernel, paths: seq<string>) returns (m: Monitored)
    requires WfKernel(kernel) && forall i, j :: 0 <= i < j < |paths| ==> paths[i] != paths[j]
    ensures fresh(m) && m.Valid() && !m.exited && m.rootDirPaths == AllSome(paths) && m.kernel.tree == kernel.tree
    ensures Exact(m.State()) && (RootsExist(m.rootDirPaths, m.kernel.tree) ==> Synced(m.State()))
  {
    assert Wf(kernel.tree);
    hide WfKernel, Holds, DistinctRoots, Forgotten, Exact, Rebuild, Wf, RootsNamed, RootsExist, AllSome;
    if RootsExist(AllSome(paths), kernel.tree) {
      RootsExistNamed(AllSome(paths), kernel.tree);
    }
    m := new Monitored(kernel, paths);
    RebuildIsExact(m.State());
    m.Reinitialize();
  }

  // ----- Operations and events in any order ---------------------------------

  /** What may happen next: an operation, which the program does not see, or some
      events in the buffer, of which the program handles the first. */
  datatype Action = Operate(op: Op, order: seq<DirId>) | Deliver(evs: seq<Event>, firstTry: bool)

  /** Any operation that the tree permits, and any events, wherever they come from. */
  ghost predicate Possible(s: Monitor, a: Action)
    requires WfKernel(s.k)
  {
    match a
    case Operate(op, order) => ValidOp(s.k.tree, op) && Lists(order, TreeAfter(s.k.tree, op))
    case Deliver(evs, _) => !s.exited && evs != [] && AllKernel(evs)
  }

  ghost function Then(s: Monitor, a: Action): (s': Monitor)
    requires WfKernel(s.k) && Possible(s, a)
    ensures WfKernel(s'.k)
  {
    match a
    case Operate(op, order) =>
      OpKeepsWf(s.k, op, order);
      AfterOp(s, op, order)
    case Deliver(evs, firstTry) =>
      var o := Process(s, evs, firstTry);
      if o.Hanging? then s else o.s
  }

  ghost predicate Feasible(s: Monitor, actions: seq<Action>)
    requires WfKernel(s.k)
    decreases |actions|
  {
    actions == [] || (Possible(s, actions[0]) && Feasible(Then(s, actions[0]), actions[1..]))
  }

  /** Does the action make the program rebuild its cache? */
  ghost predicate Rebuilds(s: Monitor, a: Action)
    requires WfKernel(s.k) && Possible(s, a)
  {
    a.Deliver? && Process(s, a.evs, a.firstTry).Rebuilt?
  }

  /** An event for a descriptor that is not cached, or an overflow of the queue; or a "moved
      from" event whose partner has such a descriptor. */
  predicate NotCached(s: Monitor, evs: seq<Event>)
    requires evs != []
  {
    || Q_OVERFLOW in evs[0].mask
    || (IGNORED !in evs[0].mask && evs[0].wd !in s.cache)
    || (IsMovedFrom(evs[0]) && IGNORED !in evs[0].mask && |evs| > 1 && Pairs(evs[0], evs[1]) && evs[1].wd !in s.cache)
  }

  /** What is consumed is known. */
  ghost predicate Known(s: Monitor, evs: seq<Event>, firstTry: bool)
    requires WfKernel(s.k) && evs != [] && KernelEvent(evs[0])
  {
    var o := Process(s, evs, firstTry);
    o.Consumed? ==> forall i :: 0 <= i < o.count ==> evs[i].wd in s.cache || IGNORED in evs[i].mask
  }

  method CarryOut(m: Monitored, a: Action)
    requires m.Valid() && Possible(m.State(), a)
    modifies m
    ensures m.Valid() && m.State() == Then(old(m.State()), a)
    ensures a.Deliver? && NotCached(old(m.State()), a.evs) ==> Rebuilds(old(m.State()), a)
    ensures a.Deliver? ==> Known(old(m.State()), a.evs, a.firstTry)
    ensures Rebuilds(old(m.State()), a) ==> Exact(m.State()) && m.kernel.tree == old(m.kernel.tree)
  {
    hide WfKernel, Holds, DistinctRoots, Forgotten, Exact, Process, ValidOp, Lists, TreeAfter, KernelAfter, KernelEvent;
    match a
    case Operate(op, order) =>
      OpKeepsWf(m.kernel, op, order);
      m.kernel := KernelAfter(m.kernel, op, order);
    case Deliver(evs, firstTry) =>
      assert KernelEvent(evs[0]);
      EveryRebuildIsExact(m.State(), evs, firstTry);
      ConsumedAreKnown(m.State(), evs, firstTry);
      if Q_OVERFLOW in evs[0].mask || (IGNORED !in evs[0].mask && evs[0].wd !in m.cache) {
        UnknownDescriptorRebuilds(m.State(), evs, firstTry);
      } else if NotCached(m.State(), evs) {
        UnknownPartnerRebuilds(m.State(), evs, firstTry);
      }
      var _ := m.HandleEvent(evs[0], Following(evs), firstTry, evs);
  }

  /** At one moment: the used slots have distinct descriptors and hold the cache, and the
      unused ones are blank. */
  ghost predicate Sound(s: Monitor, table: seq<Slot>) {
    WfKernel(s.k) && Holds(table, s.cache)
  }

  ghost predicate Step(s: Monitor, a: Action, s': Monitor) {
    && WfKernel(s.k) && Possible(s, a) && s' == Then(s, a)
    && (a.Deliver? && NotCached(s, a.evs) ==> Rebuilds(s, a))
    && (a.Deliver? ==> Known(s, a.evs, a.firstTry))
    && (Rebuilds(s, a) ==> Exact(s') && s'.k.tree == s.k.tree)
  }

  /** Through every interleaving of operations and events, however delayed, reordered or
      unrelated to the operations the events are: the table stays sound, and every rebuild
      leaves it equal to the trees as they are at that moment. */
  method AnyOrder(m: Monitored, actions: seq<Action>) returns (ghost states: seq<Monitor>, ghost tables: seq<seq<Slot>>)
    requires m.Valid() && Feasible(m.State(), actions)
    modifies m
    ensures m.Valid() && |states| == |tables| == |actions| + 1 && states[0] == old(m.State())
    ensures forall i :: 0 <= i <= |actions| ==> Sound(states[i], tables[i])
    ensures forall i :: 0 <= i < |actions| ==> Step(states[i], actions[i], states[i + 1])
    ensures states[|actions|] == m.State() && tables[|actions|] == m.wlCache
  {
    hide WfKernel, Holds, DistinctRoots, Forgotten, Exact, Possible, Then, Rebuilds;
    states, tables := [m.State()], [m.wlCache];
    assert actions[0..] == actions;
    for n := 0 to |actions|
      invariant m.Valid() && Feasible(m.State(), actions[n..])
      invariant |states| == |tables| == n + 1 && states[0] == old(m.State())
      invariant states[n] == m.State() && tables[n] == m.wlCache
      invariant forall i :: 0 <= i <= n ==> Sound(states[i], tables[i])
      invariant forall i :: 0 <= i < n ==> Step(states[i], actions[i], states[i + 1])
    {
      assert actions[n..][0] == actions[n] && actions[n..][1..] == actions[n + 1..];
      CarryOut(m, actions[n]);
      states, tables := states + [m.State()], tables + [m.wlCache];
    }
  }
}
