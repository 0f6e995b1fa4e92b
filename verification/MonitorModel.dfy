/** What the directory monitor does with each event, on values: the cache as a
    map from watch descriptor to pathname, and the kernel it talks to. */
module MonitorModel {
  import opened Options
  import opened Pathnames
  import opened DirTree
  import opened Inotify

  /** `roots` holds the command-line pathnames; one that is no longer
      monitored is None. */
  datatype Monitor = Monitor(cache: map<int, string>, roots: seq<Option<string>>, k: Kernel, exited: bool)

  predicate IsRoot(roots: seq<Option<string>>, p: string) {
    Some(p) in roots
  }

  predicate InCache(cache: map<int, string>, p: string) {
    exists wd :: wd in cache && cache[wd] == p
  }

  /** traverseTree() on one directory of a walk. */
  function Visit(s: Monitor, d: DirId): (s': Monitor)
    requires WfKernel(s.k) && d in s.k.tree
    ensures WfKernel(s'.k) && s'.k.tree == s.k.tree && s'.k.order == s.k.order
    ensures s'.roots == s.roots && s'.exited == s.exited
    ensures forall e :: e in s.k.watch ==> e in s'.k.watch && s'.k.watch[e] == s.k.watch[e]
  {
    var p := PathOf(s.k.tree, d);
    var k' := AddWatch(s.k, d, IsRoot(s.roots, p));
    var wd := k'.watch[d];
    s.(k := k', cache := if wd in s.cache then s.cache else s.cache[wd := p])
  }

  function VisitAll(s: Monitor, ds: seq<DirId>): (s': Monitor)
    requires WfKernel(s.k) && forall d :: d in ds ==> d in s.k.tree
    ensures WfKernel(s'.k) && s'.k.tree == s.k.tree && s'.k.order == s.k.order
    ensures s'.roots == s.roots && s'.exited == s.exited
    ensures forall e :: e in s.k.watch ==> e in s'.k.watch && s'.k.watch[e] == s.k.watch[e]
    decreases |ds|
  {
    if ds == [] then s else VisitAll(Visit(s, ds[0]), ds[1..])
  }

  /** The directories that nftw() meets at or below `path`. */
  function Below(t: Tree, order: seq<DirId>, path: string): (ds: seq<DirId>)
    requires Wf(t) && forall d :: d in order ==> d in t
    ensures forall d :: d in ds <==> d in order && IsUnder(path, PathOf(t, d))
  {
    if order == [] then []
    else if IsUnder(path, PathOf(t, order[0])) then [order[0]] + Below(t, order[1..], path)
    else Below(t, order[1..], path)
  }

  function WatchSubtree(s: Monitor, path: string): (s': Monitor)
    requires WfKernel(s.k)
    ensures WfKernel(s'.k) && s'.k.tree == s.k.tree && s'.k.order == s.k.order
    ensures s'.roots == s.roots && s'.exited == s.exited
    ensures forall e :: e in s.k.watch ==> e in s'.k.watch && s'.k.watch[e] == s.k.watch[e]
  {
    VisitAll(s, Below(s.k.tree, s.k.order, path))
  }

  /** Watch the subtrees of the first `n` roots. */
  function WatchRoots(s: Monitor, n: nat): (s': Monitor)
    requires WfKernel(s.k) && n <= |s.roots|
    ensures WfKernel(s'.k) && s'.k.tree == s.k.tree && s'.k.order == s.k.order
    ensures s'.roots == s.roots && s'.exited == s.exited
  {
    if n == 0 then s
    else if s.roots[n - 1].Some? then WatchSubtree(WatchRoots(s, n - 1), s.roots[n - 1].value)
    else WatchRoots(s, n - 1)
  }

  /** reinitialize(): a new inotify instance and an empty cache, then a walk
      of every root that is still monitored. */
  function Rebuild(s: Monitor): (s': Monitor)
    requires WfKernel(s.k)
    ensures WfKernel(s'.k)
  {
    WatchRoots(s.(cache := map[], k := NewInstance(s.k)), |s.roots|)
  }

  function RewriteCache(cache: map<int, string>, from: string, to: string): map<int, string> {
    map wd | wd in cache :: Rewrite(from, to, cache[wd])
  }

  function Matched(cache: map<int, string>, path: string): set<int> {
    set wd | wd in cache && IsUnder(path, cache[wd])
  }

  /** zapSubtree() succeeds when the kernel still has every watch it removes. */
  predicate CanZap(s: Monitor, path: string) {
    forall wd :: wd in Matched(s.cache, path) ==> wd in s.k.dirOf
  }

  function Zap(s: Monitor, path: string): (s': Monitor)
    requires WfKernel(s.k)
    ensures WfKernel(s'.k) && s'.k.tree == s.k.tree && s'.roots == s.roots && s'.exited == s.exited
    ensures forall d :: d in s'.k.watch ==> d in s.k.watch && s'.k.watch[d] == s.k.watch[d]
  {
    var wds := Matched(s.cache, path);
    s.(cache := s.cache - wds, k := RemoveWatches(s.k, wds))
  }

  /** zapRootDirPath(): forget the root; leave when none remains. */
  function ZapRoot(s: Monitor, path: string): (s': Monitor)
    ensures s'.k == s.k && s'.cache == s.cache
  {
    var roots := seq(|s.roots|, i requires 0 <= i < |s.roots| => if s.roots[i] == Some(path) then None else s.roots[i]);
    s.(roots := roots, exited := forall i :: 0 <= i < |roots| ==> roots[i].None?)
  }

  /** The outcome of processNextInotifyEvent(): one or two events consumed; the
      cache rebuilt, and the rest of the buffer dropped; or a "moved from" at the
      end of the buffer, for which the caller shall read some more. */
  datatype Outcome = Consumed(s: Monitor, count: nat) | Rebuilt(s: Monitor) | Hanging

  predicate IsMovedFrom(e: Event) {
    && {MOVED_FROM, ISDIR} <= e.mask
    && !(CREATE in e.mask || MOVED_TO in e.mask)
    && DELETE_SELF !in e.mask
  }

  predicate Pairs(e: Event, next: Event) {
    MOVED_TO in next.mask && next.cookie == e.cookie
  }

  function ZapOrRebuild(s: Monitor, path: string): Outcome
    requires WfKernel(s.k)
  {
    if CanZap(s, path) then Consumed(Zap(s, path), 1) else Rebuilt(Rebuild(s))
  }

  function ProcessMovedFrom(s: Monitor, evs: seq<Event>, firstTry: bool): Outcome
    requires WfKernel(s.k) && evs != [] && evs[0].wd in s.cache
  {
    var e := evs[0];
    if |evs| > 1 && Pairs(e, evs[1]) then
      if evs[1].wd !in s.cache then Rebuilt(Rebuild(s))
      else Consumed(s.(cache := RewriteCache(s.cache, Child(s.cache[e.wd], e.name),
                                             Child(s.cache[evs[1].wd], evs[1].name))), 2)
    else if |evs| > 1 || !firstTry then ZapOrRebuild(s, Child(s.cache[e.wd], e.name))
    else Hanging
  }

  /** processNextInotifyEvent() on the events left in the buffer. */
  function Process(s: Monitor, evs: seq<Event>, firstTry: bool): (o: Outcome)
    requires WfKernel(s.k) && evs != [] && KernelEvent(evs[0])
    ensures o.Hanging? ==> firstTry && |evs| == 1 && IsMovedFrom(evs[0])
    ensures o.Consumed? ==> 1 <= o.count <= |evs| && o.count <= 2
    ensures !o.Hanging? ==> WfKernel(o.s.k)
  {
    var e := evs[0];
    if e.wd != -1 && IGNORED !in e.mask && e.wd !in s.cache then Rebuilt(Rebuild(s))
    else if ISDIR in e.mask && (CREATE in e.mask || MOVED_TO in e.mask) then
      var p := Child(s.cache[e.wd], e.name);
      Consumed(if InCache(s.cache, p) then s else WatchSubtree(s, p), 1)
    else if DELETE_SELF in e.mask then
      var p := s.cache[e.wd];
      var s' := if IsRoot(s.roots, p) then ZapRoot(s, p) else s;
      Consumed(if s'.exited then s' else s'.(cache := s'.cache - {e.wd}), 1)
    else if {MOVED_FROM, ISDIR} <= e.mask then ProcessMovedFrom(s, evs, firstTry)
    else if Q_OVERFLOW in e.mask then Rebuilt(Rebuild(s))
    else if UNMOUNT in e.mask then Consumed(s.(cache := s.cache - {e.wd}), 1)
    else if MOVE_SELF in e.mask && IsRoot(s.roots, s.cache[e.wd]) then
      var p := s.cache[e.wd];
      var s' := ZapRoot(s, p);
      if s'.exited then Consumed(s', 1) else ZapOrRebuild(s', p)
    else Consumed(s, 1)
  }

  // ----- The read loop ------------------------------------------------------

  function TotalLen(chunks: seq<seq<Event>>): nat {
    if chunks == [] then 0 else |chunks[0]| + TotalLen(chunks[1..])
  }

  predicate AllKernel(evs: seq<Event>) {
    forall i :: 0 <= i < |evs| ==> KernelEvent(evs[i])
  }

  predicate AllReads(chunks: seq<seq<Event>>) {
    forall i :: 0 <= i < |chunks| ==> AllKernel(chunks[i])
  }

  /** Where processInotifyEvents() ends: the state, the reads not yet made, and
      whether the old instance, with all that was queued on it, was dropped. */
  datatype LoopEnd = LoopEnd(s: Monitor, chunks: seq<seq<Event>>, rebuilt: bool)

  /** processInotifyEvents() with `buf` in the buffer. `chunks` are the results
      of the reads to come; an empty one is a read that the alarm interrupted. */
  function Loop(s: Monitor, buf: seq<Event>, chunks: seq<seq<Event>>, firstTry: bool): (e: LoopEnd)
    requires WfKernel(s.k) && AllKernel(buf) && AllReads(chunks)
    ensures WfKernel(e.s.k) && AllReads(e.chunks)
    ensures TotalLen(e.chunks) <= |buf| + TotalLen(chunks) && |e.chunks| <= |chunks|
    decreases |buf| + TotalLen(chunks), |chunks|, firstTry
  {
    if buf == [] || s.exited then LoopEnd(s, chunks, false)
    else match Process(s, buf, firstTry)
      case Consumed(s', n) => Loop(s', buf[n..], chunks, true)
      case Rebuilt(s') => LoopEnd(s', chunks, true)
      case Hanging =>
        if chunks == [] then Loop(s, buf, [], false)
        else Loop(s, buf + chunks[0], chunks[1..], false)
  }

  /** Calls of processInotifyEvents() until every event has been read. */
  function Serve(s: Monitor, chunks: seq<seq<Event>>): (s': Monitor)
    requires WfKernel(s.k) && AllReads(chunks)
    ensures WfKernel(s'.k)
    decreases |chunks|
  {
    if chunks == [] || s.exited then s
    else
      var e := Loop(s, chunks[0], chunks[1..], true);
      if e.rebuilt then e.s else Serve(e.s, e.chunks)
  }
}
