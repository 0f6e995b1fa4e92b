/** How each step of the monitor changes the correspondence between watched
    directories and cached pathnames. */
module MonitorViews {
  import opened Pathnames
  import opened DirTree
  import opened Inotify
  import opened MonitorModel

  /** A view gives the pathname under which the cache lists each watched directory. */
  type View = map<DirId, string>

  /** The cache holds the view, entry by entry under the kernel's descriptors, and
      besides it only the `stale` entries, whose watch the kernel has dropped. */
  ghost predicate Entries(s: Monitor, view: View, stale: map<int, string>)
    requires WfTable(s.k) && view.Keys == s.k.watch.Keys
  {
    && s.cache.Keys == s.k.dirOf.Keys + stale.Keys
    && s.k.dirOf.Keys !! stale.Keys
    && (forall wd :: wd in s.k.dirOf ==> s.cache[wd] == view[s.k.dirOf[wd]])
    && (forall wd :: wd in stale ==> 1 <= wd < s.k.nextWd && s.cache[wd] == stale[wd])
  }

  ghost predicate Mirrors(s: Monitor, view: View, stale: map<int, string>) {
    WfKernel(s.k) && view.Keys == s.k.watch.Keys && Entries(s, view, stale)
  }

  /** IN_MOVE_SELF is requested for exactly the watched roots. */
  ghost predicate SelfMoves(s: Monitor, view: View) {
    forall d :: d in view ==> (d in s.k.selfMove <==> IsRoot(s.roots, view[d]))
  }

  ghost predicate InView(view: View, p: string) {
    exists d :: d in view && view[d] == p
  }

  lemma InCacheIsInView(s: Monitor, view: View, stale: map<int, string>, p: string)
    requires Mirrors(s, view, stale)
    ensures InCache(s.cache, p) <==> InView(view, p) || InCache(stale, p)
  {
    hide Wf;
    if InCache(s.cache, p) {
      var wd :| wd in s.cache && s.cache[wd] == p;
      if wd in s.k.dirOf {
        assert view[s.k.dirOf[wd]] == p;
      }
    }
    if InView(view, p) {
      var d :| d in view && view[d] == p;
      var wd := s.k.watch[d];
      assert wd in s.k.dirOf && wd in s.cache && s.cache[wd] == p;
    }
    if InCache(stale, p) {
      var wd :| wd in stale && stale[wd] == p;
      assert wd in s.cache && s.cache[wd] == p;
    }
  }

  lemma CachedAs(s: Monitor, view: View, stale: map<int, string>, d: DirId)
    requires Mirrors(s, view, stale) && d in view
    ensures var wd := s.k.watch[d]; 1 <= wd && wd in s.k.dirOf && wd in s.cache && s.cache[wd] == view[d]
  {
    hide Wf;
    assert s.k.watch[d] in s.k.dirOf;
  }

  // ----- Walking a subtree --------------------------------------------------

  ghost function Extend(view: View, t: Tree, ds: set<DirId>): View
    requires Wf(t) && ds <= t.Keys
  {
    map d | d in view.Keys + ds :: if d in view then view[d] else PathOf(t, d)
  }

  /** The view gives the directories of `dirs` the pathnames they have in the tree. */
  ghost predicate UpToDate(view: View, t: Tree, dirs: set<DirId>)
    requires Wf(t) && dirs <= t.Keys
  {
    forall d :: d in dirs && d in view ==> view[d] == PathOf(t, d)
  }

  lemma ExtendTwice(view: View, t: Tree, a: set<DirId>, b: set<DirId>)
    requires Wf(t) && a <= t.Keys && b <= t.Keys
    ensures Extend(Extend(view, t, a), t, b) == Extend(view, t, a + b)
  {
    hide Wf;
  }

  lemma VisitWatched(s: Monitor, view: View, stale: map<int, string>, d: DirId)
    requires Mirrors(s, view, stale) && d in s.k.tree && d in s.k.watch
    ensures Extend(view, s.k.tree, {d}) == view && Mirrors(Visit(s, d), view, stale)
  {
    hide Wf;
    assert s.k.watch[d] in s.k.dirOf;
    assert Visit(s, d).cache == s.cache;
  }

  lemma FreshWd(s: Monitor, view: View, stale: map<int, string>, d: DirId)
    requires Mirrors(s, view, stale) && d in s.k.tree && d !in s.k.watch
    ensures var wd, s' := s.k.nextWd, Visit(s, d);
            && wd !in s.cache && wd !in stale && wd !in s.k.dirOf
            && s'.cache == s.cache[wd := PathOf(s.k.tree, d)]
            && s'.k.dirOf == s.k.dirOf[wd := d] && s'.k.watch == s.k.watch[d := wd] && s'.k.nextWd == wd + 1
  {
    hide Wf;
  }

  lemma FreshEntries(s: Monitor, s': Monitor, view: View, stale: map<int, string>, d: DirId, p: string)
    requires Mirrors(s, view, stale) && d !in view && WfTable(s'.k)
    requires var wd := s.k.nextWd;
             && wd !in s.cache && wd !in stale
             && s'.cache == s.cache[wd := p] && s'.k.dirOf == s.k.dirOf[wd := d]
             && s'.k.watch == s.k.watch[d := wd] && s'.k.nextWd == wd + 1
    ensures Entries(s', view[d := p], stale)
  {
    hide Wf, Lists;
    forall wd | wd in s.k.dirOf ensures s.k.dirOf[wd] != d && s.k.dirOf[wd] in view {
      assert s.k.dirOf[wd] in s.k.watch;
    }
    hide WfTable;
  }

  lemma VisitFresh(s: Monitor, view: View, stale: map<int, string>, d: DirId)
    requires Mirrors(s, view, stale) && d in s.k.tree && d !in s.k.watch
    ensures Extend(view, s.k.tree, {d}) == view[d := PathOf(s.k.tree, d)]
    ensures Mirrors(Visit(s, d), view[d := PathOf(s.k.tree, d)], stale)
  {
    hide Wf, Visit, PathOf, Extend, Entries;
    FreshWd(s, view, stale, d);
    ExtendOne(view, s.k.tree, d);
    FreshEntries(s, Visit(s, d), view, stale, d, PathOf(s.k.tree, d));
  }

  lemma ExtendOne(view: View, t: Tree, d: DirId)
    requires Wf(t) && d in t && d !in view
    ensures Extend(view, t, {d}) == view[d := PathOf(t, d)]
  {
    hide Wf, PathOf;
  }

  lemma VisitMirrors(s: Monitor, view: View, stale: map<int, string>, d: DirId)
    requires Mirrors(s, view, stale) && d in s.k.tree
    ensures Mirrors(Visit(s, d), Extend(view, s.k.tree, {d}), stale)
    ensures SelfMoves(s, view) && UpToDate(view, s.k.tree, {d}) ==>
              SelfMoves(Visit(s, d), Extend(view, s.k.tree, {d}))
  {
    hide Wf, WfTable;
    if d in s.k.watch {
      VisitWatched(s, view, stale, d);
    } else {
      VisitFresh(s, view, stale, d);
    }
  }

  lemma {:induction false} VisitAllMirrors(s: Monitor, view: View, stale: map<int, string>, ds: seq<DirId>,
                                           dirs: set<DirId>)
    requires Mirrors(s, view, stale) && dirs <= s.k.tree.Keys && forall d :: d in ds <==> d in dirs
    ensures Mirrors(VisitAll(s, ds), Extend(view, s.k.tree, dirs), stale)
    ensures SelfMoves(s, view) && UpToDate(view, s.k.tree, dirs) ==>
              SelfMoves(VisitAll(s, ds), Extend(view, s.k.tree, dirs))
    decreases |ds|
  {
    hide Wf, WfTable, Entries, SelfMoves, Extend, UpToDate, Visit;
    var t := s.k.tree;
    if ds == [] {
      ExtendEmpty(view, t, dirs);
    } else {
      var d, rest := ds[0], set d | d in ds[1..];
      var view1 := Extend(view, t, {d});
      VisitMirrors(s, view, stale, d);
      VisitAllMirrors(Visit(s, d), view1, stale, ds[1..], rest);
      assert dirs == {d} + rest;
      ExtendTwice(view, t, {d}, rest);
      if UpToDate(view, t, dirs) {
        ExtendUpToDate(view, t, {d}, rest);
      }
    }
  }

  lemma ExtendEmpty(view: View, t: Tree, dirs: set<DirId>)
    requires Wf(t) && dirs == {}
    ensures Extend(view, t, dirs) == view
  {
    hide Wf;
  }

  lemma ExtendUpToDate(view: View, t: Tree, a: set<DirId>, b: set<DirId>)
    requires Wf(t) && a <= t.Keys && b <= t.Keys && UpToDate(view, t, a + b)
    ensures UpToDate(view, t, a) && UpToDate(Extend(view, t, a), t, b)
  {
    hide Wf;
  }

  ghost function Subtree(t: Tree, path: string): set<DirId>
    requires Wf(t)
  {
    set d | d in t && IsUnder(path, PathOf(t, d))
  }

  lemma WatchSubtreeMirrors(s: Monitor, view: View, stale: map<int, string>, path: string)
    requires Mirrors(s, view, stale)
    ensures var dirs := Subtree(s.k.tree, path);
            var view' := Extend(view, s.k.tree, dirs);
            && Mirrors(WatchSubtree(s, path), view', stale)
            && (SelfMoves(s, view) && UpToDate(view, s.k.tree, dirs) ==>
                  SelfMoves(WatchSubtree(s, path), view'))
  {
    hide Wf, WfTable, Entries;
    VisitAllMirrors(s, view, stale, Below(s.k.tree, s.k.order, path), Subtree(s.k.tree, path));
  }

  // ----- Rewriting and zapping ----------------------------------------------

  ghost function RewriteView(view: View, from: string, to: string): View {
    map d | d in view :: Rewrite(from, to, view[d])
  }

  lemma RewriteMirrors(s: Monitor, view: View, stale: map<int, string>, from: string, to: string)
    requires Mirrors(s, view, stale)
    ensures Mirrors(s.(cache := RewriteCache(s.cache, from, to)), RewriteView(view, from, to),
                    RewriteCache(stale, from, to))
  {
    hide Wf;
  }

  ghost function Without(view: View, path: string): View {
    map d | d in view && !IsUnder(path, view[d]) :: view[d]
  }

  lemma ZapMirrors(s: Monitor, view: View, stale: map<int, string>, path: string)
    requires Mirrors(s, view, stale)
    requires forall wd :: wd in stale ==> !IsUnder(path, stale[wd])
    ensures CanZap(s, path) && Mirrors(Zap(s, path), Without(view, path), stale)
    ensures SelfMoves(s, view) ==> SelfMoves(Zap(s, path), Without(view, path))
  {
    hide Wf, IsUnder;
    var s' := Zap(s, path);
    var view' := Without(view, path);
    var wds := Matched(s.cache, path);
    forall d | d in view ensures s.k.watch[d] in wds <==> IsUnder(path, view[d]) {
      CachedAs(s, view, stale, d);
    }
    assert view'.Keys == s'.k.watch.Keys;
    assert forall wd :: wd in stale ==> wd !in wds;
    assert s'.cache.Keys == s'.k.dirOf.Keys + stale.Keys;
  }

  lemma DropStale(s: Monitor, view: View, stale: map<int, string>, wd: int)
    requires Mirrors(s, view, stale) && wd in stale
    ensures Mirrors(s.(cache := s.cache - {wd}), view, stale - {wd})
  {
    hide Wf;
  }

  // ----- The read loop ------------------------------------------------------

  function Flatten(chunks: seq<seq<Event>>): (evs: seq<Event>) {
    if chunks == [] then [] else chunks[0] + Flatten(chunks[1..])
  }

  ghost predicate NoMovedFrom(evs: seq<Event>) {
    forall i :: 0 <= i < |evs| ==> KernelEvent(evs[i]) && !IsMovedFrom(evs[i])
  }

  /** The outcome for one event followed by others, none of them "moved from". */
  ghost function RunSingles(s: Monitor, evs: seq<Event>): (s': Monitor)
    requires WfKernel(s.k) && NoMovedFrom(evs)
    decreases |evs|
  {
    if evs == [] || s.exited then s
    else match Process(s, [evs[0]], false)
      case Consumed(s', _) => RunSingles(s', evs[1..])
      case Rebuilt(s') => s'
  }

  lemma RunSinglesCons(s: Monitor, e: Event, rest: seq<Event>, s': Monitor)
    requires WfKernel(s.k) && WfKernel(s'.k) && NoMovedFrom([e]) && NoMovedFrom(rest) && !s.exited
    requires Process(s, [e], false) == Consumed(s', 1)
    ensures NoMovedFrom([e] + rest) && RunSingles(s, [e] + rest) == RunSingles(s', rest)
  {
    hide Process, WfKernel;
    var evs := [e] + rest;
    assert [evs[0]] == [e] && evs[1..] == rest;
    assert IsMovedFrom([e][0]) == IsMovedFrom(e);
  }

  lemma RunSinglesRebuilt(s: Monitor, e: Event, rest: seq<Event>, s': Monitor)
    requires WfKernel(s.k) && NoMovedFrom([e]) && NoMovedFrom(rest) && !s.exited
    requires Process(s, [e], false) == Rebuilt(s')
    ensures NoMovedFrom([e] + rest) && RunSingles(s, [e] + rest) == s'
  {
    hide Process, WfKernel;
    var evs := [e] + rest;
    assert [evs[0]] == [e];
    assert IsMovedFrom([e][0]) == IsMovedFrom(e);
  }

  /** Descriptors are handed out in order: those that a walk adds are new. */
  lemma {:induction false} NewDescriptors(s: Monitor, ds: seq<DirId>)
    requires WfKernel(s.k) && forall d :: d in ds ==> d in s.k.tree
    ensures var k' := VisitAll(s, ds).k;
            s.k.nextWd <= k'.nextWd && forall wd :: wd in k'.dirOf ==> wd in s.k.dirOf || s.k.nextWd <= wd
    decreases |ds|
  {
    hide Wf, Lists, PathOf;
    if ds != [] {
      NewDescriptors(Visit(s, ds[0]), ds[1..]);
    }
  }

  ghost function ServeFrom(s: Monitor, buf: seq<Event>, chunks: seq<seq<Event>>, firstTry: bool): Monitor
    requires WfKernel(s.k) && AllKernel(buf) && AllReads(chunks)
  {
    var e := Loop(s, buf, chunks, firstTry);
    if e.rebuilt then e.s else Serve(e.s, e.chunks)
  }

  /** Only a "moved from" looks at the event after it. */
  lemma SingleProcess(s: Monitor, evs: seq<Event>, firstTry: bool)
    requires WfKernel(s.k) && evs != [] && KernelEvent(evs[0]) && !IsMovedFrom(evs[0])
    ensures Process(s, evs, firstTry) == Process(s, [evs[0]], false)
    ensures !Process(s, evs, firstTry).Hanging?
    ensures Process(s, evs, firstTry).Consumed? ==> Process(s, evs, firstTry).count == 1
  {
    hide Wf, WfTable, Rebuild, WatchSubtree, Zap, ZapRoot, CanZap;
  }

  lemma {:induction false} ServeSingles(s: Monitor, buf: seq<Event>, chunks: seq<seq<Event>>, firstTry: bool)
    requires WfKernel(s.k) && AllKernel(buf) && AllReads(chunks) && NoMovedFrom(buf + Flatten(chunks))
    ensures ServeFrom(s, buf, chunks, firstTry) == RunSingles(s, buf + Flatten(chunks))
    decreases |buf| + TotalLen(chunks), |chunks|
  {
    hide Wf, WfTable, Process;
    var evs := buf + Flatten(chunks);
    if s.exited {
    } else if buf == [] {
      if chunks != [] {
        assert evs == chunks[0] + Flatten(chunks[1..]);
        ServeSingles(s, chunks[0], chunks[1..], true);
      }
    } else {
      assert evs[0] == buf[0] && evs[1..] == buf[1..] + Flatten(chunks);
      var o := Process(s, [buf[0]], false);
      SingleProcess(s, buf, firstTry);
      if o.Consumed? {
        ServeSingles(o.s, buf[1..], chunks, true);
      }
    }
  }

  lemma ServeFlat(s: Monitor, chunks: seq<seq<Event>>)
    requires WfKernel(s.k) && AllReads(chunks) && NoMovedFrom(Flatten(chunks))
    ensures Serve(s, chunks) == RunSingles(s, Flatten(chunks))
  {
    assert [] + Flatten(chunks) == Flatten(chunks);
    ServeSingles(s, [], chunks, true);
  }

  lemma {:induction false} IgnoredSingles(s: Monitor, evs: seq<Event>)
    requires WfKernel(s.k) && NoMovedFrom(evs) && forall i :: 0 <= i < |evs| ==> IGNORED in evs[i].mask
    ensures RunSingles(s, evs) == s
    decreases |evs|
  {
    hide WfKernel;
    if evs != [] && !s.exited {
      var rest := evs[1..];
      assert evs == [evs[0]] + rest && KernelEvent(evs[0]);
      IgnoredSingles(s, rest);
      RunSinglesCons(s, evs[0], rest, s);
    }
  }

  /** Reading the "ignored" events that the removal of watches queues changes nothing. */
  lemma IgnoredIsIdle(s: Monitor, chunks: seq<seq<Event>>)
    requires WfKernel(s.k) && AllReads(chunks) && NoMovedFrom(Flatten(chunks))
    requires forall i :: 0 <= i < |Flatten(chunks)| ==> IGNORED in Flatten(chunks)[i].mask
    ensures Serve(s, chunks) == s
  {
    ServeFlat(s, chunks);
    IgnoredSingles(s, Flatten(chunks));
  }

  /** The "moved from" was read alone, and the read that followed it found nothing. */
  predicate Torn(chunks: seq<seq<Event>>) {
    if chunks == [] then false
    else if chunks[0] == [] then Torn(chunks[1..])
    else |chunks[0]| == 1 && (|chunks| == 1 || chunks[1] == [])
  }

  ghost function Continue(o: Outcome, rest: seq<Event>): Monitor
    requires !o.Hanging? && WfKernel(o.s.k) && NoMovedFrom(rest)
  {
    if o.Rebuilt? then o.s else RunSingles(o.s, rest)
  }

  ghost predicate PairSeen(chunks: seq<seq<Event>>, f: Event, rest: seq<Event>) {
    rest != [] && Pairs(f, rest[0]) && !Torn(chunks)
  }

  /** A lone "moved from" waits once, unless its descriptor is unknown. */
  lemma MovedFromAlone(s: Monitor, f: Event, c: seq<Event>, firstTry: bool)
    requires WfKernel(s.k) && KernelEvent(f) && IsMovedFrom(f)
    ensures if f.wd in s.cache then Process(s, [f], true) == Hanging
            else Process(s, [f] + c, firstTry) == Rebuilt(Rebuild(s))
  {
    hide Wf, WfTable, Rebuild, WatchSubtree, Zap, ZapRoot, CanZap;
    assert ([f] + c)[0] == f;
  }

  /** Every "moved from" at the end of a buffer waits for one more read, whether or not an
      earlier one did. */
  lemma EachMovedFromWaits(s: Monitor, buf: seq<Event>, chunks: seq<seq<Event>>, firstTry: bool, s': Monitor, f: Event)
    requires WfKernel(s.k) && AllKernel(buf) && AllReads(chunks) && buf != [] && !s.exited && !s'.exited
    requires var n := |buf| - 1; n > 0 && buf[n] == f && Process(s, buf, firstTry) == Consumed(s', n)
    requires IsMovedFrom(f) && IGNORED !in f.mask && f.wd in s'.cache
    ensures WfKernel(s'.k) && AllKernel([f]) && (chunks != [] ==> AllKernel([f] + chunks[0]) && AllReads(chunks[1..]))
    ensures Loop(s, buf, chunks, firstTry) ==
            if chunks == [] then Loop(s', [f], [], false) else Loop(s', [f] + chunks[0], chunks[1..], false)
  {
    hide WfKernel;
    var n := |buf| - 1;
    assert KernelEvent(buf[n]);
    MovedFromAlone(s', f, [], true);
    hide Process, KernelEvent;
    assert buf[n..] == [f];
    assert chunks != [] ==> AllKernel(chunks[0]);
  }

  lemma ServeHanging(s: Monitor, f: Event, chunks: seq<seq<Event>>)
    requires WfKernel(s.k) && KernelEvent(f) && IsMovedFrom(f) && AllReads(chunks) && !s.exited
    ensures AllKernel([f]) && (chunks != [] ==> AllKernel([f] + chunks[0]))
    ensures ServeFrom(s, [f], chunks, true) ==
            if chunks == [] then ServeFrom(s, [f], [], false) else ServeFrom(s, [f] + chunks[0], chunks[1..], false)
  {
    hide Wf, WfTable, Process, Rebuild;
    MovedFromAlone(s, f, [], true);
    MovedFromAlone(s, f, [], false);
    assert [f] + [] == [f];
    if chunks != [] {
      MovedFromAlone(s, f, chunks[0], false);
    }
  }

  /** However the reads split the events, a leading "moved from" is handled once:
      together with its partner unless an interrupted read tore the two apart. */
  lemma {:induction false} ServeMovedFrom(s: Monitor, chunks: seq<seq<Event>>, f: Event, rest: seq<Event>)
    requires WfKernel(s.k) && AllReads(chunks) && !s.exited
    requires KernelEvent(f) && IsMovedFrom(f) && NoMovedFrom(rest) && Flatten(chunks) == [f] + rest
    ensures Serve(s, chunks) ==
            if PairSeen(chunks, f, rest) then Continue(Process(s, [f, rest[0]], true), rest[1..])
            else Continue(Process(s, [f], false), rest)
    decreases |chunks|
  {
    hide Wf, WfTable, Process, Rebuild, Pairs, KernelEvent, IsMovedFrom, Continue, Loop;
    if chunks[0] == [] {
      assert Flatten(chunks) == Flatten(chunks[1..]);
      ServeEmpty(s, chunks);
      ServeMovedFrom(s, chunks[1..], f, rest);
    } else {
      assert Flatten(chunks)[0] == chunks[0][0];
      var c := chunks[0][1..];
      assert chunks[0] == [f] + c && rest == c + Flatten(chunks[1..]) by {
        assert ([f] + rest)[1..] == rest;
      }
      assert Serve(s, chunks) == ServeFrom(s, [f] + c, chunks[1..], true);
      if c != [] {
        ServeAfterMovedFrom(s, f, c, chunks[1..], true);
      } else {
        assert [f] + c == [f];
        ServeHanging(s, f, chunks[1..]);
        if |chunks| == 1 {
          assert [f] + [] == [f] && [] + Flatten([]) == rest;
          ServeAfterMovedFrom(s, f, [], [], false);
        } else {
          assert chunks[1..][0] == chunks[1] && chunks[1..][1..] == chunks[2..];
          assert rest == chunks[1] + Flatten(chunks[2..]);
          ServeAfterMovedFrom(s, f, chunks[1], chunks[2..], false);
        }
      }
    }
  }

  lemma ServeEmpty(s: Monitor, chunks: seq<seq<Event>>)
    requires WfKernel(s.k) && AllReads(chunks) && chunks != [] && chunks[0] == [] && !s.exited
    ensures Serve(s, chunks) == Serve(s, chunks[1..])
  {
    hide Wf, WfTable, Process;
  }

  lemma ServeAfterMovedFrom(s: Monitor, f: Event, c: seq<Event>, chunks: seq<seq<Event>>, firstTry: bool)
    requires WfKernel(s.k) && AllReads(chunks) && !s.exited
    requires KernelEvent(f) && IsMovedFrom(f) && NoMovedFrom(c + Flatten(chunks))
    requires c != [] || !firstTry
    ensures AllKernel([f] + c)
    ensures ServeFrom(s, [f] + c, chunks, firstTry) ==
            var rest := c + Flatten(chunks);
            if c != [] && Pairs(f, c[0]) then Continue(Process(s, [f, c[0]], true), rest[1..])
            else Continue(Process(s, [f], false), rest)
  {
    hide Wf, WfTable, Rebuild, WatchSubtree, Zap, ZapRoot, CanZap, KernelEvent;
    var buf := [f] + c;
    var rest := c + Flatten(chunks);
    assert forall i :: 0 <= i < |c| ==> c[i] == rest[i];
    if c != [] && Pairs(f, c[0]) {
      var o := Process(s, [f, c[0]], true);
      assert Process(s, buf, firstTry) == o;
      if o.Consumed? {
        assert buf[2..] == c[1..] && rest[1..] == c[1..] + Flatten(chunks);
        ServeSingles(o.s, c[1..], chunks, true);
      }
    } else {
      var o := Process(s, [f], false);
      assert Process(s, buf, firstTry) == o;
      if o.Consumed? {
        assert buf[1..] == c;
        ServeSingles(o.s, c, chunks, true);
      }
    }
  }
}
