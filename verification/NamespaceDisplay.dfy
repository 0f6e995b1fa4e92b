/** Displaying the discovered namespaces as an indented tree. */
module NamespaceDisplay {
  import opened NamespaceKernel
  import opened Namespaces
  import opened Options

  /** One namespace and its level of indentation. */
  datatype Line = Line(ns: NsId, level: nat)

  /** The entries at or below `a`. */
  ghost function Below(k: Kernel, l: NsList, a: NsId): set<NsId>
    requires Wf(k) && Linked(k, l, {})
  {
    set x | x in l && a in Chain(k, x)
  }

  /** A child's subtree is strictly smaller. */
  lemma BelowChild(k: Kernel, l: NsList, p: NsId, c: NsId)
    requires Wf(k) && Linked(k, l, {}) && p in l && c in l[p].children
    ensures c in l && Parent(k, c) == Some(p) && Depth(k, c) == Depth(k, p) + 1
    ensures Below(k, l, c) < Below(k, l, p) && p !in Below(k, l, c)
  {
    assert ChildOf(k, l, {}, p, c);
    RankParent(k, c);
    hide Linked, Wf;
    forall x | x in Below(k, l, c) ensures x in Below(k, l, p) {
      ChainDepth(k, x, c);
    }
    if p in Below(k, l, c) {
      ChainDepth(k, p, c);
    }
    assert p in Below(k, l, p);
  }

  /** The entries that are printed: user namespaces, and those of the selected types. */
  function Selected(l: NsList, namespaces: bv32): NsId -> bool {
    ns => ns in l && (l[ns].nsType == CLONE_NEWUSER || l[ns].nsType & namespaces != 0)
  }

  /** What is printed of the tree of an entry, by the number of its type: user namespaces always,
      and others if their bit is set. */
  lemma PrintedTypes(k: Kernel, l: NsList, ns: NsId, namespaces: bv32, x: NsId)
    requires Wf(k) && Linked(k, l, {}) && ns in l && x in Below(k, l, ns)
    ensures var lines := DisplayTree(k, l, ns, 0, Selected(l, namespaces));
            (exists i :: 0 <= i < |lines| && lines[i].ns == x) <==>
            l[x].nsType == 0x1000_0000 || l[x].nsType & namespaces != 0
  {
    assert x in l;
    hide Wf, Linked, Below, DisplayTree;
    TreeLists(k, l, ns, 0, Selected(l, namespaces));
  }

  /** The entries that are visited: all. */
  function Visited(l: NsList): NsId -> bool {
    ns => ns in l
  }

  /** displayNamespaceTree(): print the entry if it is selected, then descend. With `Visited`,
      the entries that the recursion comes to. */
  function DisplayTree(k: Kernel, l: NsList, ns: NsId, level: nat, sel: NsId -> bool): seq<Line>
    requires Wf(k) && Linked(k, l, {}) && ns in l
    decreases Below(k, l, ns), |l[ns].children| + 1
  {
    (if sel(ns) then [Line(ns, level)] else []) + DisplayChildren(k, l, ns, 0, level + 1, sel)
  }

  function DisplayChildren(k: Kernel, l: NsList, ns: NsId, i: nat, level: nat, sel: NsId -> bool): seq<Line>
    requires Wf(k) && Linked(k, l, {}) && ns in l && i <= |l[ns].children|
    decreases Below(k, l, ns), |l[ns].children| - i
  {
    if i == |l[ns].children| then []
    else
      var c := l[ns].children[i];
      BelowChild(k, l, ns, c);
      DisplayTree(k, l, c, level, sel) + DisplayChildren(k, l, ns, i + 1, level, sel)
  }

  /** The subtrees of the first `i` children. */
  ghost function BelowFirst(k: Kernel, l: NsList, p: NsId, i: nat): set<NsId>
    requires Wf(k) && Linked(k, l, {}) && p in l && i <= |l[p].children|
  {
    set x | x in l && exists j :: i <= j < |l[p].children| && l[p].children[j] in Chain(k, x)
  }

  /** `lines` are the shown entries of `dirs`, each once, at its depth above `base`. */
  ghost predicate Lists(k: Kernel, l: NsList, lines: seq<Line>, dirs: set<NsId>, base: int, sel: NsId -> bool)
    requires Wf(k) && Linked(k, l, {}) && dirs <= l.Keys
  {
    && (forall i, j :: 0 <= i < j < |lines| ==> lines[i].ns != lines[j].ns)
    && (forall i :: 0 <= i < |lines| ==>
          && lines[i].ns in dirs && sel(lines[i].ns)
          && lines[i].level == base + Depth(k, lines[i].ns))
    && (forall x :: x in dirs && sel(x) ==> exists i :: 0 <= i < |lines| && lines[i].ns == x)
  }

  lemma ListsAppend(k: Kernel, l: NsList, a: seq<Line>, b: seq<Line>, x: set<NsId>, y: set<NsId>, base: int,
                    sel: NsId -> bool)
    requires Wf(k) && Linked(k, l, {}) && x <= l.Keys && y <= l.Keys && x !! y
    requires Lists(k, l, a, x, base, sel) && Lists(k, l, b, y, base, sel)
    ensures Lists(k, l, a + b, x + y, base, sel)
  {
    hide Wf, Linked, Depth;
    forall z | z in x + y && sel(z) ensures exists i :: 0 <= i < |a + b| && (a + b)[i].ns == z {
      if z in x {
        var i :| 0 <= i < |a| && a[i].ns == z;
        assert (a + b)[i].ns == z;
      } else {
        var i :| 0 <= i < |b| && b[i].ns == z;
        assert (a + b)[|a| + i].ns == z;
      }
    }
  }

  lemma BelowSplits(k: Kernel, l: NsList, p: NsId, i: nat)
    requires Wf(k) && Linked(k, l, {}) && p in l && i < |l[p].children|
    ensures BelowFirst(k, l, p, i) == Below(k, l, l[p].children[i]) + BelowFirst(k, l, p, i + 1)
    ensures Below(k, l, l[p].children[i]) !! BelowFirst(k, l, p, i + 1)
  {
    var cs := l[p].children;
    forall x | x in Below(k, l, cs[i]) ensures x !in BelowFirst(k, l, p, i + 1) {
      if x in BelowFirst(k, l, p, i + 1) {
        var j :| i + 1 <= j < |cs| && cs[j] in Chain(k, x);
        BelowChild(k, l, p, cs[i]);
        BelowChild(k, l, p, cs[j]);
        ChainAtDepth(k, x, cs[i], cs[j]);
      }
    }
  }

  lemma BelowIsChildren(k: Kernel, l: NsList, p: NsId)
    requires Wf(k) && Linked(k, l, {}) && p in l
    ensures Below(k, l, p) == {p} + BelowFirst(k, l, p, 0) && p !in BelowFirst(k, l, p, 0)
    ensures Below(k, l, p) <= l.Keys
  {
    var cs := l[p].children;
    forall x | x in Below(k, l, p) && x != p ensures x in BelowFirst(k, l, p, 0) {
      var c := ChildTowards(k, l, p, x);
      assert ChildOf(k, l, {}, p, c);
      assert c in cs;
    }
    forall x | x in BelowFirst(k, l, p, 0) ensures x in Below(k, l, p) && x != p {
      var j :| 0 <= j < |cs| && cs[j] in Chain(k, x);
      BelowChild(k, l, p, cs[j]);
      assert x in Below(k, l, cs[j]);
    }
  }

  /** Below an entry, but not it: below one of its children. */
  lemma {:induction false} ChildTowards(k: Kernel, l: NsList, p: NsId, x: NsId) returns (c: NsId)
    requires Wf(k) && Linked(k, l, {}) && x in l && p in Chain(k, x) && x != p
    ensures c in l && c in Chain(k, x) && Parent(k, c) == Some(p)
    decreases Rank(k, x)
  {
    RankParent(k, x);
    var q := Parent(k, x).value;
    if q == p {
      c := x;
    } else {
      c := ChildTowards(k, l, p, q);
    }
  }

  lemma {:induction false} TreeLists(k: Kernel, l: NsList, ns: NsId, level: nat, sel: NsId -> bool)
    requires Wf(k) && Linked(k, l, {}) && ns in l
    ensures Lists(k, l, DisplayTree(k, l, ns, level, sel), Below(k, l, ns), level - Depth(k, ns), sel)
    decreases Below(k, l, ns), |l[ns].children| + 1
  {
    hide Wf, Linked, Lists, Below, BelowFirst, Depth, DisplayChildren;
    ChildrenList(k, l, ns, 0, level + 1, sel);
    BelowIsChildren(k, l, ns);
    EntryFirst(k, l, ns, level, DisplayChildren(k, l, ns, 0, level + 1, sel), sel);
  }

  lemma EntryFirst(k: Kernel, l: NsList, ns: NsId, level: nat, lines: seq<Line>, sel: NsId -> bool)
    requires Wf(k) && Linked(k, l, {}) && ns in l && BelowFirst(k, l, ns, 0) <= l.Keys
    requires Known(k, ns) && Lists(k, l, lines, BelowFirst(k, l, ns, 0), level - Depth(k, ns), sel)
    ensures Lists(k, l, (if sel(ns) then [Line(ns, level)] else []) + lines, Below(k, l, ns), level - Depth(k, ns), sel)
  {
    hide Wf, Linked, Lists, Below, BelowFirst, Depth;
    BelowIsChildren(k, l, ns);
    OwnLine(k, l, ns, level, sel);
    var own := if sel(ns) then [Line(ns, level)] else [];
    ListsAppend(k, l, own, lines, {ns}, BelowFirst(k, l, ns, 0), level - Depth(k, ns), sel);
  }

  lemma OwnLine(k: Kernel, l: NsList, ns: NsId, level: nat, sel: NsId -> bool)
    requires Wf(k) && Linked(k, l, {}) && ns in l
    ensures Lists(k, l, if sel(ns) then [Line(ns, level)] else [], {ns}, level - Depth(k, ns), sel)
  {
    assert Known(k, ns);
    hide Wf, Linked, Depth;
    var own := if sel(ns) then [Line(ns, level)] else [];
    assert sel(ns) ==> own[0].ns == ns;
  }

  lemma {:induction false} ChildrenList(k: Kernel, l: NsList, ns: NsId, i: nat, level: nat, sel: NsId -> bool)
    requires Wf(k) && Linked(k, l, {}) && ns in l && i <= |l[ns].children|
    ensures Known(k, ns)
    ensures Lists(k, l, DisplayChildren(k, l, ns, i, level, sel), BelowFirst(k, l, ns, i),
                  level - Depth(k, ns) - 1, sel)
    decreases Below(k, l, ns), |l[ns].children| - i
  {
    assert Known(k, ns);
    hide Wf, Linked, Depth, Lists, Below, BelowFirst;
    var base := level - Depth(k, ns) - 1;
    if i == |l[ns].children| {
      NoChildren(k, l, ns, base, sel);
    } else {
      var c := l[ns].children[i];
      BelowChild(k, l, ns, c);
      TreeLists(k, l, c, level, sel);
      ChildrenList(k, l, ns, i + 1, level, sel);
      BelowSplits(k, l, ns, i);
      ListsAppend(k, l, DisplayTree(k, l, c, level, sel), DisplayChildren(k, l, ns, i + 1, level, sel),
                  Below(k, l, c), BelowFirst(k, l, ns, i + 1), base, sel);
    }
  }

  lemma NoChildren(k: Kernel, l: NsList, ns: NsId, base: int, sel: NsId -> bool)
    requires Wf(k) && Linked(k, l, {}) && ns in l
    ensures Lists(k, l, [], BelowFirst(k, l, ns, |l[ns].children|), base, sel)
  {
    hide Wf, Linked;
  }

  /** displayNamespaceHierarchies() without a "--subtree" option; None where it looks
      up a root that has no entry. */
  function DisplayHierarchies(k: Kernel, l: NsList, root: NsId, sel: NsId -> bool): Option<seq<Line>>
    requires Wf(k) && Linked(k, l, {})
  {
    if root !in l then None
    else Some(DisplayTree(k, l, root, 0, sel) + if INVIS in l then DisplayTree(k, l, INVIS, 0, sel) else [])
  }

  /** Of the namespaces in `keys`, one is topmost. */
  ghost predicate OneTop(k: Kernel, keys: set<NsId>) {
    exists t :: t in keys && IsTop(k, t) && forall u :: u in keys && IsTop(k, u) ==> u == t
  }

  /** What lies below the root or below the invisible entry. */
  ghost function Reached(k: Kernel, l: NsList, root: NsId): set<NsId>
    requires Wf(k) && Linked(k, l, {})
  {
    Below(k, l, root) + (if INVIS in l then Below(k, l, INVIS) else {})
  }

  lemma TwoTrees(k: Kernel, l: NsList, root: NsId)
    requires Wf(k) && Linked(k, l, {}) && root in l && IsTop(k, root)
    ensures Below(k, l, root) !! Below(k, l, INVIS)
    ensures Depth(k, root) == 0 && Depth(k, INVIS) == 0
  {
    forall x | x in Below(k, l, root) ensures x !in Below(k, l, INVIS) {
      if x in Below(k, l, INVIS) {
        ChainAtDepth(k, x, root, INVIS);
      }
    }
  }

  /** Everything is reached from a topmost namespace and the invisible entry exactly if there
      is no other topmost one. */
  lemma AllReached(k: Kernel, l: NsList, root: NsId)
    requires Wf(k) && Linked(k, l, {}) && root in l && IsTop(k, root)
    ensures Reached(k, l, root) <= l.Keys
    ensures forall t :: t in l && IsTop(k, t) && t != root ==> t !in Reached(k, l, root)
    ensures OneTop(k, l.Keys) ==> Reached(k, l, root) == l.Keys
  {
    forall t | t in l && IsTop(k, t) && t != root ensures t !in Reached(k, l, root) {
      assert Chain(k, t) == {t};
    }
    if OneTop(k, l.Keys) {
      forall x | x in l ensures x in Reached(k, l, root) {
        var t := ChainTop(k, x);
        ChainListed(k, l, {}, x);
      }
    }
  }

  /** Every selected entry is displayed once, at its depth in the hierarchy, exactly if one
      topmost namespace was discovered. If none was, the root recorded is the invisible
      entry, which is then displayed twice; if there were several, only the tree of the
      one recorded last is displayed. */
  lemma HierarchiesOnce(k: Kernel, l: NsList, root: NsId, sel: NsId -> bool)
    requires Wf(k) && Linked(k, l, {}) && RootOk(k, l.Keys, root) && (INVIS in l ==> sel(INVIS))
    requires forall t :: t in l && IsTop(k, t) ==> sel(t)
    ensures var d := DisplayHierarchies(k, l, root, sel);
            OneTop(k, l.Keys) <==> d.Some? && Lists(k, l, d.value, l.Keys, 0, sel)
  {
    hide Wf, Linked, Lists, IsTop, Reached, DisplayTree;
    if root in l && IsTop(k, root) {
      DisplayedAreReached(k, l, root, sel);
      AllReached(k, l, root);
      if !OneTop(k, l.Keys) {
        var t :| t in l && IsTop(k, t) && t != root;
        Missed(k, l, DisplayHierarchies(k, l, root, sel).value, Reached(k, l, root), sel, t);
      }
    } else if INVIS in l {
      TwiceWithoutTop(k, l, sel);
    }
  }

  lemma Missed(k: Kernel, l: NsList, lines: seq<Line>, dirs: set<NsId>, sel: NsId -> bool, t: NsId)
    requires Wf(k) && Linked(k, l, {}) && dirs <= l.Keys && t in l && t !in dirs && sel(t)
    requires Lists(k, l, lines, dirs, 0, sel)
    ensures !Lists(k, l, lines, l.Keys, 0, sel)
  {
    hide Wf, Linked, Depth;
  }

  /** With a topmost root, whatever else was discovered: the selected entries that are reached
      are displayed once, and no others. */
  lemma DisplayedAreReached(k: Kernel, l: NsList, root: NsId, sel: NsId -> bool)
    requires Wf(k) && Linked(k, l, {}) && root in l && IsTop(k, root)
    ensures var d := DisplayHierarchies(k, l, root, sel); d.Some? && Lists(k, l, d.value, Reached(k, l, root), 0, sel)
  {
    hide Linked, Wf, Lists, DisplayTree, IsTop;
    TwoTrees(k, l, root);
    TreeLists(k, l, root, 0, sel);
    var a := DisplayTree(k, l, root, 0, sel);
    if INVIS in l {
      TreeLists(k, l, INVIS, 0, sel);
      ListsAppend(k, l, a, DisplayTree(k, l, INVIS, 0, sel), Below(k, l, root), Below(k, l, INVIS), 0, sel);
    } else {
      assert a + [] == a && Reached(k, l, root) == Below(k, l, root);
    }
  }

  lemma TwiceWithoutTop(k: Kernel, l: NsList, sel: NsId -> bool)
    requires Wf(k) && Linked(k, l, {}) && INVIS in l && sel(INVIS)
    ensures var a := DisplayTree(k, l, INVIS, 0, sel); !Lists(k, l, a + a, l.Keys, 0, sel)
  {
    var a := DisplayTree(k, l, INVIS, 0, sel);
    assert a[0].ns == INVIS;
    assert (a + a)[0].ns == INVIS && (a + a)[|a|].ns == INVIS;
  }

  // ----- When one topmost namespace is discovered ---------------------------

  /** Outside PID mode, what the kernel names as owner or parent is a user namespace. */
  ghost predicate OwnersAreUsers(k: Kernel) {
    forall ns :: ns in k.up && !k.pidMode ==> k.up[ns] in k.nsType && k.nsType[k.up[ns]] == CLONE_NEWUSER
  }

  /** A namespace that leads to a topmost one: a user namespace, one whose owner is
      visible, or any when only PID namespaces are looked at. */
  predicate Leads(k: Kernel, ns: NsId) {
    k.pidMode || ns in k.up || (ns in k.nsType && k.nsType[ns] == CLONE_NEWUSER)
  }

  lemma {:induction false} LeadsToTop(k: Kernel, ns: NsId)
    requires Wf(k) && OwnersAreUsers(k) && ns in k.nsType
    ensures TopAbove(k, ns).Some? <==> Leads(k, ns)
    ensures Leads(k, ns) <==> k.pidMode || ns in k.up || k.nsType[ns] == 0x1000_0000
    decreases Rank(k, ns)
  {
    if Parent(k, ns).Some? {
      RankParent(k, ns);
      if ns in k.up {
        LeadsToTop(k, k.up[ns]);
      }
    }
  }

  /** The topmost namespaces discovered are those above the namespaces given. */
  lemma {:induction false} TopsDiscovered(k: Kernel, seen: seq<(NsId, int)>, t: NsId)
    requires Wf(k) && IsTop(k, t) && forall i :: 0 <= i < |seen| ==> seen[i].0 in k.nsType
    ensures t in Closure(k, seen) <==> exists i :: 0 <= i < |seen| && TopAbove(k, seen[i].0) == Some(t)
    decreases |seen|
  {
    hide Wf, Chain, IsTop, TopAbove;
    if seen != [] {
      var n := |seen| - 1;
      TopsDiscovered(k, seen[..n], t);
      TopOfChain(k, seen[n].0, t);
      assert forall i :: 0 <= i < n ==> seen[..n][i] == seen[i];
    }
  }

  /** Some namespace given leads to a topmost one, and all that do lead to the same. */
  ghost predicate LeadToOne(k: Kernel, seen: seq<(NsId, int)>)
    requires Wf(k) && forall i :: 0 <= i < |seen| ==> seen[i].0 in k.nsType
  {
    && (exists i :: 0 <= i < |seen| && Leads(k, seen[i].0))
    && forall i, j :: 0 <= i < |seen| && 0 <= j < |seen| && Leads(k, seen[i].0) && Leads(k, seen[j].0) ==>
         TopAbove(k, seen[i].0) == TopAbove(k, seen[j].0)
  }

  lemma OneTopIff(k: Kernel, seen: seq<(NsId, int)>)
    requires Wf(k) && OwnersAreUsers(k) && forall i :: 0 <= i < |seen| ==> seen[i].0 in k.nsType
    ensures OneTop(k, Closure(k, seen)) <==> LeadToOne(k, seen)
  {
    hide Wf, OwnersAreUsers, Leads, Closure, IsTop, TopAbove;
    forall i | 0 <= i < |seen|
      ensures TopAbove(k, seen[i].0).Some? <==> Leads(k, seen[i].0)
      ensures TopAbove(k, seen[i].0).Some? ==> TopAbove(k, seen[i].0).value in Closure(k, seen)
    {
      LeadsToTop(k, seen[i].0);
      if TopAbove(k, seen[i].0).Some? {
        TopsDiscovered(k, seen, TopAbove(k, seen[i].0).value);
      }
    }
    forall t | t in Closure(k, seen) && IsTop(k, t)
      ensures exists i :: 0 <= i < |seen| && TopAbove(k, seen[i].0) == Some(t) && Leads(k, seen[i].0)
    {
      TopsDiscovered(k, seen, t);
    }
    if LeadToOne(k, seen) {
      var i :| 0 <= i < |seen| && Leads(k, seen[i].0);
      var t := TopAbove(k, seen[i].0).value;
      assert t in Closure(k, seen) && IsTop(k, t);
    }
  }

  /** Of what was added, everything is visited once at its true depth, and the user namespaces
      and those of selected types are printed once, exactly if the namespaces given lead to
      one topmost namespace. In PID mode all types are selected. */
  lemma DisplayedOnceIff(k: Kernel, l: NsList, root: NsId, seen: seq<(NsId, int)>, namespaces: bv32)
    requires Wf(k) && OwnersAreUsers(k) && forall i :: 0 <= i < |seen| ==> seen[i].0 in k.nsType
    requires Linked(k, l, {}) && RootOk(k, l.Keys, root) && l.Keys == Closure(k, seen)
    requires k.pidMode ==> forall ns :: ns in k.nsType ==> k.nsType[ns] & namespaces != 0
    ensures var d := DisplayHierarchies(k, l, root, Visited(l));
            (d.Some? && Lists(k, l, d.value, l.Keys, 0, Visited(l))) <==> LeadToOne(k, seen)
    ensures var d := DisplayHierarchies(k, l, root, Selected(l, namespaces));
            (d.Some? && Lists(k, l, d.value, l.Keys, 0, Selected(l, namespaces))) <==> LeadToOne(k, seen)
  {
    TopsSelected(k, l, namespaces);
    hide Wf, OwnersAreUsers, Linked, Lists, Closure, IsTop, Visited, Selected, DisplayHierarchies, LeadToOne, OneTop;
    OneTopIff(k, seen);
    HierarchiesOnce(k, l, root, Visited(l));
    HierarchiesOnce(k, l, root, Selected(l, namespaces));
  }

  lemma TopsSelected(k: Kernel, l: NsList, namespaces: bv32)
    requires Wf(k) && Linked(k, l, {})
    requires k.pidMode ==> forall ns :: ns in k.nsType ==> k.nsType[ns] & namespaces != 0
    ensures forall t :: t in l && (t == INVIS || IsTop(k, t)) ==> Visited(l)(t) && Selected(l, namespaces)(t)
  {
  }

  // ----- Displayed twice ----------------------------------------------------

  const MOUNT := NsId(4, 7)
  const SAMPLE := Kernel(map[MOUNT := 0x2_0000], map[], false)
  const SAMPLE_LIST: NsList := map[MOUNT := Attribs(0x2_0000, [1], []), INVIS := Attribs(0x1000_0000, [], [MOUNT])]

  lemma SampleWf()
    ensures Wf(SAMPLE) && Chain(SAMPLE, MOUNT) == {MOUNT, INVIS} && !IsTop(SAMPLE, MOUNT)
  {
    var rank: map<NsId, nat> := map[];
    assert Ranked(SAMPLE, rank);
    ParentListed(SAMPLE, MOUNT);
  }

  lemma SampleLinked()
    ensures Linked(SAMPLE, SAMPLE_LIST, {})
  {
    assert ChildOf(SAMPLE, SAMPLE_LIST, {}, INVIS, MOUNT);
  }

  /** All that can be linked from the mount namespace alone. */
  lemma SampleIsForced(l: NsList)
    requires Wf(SAMPLE) && Linked(SAMPLE, l, {}) && l.Keys == {MOUNT, INVIS}
    requires l[MOUNT].pids == [1] && l[INVIS].pids == []
    ensures l == SAMPLE_LIST
  {
    hide Wf;
    forall c ensures c in l[INVIS].children <==> c in {MOUNT} {
      assert c in l[INVIS].children <==> ChildOf(SAMPLE, l, {}, INVIS, c);
    }
    forall c ensures c in l[MOUNT].children <==> c in {} {
      assert c in l[MOUNT].children <==> ChildOf(SAMPLE, l, {}, MOUNT, c);
    }
    SizeOfNoDup(l[INVIS].children, {MOUNT});
    SizeOfNoDup(l[MOUNT].children, {});
    assert l[INVIS].children[0] in l[INVIS].children;
    assert l[INVIS] == SAMPLE_LIST[INVIS];
    assert l[MOUNT] == SAMPLE_LIST[MOUNT];
  }

  lemma {:induction false} SizeOfNoDup(s: seq<NsId>, elems: set<NsId>)
    requires NoDup(s) && forall c :: c in s <==> c in elems
    ensures |s| == |elems|
    decreases |s|
  {
    if s == [] {
      assert elems == {};
    } else {
      var n := |s| - 1;
      assert s == s[..n] + [s[n]];
      SizeOfNoDup(s[..n], elems - {s[n]});
      assert s[n] in elems;
    }
  }

  /** What the program makes of one process whose mount namespace it looks at. */
  method SampleRun() returns (info: NamespaceInfo)
    ensures info.k == SAMPLE && info.Valid({}) && info.nsList == SAMPLE_LIST && info.rootNS == INVIS
    ensures DisplayHierarchies(info.k, info.nsList, info.rootNS, Selected(info.nsList, 0)) ==
            Some([Line(NsId(0, 0), 0), Line(NsId(0, 0), 0)])
  {
    SampleWf();
    info := new NamespaceInfo(SAMPLE);
    info.AddNamespace(MOUNT, 1, {});
    SampleIsForced(info.nsList);
    DisplayedTwice();
  }

  /** A mount namespace whose owner is not visible, looked at alone: the entry for
      invisible owners is displayed as the root and then again. */
  lemma DisplayedTwice()
    ensures Wf(SAMPLE) && Linked(SAMPLE, SAMPLE_LIST, {})
    ensures DisplayHierarchies(SAMPLE, SAMPLE_LIST, INVIS, Selected(SAMPLE_LIST, 0)) ==
            Some([Line(NsId(0, 0), 0), Line(NsId(0, 0), 0)])
  {
    SampleWf();
    SampleLinked();
    hide Wf, Linked;
    var sel := Selected(SAMPLE_LIST, 0);
    assert sel(INVIS) && !sel(MOUNT);
    assert DisplayTree(SAMPLE, SAMPLE_LIST, MOUNT, 1, sel) == [];
    assert DisplayChildren(SAMPLE, SAMPLE_LIST, INVIS, 1, 1, sel) == [];
    assert DisplayChildren(SAMPLE, SAMPLE_LIST, INVIS, 0, 1, sel) == [] + [];
    assert DisplayTree(SAMPLE, SAMPLE_LIST, INVIS, 0, sel) == [Line(INVIS, 0)];
    assert [Line(INVIS, 0)] + [Line(INVIS, 0)] == [Line(INVIS, 0), Line(INVIS, 0)];
  }

  // ----- Not displayed ------------------------------------------------------

  const INNER := NsId(4, 8)
  const OUTER := NsId(4, 9)
  const PIDS_SAMPLE := Kernel(map[INNER := 0x2000_0000, OUTER := 0x2000_0000], map[], true)
  const PIDS_LIST: NsList :=
    map[INNER := Attribs(0x2000_0000, [1], []), OUTER := Attribs(0x2000_0000, [2], [])]

  lemma PidsWf()
    ensures Wf(PIDS_SAMPLE) && Linked(PIDS_SAMPLE, PIDS_LIST, {})
    ensures Chain(PIDS_SAMPLE, INNER) == {INNER} && Chain(PIDS_SAMPLE, OUTER) == {OUTER}
  {
    var rank: map<NsId, nat> := map[];
    assert Ranked(PIDS_SAMPLE, rank);
  }

  lemma PidsForced(l: NsList)
    requires Wf(PIDS_SAMPLE) && Linked(PIDS_SAMPLE, l, {}) && l.Keys == {INNER, OUTER}
    requires l[INNER].pids == [1] && l[OUTER].pids == [2]
    ensures l == PIDS_LIST
  {
    hide Wf;
    forall p, c | p in l ensures c in l[p].children <==> c in {} {
      assert c in l[p].children <==> ChildOf(PIDS_SAMPLE, l, {}, p, c);
    }
    SizeOfNoDup(l[INNER].children, {});
    SizeOfNoDup(l[OUTER].children, {});
    assert l[INNER] == PIDS_LIST[INNER];
    assert l[OUTER] == PIDS_LIST[OUTER];
  }

  /** Two PID namespaces whose parents are outside the caller's scope: both are topmost, and
      only the one added last is displayed. */
  method TwoRoots() returns (info: NamespaceInfo)
    ensures info.k == PIDS_SAMPLE && info.Valid({}) && info.nsList == PIDS_LIST && info.rootNS == OUTER
    ensures DisplayHierarchies(info.k, info.nsList, info.rootNS, Visited(info.nsList)) == Some([Line(OUTER, 0)])
  {
    PidsWf();
    info := new NamespaceInfo(PIDS_SAMPLE);
    info.AddNamespace(INNER, 1, {});
    info.AddNamespace(OUTER, 2, {});
    PidsForced(info.nsList);
    OuterOnly();
  }

  lemma OuterOnly()
    ensures Wf(PIDS_SAMPLE) && Linked(PIDS_SAMPLE, PIDS_LIST, {})
    ensures DisplayHierarchies(PIDS_SAMPLE, PIDS_LIST, OUTER, Visited(PIDS_LIST)) == Some([Line(OUTER, 0)])
  {
    PidsWf();
    hide Wf, Linked;
    var sel := Visited(PIDS_LIST);
    assert sel(OUTER);
    assert DisplayChildren(PIDS_SAMPLE, PIDS_LIST, OUTER, 0, 1, sel) == [];
    assert DisplayTree(PIDS_SAMPLE, PIDS_LIST, OUTER, 0, sel) == [Line(OUTER, 0)];
  }
}
