/** The order in which namespaces are displayed: each before what lies below it, a tree in one
    piece, and the children of a namespace as they are listed. */
module NamespaceOrder {
  import opened NamespaceKernel
  import opened Namespaces
  import opened NamespaceDisplay
  import opened Options

  ghost predicate Above(k: Kernel, a: NsId, b: NsId)
    requires Wf(k)
  {
    Known(k, b) && a in Chain(k, b)
  }

  /** What lies below a line follows it, without anything else in between. */
  ghost predicate InOrder(k: Kernel, lines: seq<Line>)
    requires Wf(k)
  {
    forall i, j :: 0 <= i < |lines| && 0 <= j < |lines| && Above(k, lines[i].ns, lines[j].ns) ==>
      i <= j && forall m :: i <= m <= j ==> Above(k, lines[i].ns, lines[m].ns)
  }

  /** The trees of the children of `p` come in the order of its list. */
  ghost predicate ChildrenInOrder(k: Kernel, l: NsList, lines: seq<Line>, p: NsId)
    requires Wf(k) && p in l
  {
    forall a, b, i, j :: 0 <= a < b < |l[p].children| && 0 <= i < |lines| && 0 <= j < |lines| ==>
      Above(k, l[p].children[a], lines[i].ns) && Above(k, l[p].children[b], lines[j].ns) ==> i < j
  }

  ghost predicate Within(lines: seq<Line>, dirs: set<NsId>) {
    forall i :: 0 <= i < |lines| ==> lines[i].ns in dirs
  }

  /** With an entry, everything below it. */
  ghost predicate Closed(k: Kernel, l: NsList, dirs: set<NsId>)
    requires Wf(k)
  {
    dirs <= l.Keys && forall a, b :: a in dirs && b in l && Above(k, a, b) ==> b in dirs
  }

  ghost predicate AllInOrder(k: Kernel, l: NsList, lines: seq<Line>, dirs: set<NsId>)
    requires Wf(k) && dirs <= l.Keys
  {
    && Within(lines, dirs) && InOrder(k, lines)
    && forall p :: p in dirs ==> ChildrenInOrder(k, l, lines, p)
  }

  // ----- Subtrees -----------------------------------------------------------

  lemma AboveTransitive(k: Kernel, a: NsId, b: NsId, c: NsId)
    requires Wf(k) && Above(k, a, b) && Above(k, b, c)
    ensures Above(k, a, c)
  {
    hide Wf;
    ChainDepth(k, c, b);
  }

  lemma BelowClosed(k: Kernel, l: NsList, ns: NsId)
    requires Wf(k) && Linked(k, l, {}) && ns in l
    ensures Closed(k, l, Below(k, l, ns))
  {
    hide Wf;
    forall a, b | a in Below(k, l, ns) && b in l && Above(k, a, b) ensures b in Below(k, l, ns) {
      AboveTransitive(k, ns, a, b);
    }
  }

  lemma BelowFirstClosed(k: Kernel, l: NsList, ns: NsId, i: nat)
    requires Wf(k) && Linked(k, l, {}) && ns in l && i <= |l[ns].children|
    ensures Closed(k, l, BelowFirst(k, l, ns, i))
  {
    hide Wf;
    forall a, b | a in BelowFirst(k, l, ns, i) && b in l && Above(k, a, b) ensures b in BelowFirst(k, l, ns, i) {
      var j :| i <= j < |l[ns].children| && l[ns].children[j] in Chain(k, a);
      AboveTransitive(k, l[ns].children[j], a, b);
    }
  }

  /** A child of an entry is not above anything that the entry is not above. */
  lemma ChildAbove(k: Kernel, l: NsList, p: NsId, a: nat, x: NsId)
    requires Wf(k) && Linked(k, l, {}) && p in l && a < |l[p].children| && Above(k, l[p].children[a], x)
    ensures Above(k, p, x) && x != p && l[p].children[a] in l
  {
    var c := l[p].children[a];
    BelowChild(k, l, p, c);
    hide Linked, Below;
    RankParent(k, c);
    assert p in Chain(k, c);
    AboveTransitive(k, p, c, x);
    ChainDepth(k, x, c);
  }

  /** Two children of an entry have nothing below them in common. */
  lemma OneChildAbove(k: Kernel, l: NsList, p: NsId, a: nat, b: nat, x: NsId)
    requires Wf(k) && Linked(k, l, {}) && p in l && a < |l[p].children| && b < |l[p].children|
    requires Above(k, l[p].children[a], x) && Above(k, l[p].children[b], x)
    ensures a == b
  {
    BelowChild(k, l, p, l[p].children[a]);
    BelowChild(k, l, p, l[p].children[b]);
    ChainAtDepth(k, x, l[p].children[a], l[p].children[b]);
    assert NoDup(l[p].children);
  }

  // ----- Putting lines together ---------------------------------------------

  lemma OrderAppend(k: Kernel, l: NsList, x: seq<Line>, y: seq<Line>, dx: set<NsId>, dy: set<NsId>)
    requires Wf(k) && Closed(k, l, dx) && Closed(k, l, dy) && dx !! dy
    requires Within(x, dx) && Within(y, dy) && InOrder(k, x) && InOrder(k, y)
    ensures InOrder(k, x + y)
  {
    hide Wf, Above;
    var n := |x|;
    forall i, j | 0 <= i < |x + y| && 0 <= j < |x + y| && Above(k, (x + y)[i].ns, (x + y)[j].ns)
      ensures i <= j && forall m :: i <= m <= j ==> Above(k, (x + y)[i].ns, (x + y)[m].ns)
    {
      if j < n {
        assert (x + y)[j] == x[j];
        assert i < n && (x + y)[i] == x[i];
        assert forall m :: i <= m <= j ==> (x + y)[m] == x[m];
      } else {
        assert (x + y)[j] == y[j - n];
        assert i >= n && (x + y)[i] == y[i - n];
        assert i - n <= j - n;
        forall m | i <= m <= j ensures Above(k, (x + y)[i].ns, (x + y)[m].ns) {
          assert (x + y)[m] == y[m - n];
          assert Above(k, y[i - n].ns, y[m - n].ns);
        }
      }
    }
  }

  /** Lines for which `p` is not above do not matter for its children. */
  lemma ChildrenAppend(k: Kernel, l: NsList, x: seq<Line>, y: seq<Line>, p: NsId)
    requires Wf(k) && Linked(k, l, {}) && p in l
    requires || (ChildrenInOrder(k, l, x, p) && forall i :: 0 <= i < |y| ==> !Above(k, p, y[i].ns) || y[i].ns == p)
             || (ChildrenInOrder(k, l, y, p) && forall i :: 0 <= i < |x| ==> !Above(k, p, x[i].ns) || x[i].ns == p)
    ensures ChildrenInOrder(k, l, x + y, p)
  {
    hide Wf, Linked, Above;
    var n, cs := |x|, l[p].children;
    forall a, b, i, j |
      && 0 <= a < b < |cs| && 0 <= i < |x + y| && 0 <= j < |x + y|
      && Above(k, cs[a], (x + y)[i].ns) && Above(k, cs[b], (x + y)[j].ns)
      ensures i < j
    {
      ChildAbove(k, l, p, a, (x + y)[i].ns);
      ChildAbove(k, l, p, b, (x + y)[j].ns);
      assert (x + y)[i] == (if i < n then x[i] else y[i - n]);
      assert (x + y)[j] == (if j < n then x[j] else y[j - n]);
      assert i < n <==> j < n;
    }
  }

  lemma AllAppend(k: Kernel, l: NsList, x: seq<Line>, y: seq<Line>, dx: set<NsId>, dy: set<NsId>)
    requires Wf(k) && Linked(k, l, {}) && Closed(k, l, dx) && Closed(k, l, dy) && dx !! dy
    requires AllInOrder(k, l, x, dx) && AllInOrder(k, l, y, dy)
    ensures AllInOrder(k, l, x + y, dx + dy)
  {
    hide Wf, Linked, Above, InOrder, ChildrenInOrder;
    OrderAppend(k, l, x, y, dx, dy);
    forall p | p in dx + dy ensures ChildrenInOrder(k, l, x + y, p) {
      ChildrenAppend(k, l, x, y, p);
    }
  }

  /** The tree of one child, followed by those of later ones. */
  lemma ChildFirst(k: Kernel, l: NsList, ns: NsId, i: nat, x: seq<Line>, y: seq<Line>)
    requires Wf(k) && Linked(k, l, {}) && ns in l && i < |l[ns].children|
    requires Within(x, Below(k, l, l[ns].children[i])) && Within(y, BelowFirst(k, l, ns, i + 1))
    requires ChildrenInOrder(k, l, y, ns)
    ensures ChildrenInOrder(k, l, x + y, ns)
  {
    hide Wf, Linked;
    var n, cs := |x|, l[ns].children;
    forall a, b, u, v |
      && 0 <= a < b < |cs| && 0 <= u < |x + y| && 0 <= v < |x + y|
      && Above(k, cs[a], (x + y)[u].ns) && Above(k, cs[b], (x + y)[v].ns)
      ensures u < v
    {
      if v < n {
        assert (x + y)[v] == x[v];
        OneChildAbove(k, l, ns, b, i, x[v].ns);
        BranchOf(k, l, ns, i, x, y, u, a);
      } else if u >= n {
        assert (x + y)[u] == y[u - n] && (x + y)[v] == y[v - n];
        assert u - n < v - n;
      }
    }
  }

  /** Every line lies below a child that is not before the first one. */
  lemma BranchOf(k: Kernel, l: NsList, ns: NsId, i: nat, x: seq<Line>, y: seq<Line>, u: nat, a: nat)
    requires Wf(k) && Linked(k, l, {}) && ns in l && i < |l[ns].children| && a < |l[ns].children| && u < |x + y|
    requires Within(x, Below(k, l, l[ns].children[i])) && Within(y, BelowFirst(k, l, ns, i + 1))
    requires Above(k, l[ns].children[a], (x + y)[u].ns)
    ensures i <= a
  {
    hide Wf, Linked;
    if u < |x| {
      assert (x + y)[u] == x[u];
      OneChildAbove(k, l, ns, a, i, x[u].ns);
    } else {
      assert (x + y)[u] == y[u - |x|];
      var j :| i + 1 <= j < |l[ns].children| && l[ns].children[j] in Chain(k, y[u - |x|].ns);
      OneChildAbove(k, l, ns, a, j, y[u - |x|].ns);
    }
  }

  /** An entry, followed by what lies below it. */
  lemma OwnFirst(k: Kernel, l: NsList, ns: NsId, own: seq<Line>, lines: seq<Line>)
    requires Wf(k) && Linked(k, l, {}) && ns in l && (own == [] || (|own| == 1 && own[0].ns == ns))
    requires Within(lines, BelowFirst(k, l, ns, 0)) && InOrder(k, lines)
    ensures InOrder(k, own + lines)
  {
    OwnAbove(k, l, ns, lines);
    hide Wf, Linked, BelowFirst, Above;
    if own != [] {
      var all := own + lines;
      assert all[0] == own[0] && forall m :: 0 < m < |all| ==> all[m] == lines[m - 1];
      forall i, j | 0 <= i < |all| && 0 <= j < |all| && Above(k, all[i].ns, all[j].ns)
        ensures i <= j && forall m :: i <= m <= j ==> Above(k, all[i].ns, all[m].ns)
      {
        if i > 0 {
          assert j > 0 && i - 1 <= j - 1;
        }
      }
    } else {
      assert own + lines == lines;
    }
  }

  lemma OwnAbove(k: Kernel, l: NsList, ns: NsId, lines: seq<Line>)
    requires Wf(k) && Linked(k, l, {}) && ns in l && Within(lines, BelowFirst(k, l, ns, 0))
    ensures Above(k, ns, ns)
    ensures forall m :: 0 <= m < |lines| ==> Above(k, ns, lines[m].ns) && !Above(k, lines[m].ns, ns)
  {
    BelowIsChildren(k, l, ns);
    EntryKnown(k, l, ns);
    hide Wf, BelowFirst, Chain;
    forall m | 0 <= m < |lines| ensures Above(k, ns, lines[m].ns) && !Above(k, lines[m].ns, ns) {
      assert lines[m].ns in Below(k, l, ns);
      EntryKnown(k, l, lines[m].ns);
      hide Linked;
      NotBoth(k, ns, lines[m].ns);
    }
  }

  lemma EntryKnown(k: Kernel, l: NsList, ns: NsId)
    requires Linked(k, l, {}) && ns in l
    ensures Known(k, ns)
  {
  }

  lemma NotBoth(k: Kernel, a: NsId, b: NsId)
    requires Wf(k) && Known(k, b) && a in Chain(k, b) && a != b
    ensures !Above(k, b, a)
  {
    hide Wf;
    ChainDepth(k, b, a);
    if Above(k, b, a) {
      ChainDepth(k, a, b);
    }
  }

  // ----- What is displayed --------------------------------------------------

  lemma {:induction false} TreeInOrder(k: Kernel, l: NsList, ns: NsId, level: nat, sel: NsId -> bool)
    requires Wf(k) && Linked(k, l, {}) && ns in l
    ensures AllInOrder(k, l, DisplayTree(k, l, ns, level, sel), Below(k, l, ns))
    decreases Below(k, l, ns), |l[ns].children| + 1
  {
    hide Wf, Linked, Below, BelowFirst, InOrder, ChildrenInOrder, Above, DisplayChildren;
    var own := if sel(ns) then [Line(ns, level)] else [];
    var lines := DisplayChildren(k, l, ns, 0, level + 1, sel);
    ListInOrder(k, l, ns, 0, level + 1, sel);
    BelowIsChildren(k, l, ns);
    OwnFirst(k, l, ns, own, lines);
    forall p | p in Below(k, l, ns) ensures ChildrenInOrder(k, l, own + lines, p) {
      OwnChildless(k, l, ns, own, p);
      ChildrenAppend(k, l, own, lines, p);
    }
  }

  lemma OwnChildless(k: Kernel, l: NsList, ns: NsId, own: seq<Line>, p: NsId)
    requires Wf(k) && Linked(k, l, {}) && ns in l && p in Below(k, l, ns)
    requires own == [] || (|own| == 1 && own[0].ns == ns)
    ensures forall i :: 0 <= i < |own| ==> !Above(k, p, own[i].ns) || own[i].ns == p
  {
    EntryKnown(k, l, p);
    hide Wf, Linked;
    if own != [] && p != ns {
      NotBoth(k, ns, p);
    }
  }

  lemma {:induction false} ListInOrder(k: Kernel, l: NsList, ns: NsId, i: nat, level: nat, sel: NsId -> bool)
    requires Wf(k) && Linked(k, l, {}) && ns in l && i <= |l[ns].children|
    ensures BelowFirst(k, l, ns, i) <= l.Keys
    ensures AllInOrder(k, l, DisplayChildren(k, l, ns, i, level, sel), BelowFirst(k, l, ns, i))
    ensures ChildrenInOrder(k, l, DisplayChildren(k, l, ns, i, level, sel), ns)
    decreases Below(k, l, ns), |l[ns].children| - i
  {
    BelowFirstClosed(k, l, ns, i);
    hide Wf, Linked, Below, BelowFirst, InOrder, ChildrenInOrder, Above;
    if i == |l[ns].children| {
      NothingInOrder(k, l, BelowFirst(k, l, ns, i) + {ns});
    } else {
      var c := l[ns].children[i];
      BelowChild(k, l, ns, c);
      TreeInOrder(k, l, c, level, sel);
      ListInOrder(k, l, ns, i + 1, level, sel);
      BelowSplits(k, l, ns, i);
      BelowClosed(k, l, c);
      BelowFirstClosed(k, l, ns, i + 1);
      var x, y := DisplayTree(k, l, c, level, sel), DisplayChildren(k, l, ns, i + 1, level, sel);
      AllAppend(k, l, x, y, Below(k, l, c), BelowFirst(k, l, ns, i + 1));
      ChildFirst(k, l, ns, i, x, y);
    }
  }

  lemma NothingInOrder(k: Kernel, l: NsList, dirs: set<NsId>)
    requires Wf(k) && dirs <= l.Keys
    ensures InOrder(k, []) && forall p :: p in dirs ==> ChildrenInOrder(k, l, [], p)
  {
    hide Wf;
  }

  /** The whole display with a topmost root: the tree of the root, and after it what belongs to
      invisible owners. In each, an entry comes first and then, in one piece, what lies below
      it, child by child in the order of its list. */
  lemma HierarchyInOrder(k: Kernel, l: NsList, root: NsId, sel: NsId -> bool)
    requires Wf(k) && Linked(k, l, {}) && root in l && IsTop(k, root)
    ensures var d := DisplayHierarchies(k, l, root, sel);
            && d.Some? && AllInOrder(k, l, d.value, Reached(k, l, root))
            && forall i, j :: 0 <= i < |d.value| && 0 <= j < |d.value| ==>
                 Above(k, root, d.value[i].ns) && Above(k, INVIS, d.value[j].ns) ==> i < j
  {
    hide Wf, Linked, Below, InOrder, ChildrenInOrder, DisplayTree, IsTop;
    TwoTrees(k, l, root);
    TreeInOrder(k, l, root, 0, sel);
    BelowClosed(k, l, root);
    var x := DisplayTree(k, l, root, 0, sel);
    if INVIS in l {
      var y := DisplayTree(k, l, INVIS, 0, sel);
      TreeInOrder(k, l, INVIS, 0, sel);
      BelowClosed(k, l, INVIS);
      AllAppend(k, l, x, y, Below(k, l, root), Below(k, l, INVIS));
      RootFirst(k, l, root, x, y);
    } else {
      assert x + [] == x && Below(k, l, root) + {} == Below(k, l, root);
      RootFirst(k, l, root, x, []);
    }
  }

  lemma RootFirst(k: Kernel, l: NsList, root: NsId, x: seq<Line>, y: seq<Line>)
    requires Wf(k) && Linked(k, l, {}) && root in l && Below(k, l, root) !! Below(k, l, INVIS)
    requires Within(x, Below(k, l, root)) && Within(y, Below(k, l, INVIS))
    ensures forall i, j :: 0 <= i < |x + y| && 0 <= j < |x + y| ==>
              Above(k, root, (x + y)[i].ns) && Above(k, INVIS, (x + y)[j].ns) ==> i < j
  {
    assert forall m :: m in l ==> Known(k, m);
    hide Wf, Linked;
    forall m | 0 <= m < |x + y|
      ensures m < |x| ==> !Above(k, INVIS, (x + y)[m].ns)
      ensures m >= |x| ==> !Above(k, root, (x + y)[m].ns)
    {
      if m < |x| {
        assert (x + y)[m].ns in Below(k, l, root);
      } else {
        assert (x + y)[m].ns == y[m - |x|].ns && (x + y)[m].ns in Below(k, l, INVIS);
      }
    }
  }
}
