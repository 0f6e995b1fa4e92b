/** What the kernel tells about namespaces: types, and who owns or parents whom. */
module NamespaceKernel {
  import opened Options

  const CLONE_NEWUSER: bv32 := 0x1000_0000

  datatype NsId = NsId(device: nat, inode: nat)

  /** The key of the special entry for owners that are not visible. */
  const INVIS := NsId(0, 0)

  /** `up` is what the ioctl() answers: the owning or parent namespace, and no answer
      where it fails with EPERM. With `pidMode`, only PID namespaces are looked at. */
  datatype Kernel = Kernel(nsType: map<NsId, bv32>, up: map<NsId, NsId>, pidMode: bool)

  predicate IsTop(k: Kernel, ns: NsId) {
    ns in k.nsType && ns !in k.up && (k.nsType[ns] == CLONE_NEWUSER || k.pidMode)
  }

  ghost predicate Ranked(k: Kernel, rank: map<NsId, nat>) {
    forall ns :: ns in k.up ==> ns in rank && k.up[ns] in rank && rank[k.up[ns]] < rank[ns]
  }

  /** Namespaces form a forest. Any number of them may be topmost, because the kernel gives
      no answer for a parent outside the caller's own scope. */
  ghost predicate Wf(k: Kernel) {
    && INVIS !in k.nsType
    && (forall ns :: ns in k.up ==> ns in k.nsType && k.up[ns] in k.nsType)
    && exists rank :: Ranked(k, rank)
  }

  predicate Known(k: Kernel, ns: NsId) {
    ns == INVIS || ns in k.nsType
  }

  /** The entry under which a namespace is listed. */
  function Parent(k: Kernel, ns: NsId): Option<NsId> {
    if ns == INVIS then None
    else if ns in k.up then Some(k.up[ns])
    else if IsTop(k, ns) then None
    else Some(INVIS)
  }

  ghost function Rank(k: Kernel, ns: NsId): nat
    requires Wf(k)
  {
    var rank :| Ranked(k, rank);
    if ns == INVIS then 0 else if ns in rank then rank[ns] + 1 else 1
  }

  lemma RankParent(k: Kernel, ns: NsId)
    requires Wf(k) && Known(k, ns) && Parent(k, ns).Some?
    ensures Known(k, Parent(k, ns).value) && Rank(k, Parent(k, ns).value) < Rank(k, ns)
  {
  }

  /** How far a namespace lies below the top of its tree. */
  ghost function Depth(k: Kernel, ns: NsId): nat
    requires Wf(k) && Known(k, ns)
    decreases Rank(k, ns)
  {
    match Parent(k, ns)
    case None => 0
    case Some(p) => RankParent(k, ns); 1 + Depth(k, p)
  }

  /** The namespace with everything above it. */
  ghost function Chain(k: Kernel, ns: NsId): (c: set<NsId>)
    requires Wf(k) && Known(k, ns)
    ensures ns in c && forall a :: a in c ==> Known(k, a)
    decreases Rank(k, ns)
  {
    match Parent(k, ns)
    case None => {ns}
    case Some(p) => RankParent(k, ns); {ns} + Chain(k, p)
  }

  lemma {:induction false} ChainDepth(k: Kernel, ns: NsId, a: NsId)
    requires Wf(k) && Known(k, ns) && a in Chain(k, ns)
    ensures a == ns || Depth(k, a) < Depth(k, ns)
    ensures Chain(k, a) <= Chain(k, ns)
    decreases Rank(k, ns)
  {
    if a != ns {
      RankParent(k, ns);
      ChainDepth(k, Parent(k, ns).value, a);
    }
  }

  /** At most one ancestor lies at a given depth. */
  lemma {:induction false} ChainAtDepth(k: Kernel, ns: NsId, a: NsId, b: NsId)
    requires Wf(k) && Known(k, ns) && a in Chain(k, ns) && b in Chain(k, ns) && Depth(k, a) == Depth(k, b)
    ensures a == b
    decreases Rank(k, ns)
  {
    ChainDepth(k, ns, a);
    ChainDepth(k, ns, b);
    if a != ns && b != ns {
      RankParent(k, ns);
      ChainAtDepth(k, Parent(k, ns).value, a, b);
    }
  }

  /** The topmost namespace above a namespace, if its chain ends at one. */
  ghost function TopAbove(k: Kernel, ns: NsId): (t: Option<NsId>)
    requires Wf(k) && Known(k, ns)
    ensures t.Some? ==> IsTop(k, t.value)
    decreases Rank(k, ns)
  {
    match Parent(k, ns)
    case None => if ns == INVIS then None else Some(ns)
    case Some(p) => RankParent(k, ns); TopAbove(k, p)
  }

  lemma {:induction false} TopOfChain(k: Kernel, ns: NsId, t: NsId)
    requires Wf(k) && Known(k, ns) && IsTop(k, t)
    ensures t in Chain(k, ns) <==> TopAbove(k, ns) == Some(t)
    decreases Rank(k, ns)
  {
    if Parent(k, ns).Some? {
      RankParent(k, ns);
      TopOfChain(k, Parent(k, ns).value, t);
    }
  }

  /** Every chain ends at a topmost namespace or at the invisible entry. */
  lemma {:induction false} ChainTop(k: Kernel, ns: NsId) returns (t: NsId)
    requires Wf(k) && Known(k, ns)
    ensures t in Chain(k, ns) && (t == INVIS || IsTop(k, t))
    decreases Rank(k, ns)
  {
    match Parent(k, ns)
    case None => t := ns;
    case Some(p) =>
      RankParent(k, ns);
      t := ChainTop(k, p);
  }
}

/** Discovering the namespaces: entries are created from a namespace upwards, and
    linked to their parents on the way back. */
module Namespaces {
  import opened NamespaceKernel
  import opened Options

  datatype Attribs = Attribs(nsType: bv32, pids: seq<int>, children: seq<NsId>)

  type NsList = map<NsId, Attribs>

  predicate NoDup(s: seq<NsId>) {
    forall i, j :: 0 <= i < j < |s| ==> s[i] != s[j]
  }

  function TypeOf(k: Kernel, ns: NsId): bv32
    requires Known(k, ns)
  {
    if ns == INVIS then CLONE_NEWUSER else k.nsType[ns]
  }

  /** `c` is to be listed as a child of `p`: it has been discovered, and the call that
      discovered it is not still busy above it. */
  predicate ChildOf(k: Kernel, l: NsList, pending: set<NsId>, p: NsId, c: NsId) {
    c in l && c !in pending && Parent(k, c) == Some(p)
  }

  /** The children lists are exactly the parent relation, each child listed once, and
      every parent has an entry; except for the namespaces of `pending`, which
      have entries but are not yet linked. */
  ghost predicate Linked(k: Kernel, l: NsList, pending: set<NsId>) {
    && (forall ns :: ns in l ==> Known(k, ns) && l[ns].nsType == TypeOf(k, ns))
    && (forall p :: p in l ==> NoDup(l[p].children))
    && (forall p, c :: p in l ==> (c in l[p].children <==> ChildOf(k, l, pending, p, c)))
    && (forall c :: c in l && c !in pending && Parent(k, c).Some? ==> Parent(k, c).value in l)
    && (INVIS in l ==> exists c :: ChildOf(k, l, pending, INVIS, c))
  }

  /** The root recorded is a topmost namespace, once one has been discovered. */
  ghost predicate RootOk(k: Kernel, keys: set<NsId>, root: NsId) {
    || (root in keys && IsTop(k, root))
    || (root == INVIS && forall t :: t in keys ==> !IsTop(k, t))
  }

  /** The root after adding a namespace: a topmost one not seen before replaces it. */
  ghost function RootAfter(k: Kernel, keys: set<NsId>, root: NsId, ns: NsId): NsId
    requires Wf(k) && Known(k, ns)
  {
    var t := TopAbove(k, ns);
    if t.Some? && t.value !in keys then t.value else root
  }

  lemma {:induction false} ChainListed(k: Kernel, l: NsList, pending: set<NsId>, ns: NsId)
    requires Wf(k) && Linked(k, l, pending) && ns in l
    requires forall p :: p in pending ==> Known(k, p) && Depth(k, ns) < Depth(k, p)
    ensures Chain(k, ns) <= l.Keys
    decreases Rank(k, ns)
  {
    if Parent(k, ns).Some? {
      RankParent(k, ns);
      assert ns !in pending;
      ChainListed(k, l, pending, Parent(k, ns).value);
    }
  }

  /** The PIDs that an entry holds; none before it exists. */
  function PidsIn(l: NsList, ns: NsId): seq<int> {
    if ns in l then l[ns].pids else []
  }

  lemma LinkNew(k: Kernel, l: NsList, pending: set<NsId>, ns: NsId)
    requires Wf(k) && Linked(k, l, pending) && ns !in l && ns in k.nsType && pending <= l.Keys
    ensures Linked(k, l[ns := Attribs(k.nsType[ns], [], [])], pending + {ns})
  {
    assert ns != INVIS;
    hide Wf;
    var l' := l[ns := Attribs(k.nsType[ns], [], [])];
    forall p, c | p in l' ensures c in l'[p].children <==> ChildOf(k, l', pending + {ns}, p, c) {
      assert p != ns ==> (c in l[p].children <==> ChildOf(k, l, pending, p, c));
    }
    if INVIS in l {
      var c :| ChildOf(k, l, pending, INVIS, c);
      assert ChildOf(k, l', pending + {ns}, INVIS, c);
    }
  }

  lemma LinkChild(k: Kernel, l: NsList, pending: set<NsId>, ns: NsId, p: NsId)
    requires Wf(k) && Linked(k, l, pending + {ns}) && ns in l && ns !in pending && Parent(k, ns) == Some(p) && p in l
    ensures Linked(k, l[p := l[p].(children := l[p].children + [ns])], pending)
  {
    hide Wf;
    var l' := l[p := l[p].(children := l[p].children + [ns])];
    assert ns !in l[p].children;
    forall q, c | q in l' ensures c in l'[q].children <==> ChildOf(k, l', pending, q, c) {
      assert c in l[q].children <==> ChildOf(k, l, pending + {ns}, q, c);
    }
    if INVIS in l' {
      var c :| ChildOf(k, l, pending + {ns}, INVIS, c);
      assert ChildOf(k, l', pending, INVIS, c);
    }
  }

  lemma LinkTop(k: Kernel, l: NsList, pending: set<NsId>, ns: NsId)
    requires Wf(k) && Linked(k, l, pending + {ns}) && ns in l && IsTop(k, ns)
    ensures Linked(k, l, pending)
  {
    hide Wf;
    forall p, c | p in l ensures c in l[p].children <==> ChildOf(k, l, pending, p, c) {
      assert c in l[p].children <==> ChildOf(k, l, pending + {ns}, p, c);
    }
    if INVIS in l {
      var c :| ChildOf(k, l, pending + {ns}, INVIS, c);
      assert ChildOf(k, l, pending, INVIS, c);
    }
  }

  /** Creating the invisible entry for its first child. */
  lemma LinkFirstInvisible(k: Kernel, l: NsList, pending: set<NsId>, ns: NsId)
    requires Wf(k) && Linked(k, l, pending + {ns}) && ns in l && ns !in pending
    requires Parent(k, ns) == Some(INVIS) && INVIS !in l
    ensures Linked(k, l[INVIS := Attribs(CLONE_NEWUSER, [], [ns])], pending)
  {
    hide Wf;
    var l' := l[INVIS := Attribs(CLONE_NEWUSER, [], [ns])];
    assert forall c :: c in l && c !in pending + {ns} ==> Parent(k, c) != Some(INVIS);
    forall q, c | q in l && q != INVIS ensures c in l'[q].children <==> ChildOf(k, l', pending, q, c) {
      assert c in l[q].children <==> ChildOf(k, l, pending + {ns}, q, c);
    }
    assert ChildOf(k, l', pending, INVIS, ns);
  }

  lemma LinkInvisible(k: Kernel, l: NsList, pending: set<NsId>, ns: NsId)
    requires Wf(k) && Linked(k, l, pending + {ns}) && ns in l && ns !in pending && Parent(k, ns) == Some(INVIS)
    ensures var l1 := if INVIS in l then l else l[INVIS := Attribs(CLONE_NEWUSER, [], [])];
            Linked(k, l1[INVIS := l1[INVIS].(children := l1[INVIS].children + [ns])], pending)
  {
    hide Wf;
    if INVIS in l {
      LinkChild(k, l, pending, ns, INVIS);
    } else {
      LinkFirstInvisible(k, l, pending, ns);
      var l1 := l[INVIS := Attribs(CLONE_NEWUSER, [], [])];
      assert l1[INVIS].children + [ns] == [ns];
      assert l1[INVIS := l1[INVIS].(children := l1[INVIS].children + [ns])] ==
             l[INVIS := Attribs(CLONE_NEWUSER, [], [ns])];
    }
  }

  lemma LinkedPids(k: Kernel, l: NsList, pending: set<NsId>, ns: NsId, pids: seq<int>)
    requires Linked(k, l, pending) && ns in l
    ensures Linked(k, l[ns := l[ns].(pids := pids)], pending)
  {
    var l' := l[ns := l[ns].(pids := pids)];
    forall p, c | p in l' ensures c in l'[p].children <==> ChildOf(k, l', pending, p, c) {
      assert c in l[p].children <==> ChildOf(k, l, pending, p, c);
    }
    if INVIS in l {
      var c :| ChildOf(k, l, pending, INVIS, c);
      assert ChildOf(k, l', pending, INVIS, c);
    }
  }

  lemma EntriesKnown(k: Kernel, l: NsList, pending: set<NsId>)
    requires Linked(k, l, pending) && pending <= l.Keys
    ensures forall p :: p in l ==> Known(k, p)
  {
  }

  lemma ParentListed(k: Kernel, ns: NsId)
    requires Wf(k) && ns in k.nsType
    ensures ns != INVIS && Chain(k, INVIS) == {INVIS} && !IsTop(k, INVIS)
    ensures match Parent(k, ns)
            case None => Chain(k, ns) == {ns} && IsTop(k, ns) && ns !in k.up
            case Some(p) =>
              && Known(k, p) && Chain(k, ns) == {ns} + Chain(k, p) && Depth(k, p) < Depth(k, ns)
              && !IsTop(k, ns) && TopAbove(k, ns) == TopAbove(k, p)
    ensures TopAbove(k, INVIS) == None && (IsTop(k, ns) ==> TopAbove(k, ns) == Some(ns))
    ensures ns in k.up ==> k.up[ns] in k.nsType
  {
    if Parent(k, ns).Some? {
      RankParent(k, ns);
    }
  }

  lemma TopIsRoot(k: Kernel, keys: set<NsId>, root: NsId, ns: NsId)
    requires Wf(k) && RootOk(k, keys, root) && IsTop(k, ns)
    ensures RootOk(k, keys + {ns}, ns)
  {
  }

  lemma RootKept(k: Kernel, keys: set<NsId>, root: NsId, ns: NsId)
    requires Wf(k) && RootOk(k, keys, root) && !IsTop(k, ns)
    ensures RootOk(k, keys + {ns}, root)
  {
  }

  /** Entries stay, and children are added at the end of the lists. */
  ghost predicate Grows(l: NsList, l': NsList) {
    forall p :: p in l ==> p in l' && l[p].children <= l'[p].children
  }

  lemma GrowsSame(l: NsList)
    ensures Grows(l, l)
  {
  }

  lemma GrowsTransitive(l: NsList, l': NsList, l'': NsList)
    requires Grows(l, l') && Grows(l', l'')
    ensures Grows(l, l'')
  {
  }

  lemma GrowsByOne(l: NsList, p: NsId, a: Attribs, children: seq<NsId>)
    ensures p !in l ==> Grows(l, l[p := a])
    ensures p in l ==> Grows(l, l[p := l[p].(children := l[p].children + children)])
    ensures p in l && a.children == l[p].children ==> Grows(l, l[p := a])
  {
  }

  class NamespaceInfo {
    const k: Kernel
    var nsList: NsList
    var rootNS: NsId

    constructor (k: Kernel)
      requires Wf(k)
      ensures this.k == k && nsList == map[] && rootNS == INVIS && Valid({})
    {
      this.k := k;
      nsList := map[];
      rootNS := INVIS;
    }

    ghost predicate Valid(pending: set<NsId>)
      reads this
    {
      Wf(k) && pending <= nsList.Keys && Linked(k, nsList, pending) && RootOk(k, nsList.Keys, rootNS)
    }

    /** Adds a namespace with everything above it. `pending` are the namespaces below
        it that wait for this call. */
    method AddNamespace(ns: NsId, pid: int, ghost pending: set<NsId>)
      requires Valid(pending) && ns in k.nsType
      requires forall p :: p in pending ==> Depth(k, ns) < Depth(k, p)
      modifies this
      ensures Valid(pending) && nsList.Keys == old(nsList).Keys + Chain(k, ns)
      ensures rootNS == RootAfter(k, old(nsList).Keys, old(rootNS), ns)
      ensures Grows(old(nsList), nsList)
      ensures forall x :: x in nsList ==>
                nsList[x].pids == PidsIn(old(nsList), x) + if x == ns && pid > 0 then [pid] else []
      decreases Depth(k, ns), 2
    {
      hide Wf, Linked, RootOk, Chain, Depth, TopAbove, IsTop, Grows;
      GrowsSame(nsList);
      assert forall p :: p in pending ==> Known(k, p) by { EntriesKnown(k, nsList, pending); }
      if ns !in nsList {
        AddNamespaceToList(ns, pending);
      } else {
        ChainListed(k, nsList, pending, ns);
        ghost var t := TopAbove(k, ns);
        if t.Some? {
          TopOfChain(k, ns, t.value);
        }
      }
      if pid > 0 {
        ghost var l1 := nsList;
        AddPid(ns, pid, pending);
        GrowsTransitive(old(nsList), l1, nsList);
      }
    }

    method AddPid(ns: NsId, pid: int, ghost pending: set<NsId>)
      requires Linked(k, nsList, pending) && ns in nsList
      modifies this`nsList
      ensures Linked(k, nsList, pending) && nsList.Keys == old(nsList).Keys && Grows(old(nsList), nsList)
      ensures forall x :: x in nsList ==> nsList[x].pids == old(nsList)[x].pids + if x == ns then [pid] else []
    {
      hide Linked, Grows;
      LinkedPids(k, nsList, pending, ns, nsList[ns].pids + [pid]);
      GrowsByOne(nsList, ns, nsList[ns].(pids := nsList[ns].pids + [pid]), []);
      nsList := nsList[ns := nsList[ns].(pids := nsList[ns].pids + [pid])];
    }

    method AddNamespaceToList(ns: NsId, ghost pending: set<NsId>)
      requires Valid(pending) && ns in k.nsType && ns !in nsList
      requires forall p :: p in pending ==> Depth(k, ns) < Depth(k, p)
      modifies this
      ensures Valid(pending) && nsList.Keys == old(nsList).Keys + Chain(k, ns)
      ensures rootNS == RootAfter(k, old(nsList).Keys, old(rootNS), ns)
      ensures Grows(old(nsList), nsList)
      ensures forall x :: x in nsList ==> nsList[x].pids == PidsIn(old(nsList), x)
      decreases Depth(k, ns), 1
    {
      hide Wf, Linked, RootOk, Chain, Depth, IsTop, TopAbove, Grows;
      ParentListed(k, ns);
      LinkNew(k, nsList, pending, ns);
      GrowsByOne(nsList, ns, Attribs(k.nsType[ns], [], []), []);
      ghost var keys := nsList.Keys;
      assert nsList[ns := Attribs(k.nsType[ns], [], [])].Keys == keys + {ns};
      nsList := nsList[ns := Attribs(k.nsType[ns], [], [])];
      ghost var l1 := nsList;
      GrowsSame(l1);
      if ns !in k.up {
        if IsTop(k, ns) {
          LinkTop(k, nsList, pending, ns);
          TopIsRoot(k, keys, rootNS, ns);
          rootNS := ns;
        } else {
          RootKept(k, keys, rootNS, ns);
          RootKept(k, keys + {ns}, rootNS, INVIS);
          ListInvisible(ns, pending);
        }
      } else {
        RootKept(k, keys, rootNS, ns);
        AddParent(ns, pending);
      }
      GrowsTransitive(old(nsList), l1, nsList);
    }

    /** Makes sure that the parent has an entry, and lists the namespace there. */
    method AddParent(ns: NsId, ghost pending: set<NsId>)
      requires Valid(pending + {ns}) && ns in k.up && ns !in pending
      requires forall p :: p in pending ==> Depth(k, ns) < Depth(k, p)
      modifies this
      ensures Valid(pending) && k.up[ns] in k.nsType && nsList.Keys == old(nsList).Keys + Chain(k, k.up[ns])
      ensures rootNS == RootAfter(k, old(nsList).Keys, old(rootNS), k.up[ns])
      ensures Grows(old(nsList), nsList)
      ensures forall x :: x in nsList ==> nsList[x].pids == PidsIn(old(nsList), x)
      decreases Depth(k, ns), 0
    {
      assert ns in k.nsType;
      hide Wf, Linked, RootOk, Chain, Depth, IsTop, TopAbove, Grows;
      ParentListed(k, ns);
      var parent := k.up[ns];
      AddNamespace(parent, -1, pending + {ns});
      LinkChild(k, nsList, pending, ns, parent);
      ghost var l1 := nsList;
      AddChild(parent, ns);
      GrowsTransitive(old(nsList), l1, nsList);
    }

    method ListInvisible(ns: NsId, ghost pending: set<NsId>)
      requires Wf(k) && Linked(k, nsList, pending + {ns}) && ns in nsList && ns !in pending
      requires Parent(k, ns) == Some(INVIS)
      modifies this`nsList
      ensures Linked(k, nsList, pending) && nsList.Keys == old(nsList).Keys + {INVIS} && Grows(old(nsList), nsList)
      ensures forall x :: x in nsList ==> nsList[x].pids == PidsIn(old(nsList), x)
    {
      hide Wf, Linked, Grows;
      LinkInvisible(k, nsList, pending, ns);
      GrowsByOne(nsList, INVIS, Attribs(CLONE_NEWUSER, [], []), []);
      if INVIS !in nsList {
        nsList := nsList[INVIS := Attribs(CLONE_NEWUSER, [], [])];
      } else {
        GrowsSame(nsList);
      }
      ghost var l1 := nsList;
      AddChild(INVIS, ns);
      GrowsTransitive(old(nsList), l1, nsList);
    }

    method AddChild(p: NsId, ns: NsId)
      requires p in nsList
      modifies this`nsList
      ensures nsList == old(nsList)[p := old(nsList)[p].(children := old(nsList)[p].children + [ns])]
      ensures nsList.Keys == old(nsList).Keys && Grows(old(nsList), nsList)
      ensures forall x :: x in nsList ==> nsList[x].pids == old(nsList)[x].pids
    {
      GrowsByOne(nsList, p, nsList[p], [ns]);
      nsList := nsList[p := nsList[p].(children := nsList[p].children + [ns])];
    }

    /** Adds a list of namespaces, each with the PID found in it. */
    method AddAll(seen: seq<(NsId, int)>)
      requires Valid({}) && forall i :: 0 <= i < |seen| ==> seen[i].0 in k.nsType
      modifies this
      ensures Valid({}) && nsList.Keys == old(nsList).Keys + Closure(k, seen)
      ensures PidsAdded(nsList, old(nsList), seen)
    {
      hide Wf, Linked, RootOk, Chain, Depth, Closure, PidsOf, PidsAdded;
      SeenNothing(k, nsList);
      assert seen[..0] == [];
      for i := 0 to |seen|
        invariant Valid({}) && nsList.Keys == old(nsList).Keys + Closure(k, seen[..i])
        invariant PidsAdded(nsList, old(nsList), seen[..i])
      {
        SeenOneMore(k, seen, i);
        ghost var before := nsList;
        AddNamespace(seen[i].0, seen[i].1, {});
        PidsOneMore(k, before, nsList, old(nsList), seen, i);
      }
      assert seen[..|seen|] == seen;
    }
  }

  /** Every entry of `l` holds the PIDs it had in `l0` and then those seen in it, in order. */
  ghost predicate PidsAdded(l: NsList, l0: NsList, seen: seq<(NsId, int)>) {
    forall x :: x in l ==> l[x].pids == PidsIn(l0, x) + PidsOf(seen, x)
  }

  lemma SeenNothing(k: Kernel, l: NsList)
    requires Wf(k)
    ensures Closure(k, []) == {} && PidsAdded(l, l, [])
  {
  }

  lemma PidsOneMore(k: Kernel, before: NsList, l: NsList, l0: NsList, seen: seq<(NsId, int)>, i: nat)
    requires Wf(k) && i < |seen| && forall j :: 0 <= j < |seen| ==> seen[j].0 in k.nsType
    requires PidsAdded(before, l0, seen[..i]) && before.Keys == l0.Keys + Closure(k, seen[..i])
    requires forall x :: x in l ==>
               l[x].pids == PidsIn(before, x) + if x == seen[i].0 && seen[i].1 > 0 then [seen[i].1] else []
    ensures PidsAdded(l, l0, seen[..i + 1])
  {
    hide Wf, Chain, Closure, PidsOf;
    NoPids(k, seen[..i]);
    forall x | x in l ensures l[x].pids == PidsIn(l0, x) + PidsOf(seen[..i + 1], x) {
      assert PidsIn(before, x) == PidsIn(l0, x) + PidsOf(seen[..i], x);
      PidsSnoc(seen, i, x);
      Join(PidsIn(l0, x), PidsOf(seen[..i], x), if x == seen[i].0 && seen[i].1 > 0 then [seen[i].1] else []);
    }
  }

  lemma Join(a: seq<int>, b: seq<int>, c: seq<int>)
    ensures a + b + c == a + (b + c)
  {
  }

  lemma PidsSnoc(seen: seq<(NsId, int)>, i: nat, x: NsId)
    requires i < |seen|
    ensures PidsOf(seen[..i + 1], x) ==
            PidsOf(seen[..i], x) + if x == seen[i].0 && seen[i].1 > 0 then [seen[i].1] else []
  {
    assert seen[..i + 1][..i] == seen[..i];
  }

  lemma SeenOneMore(k: Kernel, seen: seq<(NsId, int)>, i: nat)
    requires Wf(k) && i < |seen| && forall j :: 0 <= j < |seen| ==> seen[j].0 in k.nsType
    ensures Closure(k, seen[..i + 1]) == Closure(k, seen[..i]) + Chain(k, seen[i].0)
  {
    assert seen[..i + 1][..i] == seen[..i];
  }

  /** The namespaces seen, with everything above them. */
  ghost function Closure(k: Kernel, seen: seq<(NsId, int)>): set<NsId>
    requires Wf(k) && forall i :: 0 <= i < |seen| ==> seen[i].0 in k.nsType
  {
    if seen == [] then {} else Closure(k, seen[..|seen| - 1]) + Chain(k, seen[|seen| - 1].0)
  }

  function PidsOf(seen: seq<(NsId, int)>, ns: NsId): seq<int> {
    if seen == [] then []
    else
      var (x, pid) := seen[|seen| - 1];
      PidsOf(seen[..|seen| - 1], ns) + if x == ns && pid > 0 then [pid] else []
  }

  lemma {:induction false} NoPids(k: Kernel, seen: seq<(NsId, int)>)
    requires Wf(k) && forall i :: 0 <= i < |seen| ==> seen[i].0 in k.nsType
    ensures forall x :: x !in Closure(k, seen) ==> PidsOf(seen, x) == []
    decreases |seen|
  {
    if seen != [] {
      NoPids(k, seen[..|seen| - 1]);
    }
  }
}
