/** The kernel side of inotify: a table of watches on directories, filesystem
    operations, and the events that each operation queues for the watches. */
module Inotify {
  import opened Pathnames
  import opened DirTree

  datatype Flag =
    | ISDIR | CREATE | DELETE_SELF | MOVE_SELF | MOVED_FROM | MOVED_TO
    | IGNORED | Q_OVERFLOW | UNMOUNT

  datatype Event = Event(wd: int, mask: set<Flag>, cookie: nat, name: string)

  /** What inotify(7) promises of the events it delivers. */
  predicate KernelEvent(e: Event) {
    && (e.wd == -1 <==> Q_OVERFLOW in e.mask)
    && (e.wd == -1 ==> e.mask == {Q_OVERFLOW})
    && -1 <= e.wd
    && (IGNORED in e.mask ==> e.mask == {IGNORED})
    && |e.name| <= NAME_MAX
  }

  /** `order` is the order in which nftw() meets the directories. The table gives
      each watched directory its descriptor, and `dirOf` reads it backwards;
      `selfMove` holds the directories whose watch asks for IN_MOVE_SELF. */
  datatype Kernel = Kernel(tree: Tree, order: seq<DirId>, watch: map<DirId, int>, dirOf: map<int, DirId>,
                           selfMove: set<DirId>, nextWd: int)

  ghost predicate Lists(order: seq<DirId>, t: Tree) {
    forall d :: d in order <==> d in t
  }

  /** Watches and descriptors correspond one to one. */
  ghost predicate WfTable(k: Kernel) {
    && 1 <= k.nextWd
    && (forall d :: d in k.watch ==> k.watch[d] in k.dirOf && k.dirOf[k.watch[d]] == d)
    && (forall wd :: wd in k.dirOf ==> 1 <= wd < k.nextWd && k.dirOf[wd] in k.watch && k.watch[k.dirOf[wd]] == wd)
    && k.selfMove <= k.watch.Keys
  }

  ghost predicate WfKernel(k: Kernel) {
    && Wf(k.tree)
    && Lists(k.order, k.tree)
    && k.watch.Keys <= k.tree.Keys
    && WfTable(k)
  }

  /** inotify_add_watch(): a directory already watched keeps its descriptor,
      and the flags of the call replace the earlier ones. */
  function AddWatch(k: Kernel, d: DirId, self: bool): (k': Kernel)
    requires WfKernel(k) && d in k.tree
    ensures WfKernel(k') && d in k'.watch
    ensures k'.tree == k.tree && k'.order == k.order
    ensures forall e :: e in k.watch ==> e in k'.watch && k'.watch[e] == k.watch[e]
  {
    var moves := if self then k.selfMove + {d} else k.selfMove - {d};
    var k' := if d in k.watch then k.(selfMove := moves)
              else k.(watch := k.watch[d := k.nextWd], dirOf := k.dirOf[k.nextWd := d], selfMove := moves,
                      nextWd := k.nextWd + 1);
    assert WfTable(k');
    k'
  }

  /** inotify_rm_watch() on every descriptor of `wds`. */
  function RemoveWatches(k: Kernel, wds: set<int>): (k': Kernel)
    requires WfKernel(k)
    ensures WfKernel(k')
  {
    k.(watch := map d | d in k.watch && k.watch[d] !in wds :: k.watch[d],
       dirOf := k.dirOf - wds,
       selfMove := set d | d in k.selfMove && k.watch[d] !in wds)
  }

  /** A fresh inotify instance. */
  function NewInstance(k: Kernel): Kernel {
    k.(watch := map[], dirOf := map[], selfMove := {}, nextWd := 1)
  }

  // ----- Filesystem operations ----------------------------------------------

  datatype Op =
    | Mkdir(parent: DirId, name: string, dir: DirId)
    | Rmdir(dir: DirId)
    | Rename(dir: DirId, target: DirId, name: string)

  /** The directory that a rename to `q`/`n` would replace. */
  predicate IsChild(t: Tree, q: DirId, n: string, o: DirId) {
    o in t && t[o] == Link(q, n)
  }

  function Replaced(t: Tree, q: DirId, n: string): (r: set<DirId>)
  {
    set o | o in t && t[o] == Link(q, n)
  }

  /** The operations that mkdir(2), rmdir(2) and rename(2) carry out. A rename
      may replace an empty directory. */
  ghost predicate ValidOp(t: Tree, op: Op)
    requires Wf(t)
  {
    match op
    case Mkdir(p, n, d) => Present(t, p) && ValidName(n) && Vacant(t, p, n) && !Present(t, d)
    case Rmdir(d) => d in t && Leaf(t, d)
    case Rename(d, q, n) =>
      && d in t && Present(t, q) && ValidName(n) && !Desc(t, d, q) && t[d] != Link(q, n)
      && forall o :: IsChild(t, q, n, o) ==> Leaf(t, o)
  }

  function TreeAfter(t: Tree, op: Op): Tree {
    match op
    case Mkdir(p, n, d) => t[d := Link(p, n)]
    case Rmdir(d) => t - {d}
    case Rename(d, q, n) => (t - Replaced(t, q, n))[d := Link(q, n)]
  }

  /** The directories that an operation deletes; their watches go with them. */
  function Deleted(t: Tree, op: Op): set<DirId> {
    match op
    case Mkdir(_, _, _) => {}
    case Rmdir(d) => {d}
    case Rename(d, q, n) => Replaced(t, q, n)
  }

  function KernelAfter(k: Kernel, op: Op, order: seq<DirId>): Kernel {
    var gone := Deleted(k.tree, op);
    k.(tree := TreeAfter(k.tree, op), order := order,
       watch := k.watch - gone,
       dirOf := map wd | wd in k.dirOf && k.dirOf[wd] !in gone :: k.dirOf[wd],
       selfMove := k.selfMove - gone)
  }

  const COOKIE: nat := 1

  function DeletionEvents(k: Kernel, d: DirId): seq<Event> {
    if d in k.watch then [Event(k.watch[d], {DELETE_SELF}, 0, ""), Event(k.watch[d], {IGNORED}, 0, "")] else []
  }

  function FromEvents(k: Kernel, d: DirId): seq<Event>
    requires d in k.tree
  {
    var l := k.tree[d];
    if l.parent in k.watch then [Event(k.watch[l.parent], {MOVED_FROM, ISDIR}, COOKIE, l.name)] else []
  }

  function ToEvents(k: Kernel, q: DirId, n: string): seq<Event> {
    if q in k.watch then [Event(k.watch[q], {MOVED_TO, ISDIR}, COOKIE, n)] else []
  }

  function SelfEvents(k: Kernel, d: DirId): seq<Event> {
    if d in k.watch && d in k.selfMove then [Event(k.watch[d], {MOVE_SELF}, 0, "")] else []
  }

  ghost function ReplacedEvents(k: Kernel, q: DirId, n: string): seq<Event> {
    if o :| IsChild(k.tree, q, n, o) then DeletionEvents(k, o) else []
  }

  /** The events queued for one operation, in the kernel's order: moved from,
      moved to, move of the directory itself, deletion of what was replaced. */
  ghost function OpEvents(k: Kernel, op: Op): seq<Event>
    requires WfKernel(k) && ValidOp(k.tree, op)
  {
    match op
    case Mkdir(p, n, d) => if p in k.watch then [Event(k.watch[p], {CREATE, ISDIR}, 0, n)] else []
    case Rmdir(d) => DeletionEvents(k, d)
    case Rename(d, q, n) => FromEvents(k, d) + ToEvents(k, q, n) + SelfEvents(k, d) + ReplacedEvents(k, q, n)
  }
}
