# Verified models of programs from The Linux Programming Interface

This project models, in Dafny, the programs of the book's source distribution that hold real
algorithms and protocols, and proves what they are meant to guarantee. `dafny verify dfyconfig.toml`
checks everything. The parts do not depend on each other, except as listed.

**Monitoring directory trees with inotify** (`Pathnames`, `DirTree`, `Inotify`, `MonitorModel`,
`MonitorViews`, `MonitorSync`, `MonitorRename`, `MonitorTheorem`, `DirectoryMonitor`, `ReadLoop`,
`MonitorProgram`, `MonitorUnmount`). `inotify_dtree` keeps a table of slots, one for each directory below the roots on its
command line, and updates it from events alone. The filesystem is a map from each directory to its
parent and its name, so that a rename changes one link and what it does to pathnames has to be proved. The
kernel is a table of watches and, for each operation, the events that it queues. The program is a class
whose methods change the slots in place and a loop over a byte buffer; both are proved equal to functions
on values, and the theorems are about those functions. The central property, that the table is a snapshot of the
monitored trees after every operation, is false of the code in three families of renames:

- a directory that is not monitored is moved together with a root below it;
- a root is moved from a place that is not monitored into a monitored tree;
- a directory is moved on top of an empty monitored one, and its "moved to" event is handled without its
  "moved from" partner: it came from a place that is not monitored, or the second read was interrupted. The
  pathname is still cached at that time, so the new directory is taken for known. (A root that lies below
  another root escapes: its own event then comes for a descriptor that has gone, and leads to a rebuild.)

`CanFollow` is the complement of these, a condition on the operation and on how the reads split its events.
`OneOperation` proves that the property holds if and only if the condition does, for any roots, also nested ones.
`LostRenames` gives a tree and four renames, with their reads, that violate it. Without any assumption on the order
of operations and events, `AnyOrder` proves that the table stays sound and that every rebuild makes it exact again.

Unmounting is a case of its own: the entries of the filesystem are removed, but the directory on which it was mounted comes
to light unnoticed. `UnmountIff` proves that the cache is exact if and only if nothing that comes to light is monitored.

The test at line 1185 of `inotify_dtree.c`, meant to add only what was read, is always true, so an interrupted
read takes one off the number of bytes. The buffer is modelled that way, and `ReadMoreEvents` and
`ProcessInotifyEvents` show that no event is lost by it.

**Namespace hierarchies** (`NamespaceKernel`, `Namespaces`, `NamespaceDisplay`, `NamespaceOrder`). `namespaces_of.go` creates an entry
before its parent has one, and links it when the recursive call returns. The comments say that adding the first
namespace discovers the root. The code can fail to find one, and can find several. It finds none if the owners of all
namespaces added are invisible; the root then keeps its zero value, which is the key of the entry for invisible owners,
and that tree is displayed twice. It finds several because, by ioctl_ns(2), the kernel gives no answer for a parent outside
the caller's scope: with `--pidns` in a PID namespace that still sees the `/proc` of its parent, the caller's own PID
namespace, the outer one and its siblings are all topmost. Each replaces the root, and only the tree of the last one
is displayed. `DisplayedOnceIff` proves that everything is visited and printed once if and only if some namespace
added leads to a topmost one and all that do lead to the same. `SampleRun` and `TwoRoots` carry out the smallest
failures. `main()` finds some topmost namespace when it is given PIDs, because it then ends unless it could open
their user namespaces, and when the `/proc` that it scans lists its own process.

**seccomp filters** (`Bpf`, `SeccompFilters`): an interpreter of classic BPF, and for each filter the policy
that it computes for every call record, in the numbers of calls, flags and return values. The comment of `seccomp_arg64.c` speaks of offsets greater than 1000;
the comparison is unsigned, so negative offsets are refused as well, with error 2.

**Protocols** (`Runs` and `MqNotifyThread`, `MqNotifySignal`, `SigchldReaper`, `SignalPingPong`, `AtomicAppend`,
`SemIncrement`): step relations whose steps are single accesses to shared state, and properties of every run, that is, of
every interleaving. Standard signals are a set of pending bits, as in section 2.4.1 of POSIX.1-2017 XSH.

**The environment** (`Environ`): `setenv()` and `unsetenv()` on a null-terminated array, refining a finite map. When
`malloc()` fails in `setenv()`, the old value has been removed already; the contract says so.

**Searching PATH** (`Strings`, `PathSearch`) and **access control lists** (`Strings`, `AclSpec`, `AclUpdate`).

## Model

| member | source | states |
|---|---|---|
| MonitorProgram.FollowOperation | book-src/inotify/inotify_dtree.c:1086-1201 | after another process's mkdir, rmdir or rename and the reads of its events, however split and for any roots, the slot table equals the monitored trees if and only if the operation can be followed; the program ends only when no root is left |
| MonitorProgram.TableIsSnapshot | book-src/inotify/inotify_dtree.c:180-187 | an exact cache means: the used slots are the monitored directories, each once, with the kernel's descriptor and the current pathname |
| MonitorProgram.Start | book-src/inotify/inotify_dtree.c:710-750 | for any roots, nested ones included, the first build makes the table a snapshot of the trees below them |
| MonitorProgram.AnyOrder | book-src/inotify/inotify_dtree.c:759-1073 | through every interleaving of operations with any events, however delayed or reordered: used slots have distinct descriptors and hold the cache, unused ones are blank, no event with an uncached descriptor is consumed, an uncached descriptor, be it of the partner of a "moved from", leads to a rebuild, and every rebuild leaves the table equal to the trees of that moment |
| MonitorProgram.CarryOut | book-src/inotify/inotify_dtree.c:759-1073 | the same for one operation or one event, in any valid state |
| MonitorTheorem.OneOperation | book-src/inotify/inotify_dtree.c:759-1073 | for every operation, every split of its events and any roots, nested or not: the cache ends exact if and only if CanFollow; leaving means that no root remains; the state is again one to start from when every root left exists |
| MonitorTheorem.WholeRun | book-src/inotify/inotify_dtree.c:759-1073 | in every run of operations that can be followed, from the first build on and for any roots, the cache is exact after each, as long as none before it left a root without a directory |
| MonitorTheorem.DisjointRun | book-src/inotify/inotify_dtree.c:759-1073 | for disjoint roots, after each operation of every run of operations that can be followed |
| MonitorTheorem.DisjointKeepsRoots | book-src/inotify/inotify_dtree.c:1038-1064 | with disjoint roots, an operation that can be followed leaves no root without a directory |
| MonitorTheorem.ServeFewer | book-src/inotify/inotify_dtree.c:476-495 | no event adds a root |
| MonitorTheorem.RenameIsFollowed | book-src/inotify/inotify_dtree.c:853-1002 | renames within, into and out of the trees, of roots, of roots below roots, and onto empty directories leave the cache exact |
| MonitorTheorem.PairFollowed | book-src/inotify/inotify_dtree.c:937-971 | a paired rename within the trees leaves the cache exact, also of a root below another one, and also onto such a root |
| MonitorTheorem.TornRoot | book-src/inotify/inotify_dtree.c:780-790 | a root below another one whose two events were torn apart is noticed by its own event, and the cache is rebuilt |
| MonitorTheorem.RootMovedOut | book-src/inotify/inotify_dtree.c:780-790 | so is one that was moved out of the trees |
| MonitorTheorem.RenameIsLost | book-src/inotify/inotify_dtree.c:795-837 | every rename outside CanFollow leaves the cache different from the trees |
| MonitorTheorem.LostRoot | book-src/inotify/inotify_dtree.c:1038-1064 | a root moved from an unmonitored place into a monitored tree is dropped from the cache although it is still monitored there |
| MonitorTheorem.LostWhenTorn | book-src/inotify/inotify_dtree.c:939-1002 | a rename onto a cached directory is lost when an interrupted read parts the two events |
| MonitorTheorem.LostRenames | book-src/inotify/inotify_dtree.c:795-837 | a concrete tree and four renames, each with its events and reads, after which the cache is wrong; one of them has its two events torn apart |
| MonitorUnmount.UnmountIff | book-src/inotify/inotify_dtree.c:1025-1037 | however the events of an unmount are read, exactly the entries of the filesystem go and no root is forgotten; the cache is then exact if and only if no directory that came to light is monitored |
| MonitorUnmount.HandleUnmount | book-src/inotify/inotify_dtree.c:1025-1037 | the event takes out the one entry whose watch is gone |
| MonitorUnmount.MountPointIsMissed | book-src/inotify/inotify_dtree.c:1025-1037 | a mount point in a monitored tree is not cached afterwards |
| MonitorSync.RebuildIsExact | book-src/inotify/inotify_dtree.c:710-750 | a rebuild makes the cache a snapshot, whatever it held before |
| MonitorSync.UnknownDescriptorRebuilds | book-src/inotify/inotify_dtree.c:780-790 | any event with a descriptor that is not cached, and any overflow, ends in a rebuild after which the cache is a snapshot |
| MonitorSync.UnknownPartnerRebuilds | book-src/inotify/inotify_dtree.c:951-962 | a "moved from" whose partner has a descriptor that is not cached ends in a rebuild too |
| MonitorSync.ConsumedAreKnown | book-src/inotify/inotify_dtree.c:771-962 | in every state, events are consumed only if their descriptors are cached, but for reports of removed watches |
| MonitorSync.FilesAreIgnored | book-src/inotify/inotify_dtree.c:795-866 | events about files that are not directories change nothing and are consumed one at a time |
| MonitorSync.EveryRebuildIsExact | book-src/inotify/inotify_dtree.c:710-750 | whichever event led to it and whatever the state, a rebuild leaves the cache a snapshot |
| MonitorSync.MkdirSynced | book-src/inotify/inotify_dtree.c:795-837 | a created directory is cached exactly if its parent is monitored |
| MonitorSync.RmdirSynced | book-src/inotify/inotify_dtree.c:839-851 | a removed directory leaves the cache, and as a root also the list of roots |
| MonitorRename.RenamePaths | book-src/inotify/inotify_dtree.c:613-643 | a rename, possibly replacing an empty directory, rewrites the pathnames below the old one and no other |
| MonitorRename.OpKeepsWf | book-src/inotify/inotify_dtree.c:511-565 | whatever has been cached, every operation leaves a tree that a walk can enumerate and a one-to-one table of watches on it |
| MonitorRename.WithinPair | book-src/inotify/inotify_dtree.c:937-971 | the pair of events rewrites the cache as the tree was renamed, and leaves a replaced directory's entry |
| MonitorRename.FinishWithin | book-src/inotify/inotify_dtree.c:839-851 | with the deletion of a replaced directory handled, root or not, the cache is exact |
| MonitorRename.FinishOut | book-src/inotify/inotify_dtree.c:973-996 | after a move out of the trees the entries below the old pathname are gone, and the rest is exact |
| MonitorRename.FinishIn | book-src/inotify/inotify_dtree.c:795-837 | after a move into the trees the whole arrived subtree is cached |
| MonitorViews.ServeMovedFrom | book-src/inotify/inotify_dtree.c:1126-1200 | for every split of the reads, a "moved from" is handled once, with its partner unless an interrupted read parted them |
| MonitorViews.ServeSingles | book-src/inotify/inotify_dtree.c:1126-1200 | for all other events the split of the reads makes no difference |
| MonitorViews.IgnoredIsIdle | book-src/inotify/inotify_dtree.c:771-776 | the events that report removed watches, however read, change nothing |
| MonitorViews.EachMovedFromWaits | book-src/inotify/inotify_dtree.c:1130-1153 | every "moved from" at the end of a buffer is deferred once, whether or not an earlier one was |
| MonitorViews.ZapMirrors | book-src/inotify/inotify_dtree.c:649-700 | removing a subtree removes exactly the directories below the pathname, with their watches, and succeeds |
| MonitorViews.RewriteMirrors | book-src/inotify/inotify_dtree.c:613-643 | rewriting changes the cached pathnames and no descriptor |
| MonitorViews.VisitAllMirrors | book-src/inotify/inotify_dtree.c:511-565 | a walk caches each directory met that was not watched, and keeps the others |
| MonitorModel.Process | book-src/inotify/inotify_dtree.c:759-1073 | an event is deferred only on the first try and only if it is a "moved from" alone in the buffer; otherwise one or two events are consumed |
| MonitorModel.Loop | book-src/inotify/inotify_dtree.c:1126-1200 | the loop ends for every sequence of reads, by the events unread or unhandled, the reads to come and firstTry, and leaves no more to read than there was |
| DirTree.MovePaths | book-src/inotify/inotify_dtree.c:613-643 | changing one link of the tree rewrites the prefix of all pathnames below it and no other |
| DirTree.UnderIsDesc | book-src/inotify/inotify_dtree.c:613-643 | the prefix test at component boundaries decides the subtree relation |
| DirTree.PathInjective | book-src/inotify/inotify_dtree.c:331-347 | different directories have different pathnames |
| Pathnames.UnderChild | book-src/inotify/inotify_dtree.c:613-643 | at or below a child means the child itself or below its parent, so "/a/b" never matches "/a/bc" |
| Pathnames.RewriteRoundTrip | book-src/inotify/inotify_dtree.c:613-643 | renaming back undoes a renaming |
| Pathnames.RewriteInjective | book-src/inotify/inotify_dtree.c:613-643 | cached pathnames stay distinct when nothing was cached at the target |
| DirectoryMonitor.Monitored.constructor | book-src/inotify/inotify_dtree.c:385-450 | the state before the first walk is valid: distinct roots, none forgotten, nothing cached |
| DirectoryMonitor.Monitored.FindWatch | book-src/inotify/inotify_dtree.c:233-241 | the first slot with the descriptor; -1 if and only if it is not cached |
| DirectoryMonitor.Monitored.FindEmptyCacheSlot | book-src/inotify/inotify_dtree.c:289-311 | the first unused slot; the table grows by 200 only when all slots are used, and keeps them |
| DirectoryMonitor.Monitored.AddWatchToCache | book-src/inotify/inotify_dtree.c:315-326 | one entry is added to the cache; descriptors stay distinct and unused slots blank |
| DirectoryMonitor.Monitored.MarkCacheSlotEmpty | book-src/inotify/inotify_dtree.c:276-285 | one entry is taken out of the cache |
| DirectoryMonitor.Monitored.PathnameInCache | book-src/inotify/inotify_dtree.c:331-347 | whether some entry has the pathname |
| DirectoryMonitor.Monitored.FindRootDirPath | book-src/inotify/inotify_dtree.c:455-463 | the place of a root pathname; -1 if and only if it is not a root |
| DirectoryMonitor.Monitored.ZapRootDirPath | book-src/inotify/inotify_dtree.c:476-495 | forgets one root and ends the program when none is left |
| DirectoryMonitor.Monitored.TraverseTree | book-src/inotify/inotify_dtree.c:511-565 | one directory of a walk is watched and cached unless it was |
| DirectoryMonitor.Monitored.WatchDir | book-src/inotify/inotify_dtree.c:572-590 | the whole subtree is visited in walk order |
| DirectoryMonitor.Monitored.Reinitialize | book-src/inotify/inotify_dtree.c:710-750 | a new instance, an empty table, and a walk of every remaining root |
| DirectoryMonitor.Monitored.RewriteCachedPaths | book-src/inotify/inotify_dtree.c:613-643 | slot by slot, a cached pathname at or below the old one is rewritten, and nothing else changes |
| DirectoryMonitor.Monitored.ZapSubtree | book-src/inotify/inotify_dtree.c:649-700 | removes exactly the matching entries and returns their number, even if its argument is a cached pathname that it frees; -1 if and only if the kernel had dropped one of the watches |
| DirectoryMonitor.Monitored.HandleMovedFrom | book-src/inotify/inotify_dtree.c:853-1002 | pair, departure, deferral or rebuild as the model says |
| DirectoryMonitor.Monitored.HandleDeleteSelf | book-src/inotify/inotify_dtree.c:839-851 | the entry goes, and a deleted root is forgotten first |
| DirectoryMonitor.Monitored.HandleMoveSelf | book-src/inotify/inotify_dtree.c:1038-1064 | a moved root is forgotten and its subtree removed by the pathname of its own slot |
| DirectoryMonitor.Monitored.HandleEvent | book-src/inotify/inotify_dtree.c:759-1073 | for any event in any valid state the slot table is left valid and equal to the model |
| ReadLoop.ProcessNextInotifyEvent | book-src/inotify/inotify_dtree.c:759-1073 | the number of bytes of the events used, -1 to read more, or the buffer length after a rebuild |
| ReadLoop.Shuffle | book-src/inotify/inotify_dtree.c:1155-1158 | the overlapping move of the remaining bytes to the front keeps them |
| ReadLoop.ReadMoreEvents | book-src/inotify/inotify_dtree.c:1149-1199 | a deferred event survives the shift and the second read, also when an interrupted read takes one off the count |
| ReadLoop.ProcessInotifyEvents | book-src/inotify/inotify_dtree.c:1086-1201 | the byte loop equals the loop over events and ends for every sequence of reads |
| ReadLoop.EveryEventOnce | book-src/inotify/inotify_dtree.c:1126-1200 | the events handled are those read, each once and in order; some are left only after a rebuild or at the program's end |
| ReadLoop.MonitorEvents | book-src/inotify/inotify_dtree.c:1457-1473 | repeated calls serve all reads as the model does |
| ReadLoop.FewServeFit | book-src/inotify/inotify_dtree.c:1086-1101 | up to a hundred events fit in the buffer, however they are read and deferred |
| Namespaces.NamespaceInfo.AddNamespace | book-src/namespaces/namespaces_of.go:225-244 | adds the namespace with all above it, restores the children lists although entries wait for their parents, extends those lists only at their ends, appends the PID to this entry only, and replaces the root exactly if the topmost namespace above is new |
| Namespaces.NamespaceInfo.AddNamespaceToList | book-src/namespaces/namespaces_of.go:250-354 | the new entry is listed once, under its parent, its owner or the invisible entry; a new topmost namespace becomes the root, whatever the root was; the recursion ends by depth |
| Namespaces.NamespaceInfo.AddAll | book-src/namespaces/namespaces_of.go:1054-1058 | after any sequence of additions the map is the ancestor closure of what was seen, and each entry holds the PIDs seen in it, in order |
| Namespaces.NamespaceInfo.constructor | book-src/namespaces/namespaces_of.go:128-133 | an empty map with the zero root satisfies the invariant |
| Namespaces.LinkChild | book-src/namespaces/namespaces_of.go:340-352 | linking after the recursive call restores the invariant for the waiting entry |
| Namespaces.LinkInvisible | book-src/namespaces/namespaces_of.go:313-336 | so does listing under the invisible entry, which is created when it is first needed |
| Namespaces.ChainListed | book-src/namespaces/namespaces_of.go:225-354 | an entry that exists already has all its ancestors in the map, so nothing needs to be added |
| NamespaceKernel.ChainTop | book-src/namespaces/namespaces_of.go:288-311 | every chain of owners ends at a topmost namespace or the invisible entry |
| NamespaceDisplay.TreeLists | book-src/namespaces/namespaces_of.go:688-705 | for any selection, displaying a tree prints every selected entry below it once, at its relative depth; selecting all, it visits every entry once |
| NamespaceDisplay.PrintedTypes | book-src/namespaces/namespaces_of.go:694-698 | an entry of a tree is printed if and only if its type is 0x10000000 or has a selected bit |
| NamespaceOrder.TreeInOrder | book-src/namespaces/namespaces_of.go:688-705 | an entry comes before all that lies below it, a subtree stands in one piece, and the subtrees of the children of an entry come in the order of its list |
| NamespaceOrder.HierarchyInOrder | book-src/namespaces/namespaces_of.go:757-770 | the same for the whole display, in which the tree of the root precedes what belongs to invisible owners |
| NamespaceDisplay.HierarchiesOnce | book-src/namespaces/namespaces_of.go:757-770 | the selected entries are displayed once at their true depth if and only if exactly one topmost namespace was discovered |
| NamespaceDisplay.DisplayedAreReached | book-src/namespaces/namespaces_of.go:757-770 | with a topmost root, the entries displayed are those below it or below the invisible entry, each once |
| NamespaceDisplay.DisplayedOnceIff | book-src/namespaces/namespaces_of.go:757-770 | after any additions, all entries are visited once, and user namespaces and selected types printed once, if and only if some namespace added leads to a topmost one and all that do lead to the same |
| NamespaceDisplay.TopsDiscovered | book-src/namespaces/namespaces_of.go:225-354 | the topmost namespaces in the map are those above the namespaces added |
| NamespaceDisplay.LeadsToTop | book-src/namespaces/namespaces_of.go:288-311 | a namespace leads to a topmost one if and only if it is a user namespace, has a visible owner, or PID mode is on |
| NamespaceDisplay.SampleRun | book-src/namespaces/namespaces_of.go:225-354 | adding one mount namespace with an invisible owner makes the map and root that are displayed twice |
| NamespaceDisplay.DisplayedTwice | book-src/namespaces/namespaces_of.go:757-770 | the two lines that are printed in that case |
| NamespaceDisplay.TwoRoots | book-src/namespaces/namespaces_of.go:288-311 | adding two PID namespaces without a visible parent leaves the first one undisplayed |
| Bpf.ValidTerminates | book-src/seccomp/seccomp_user_notification.c:129-140 | a program with forward jumps in range reaches one of its returns from every instruction, within its length |
| Bpf.Relocate | book-src/seccomp/seccomp_user_notification.c:110-117 | code behaves the same behind any other code |
| Bpf.RecordLayout | book-src/seccomp/seccomp_arg64.c:62-111 | where the words of the call record lie, the low word of an argument first |
| Bpf.LastIsRet | book-src/seccomp/seccomp_user_notification.c:129-140 | the last instruction of a valid program is a return |
| SeccompFilters.PrologueThen | book-src/seccomp/seccomp_user_notification.c:105-117 | in front of any program: kills unless the architecture is 0xC000003E and the number below 2^30, and otherwise behaves as the program started with the call number |
| SeccompFilters.OpenMeaning | book-src/seccomp/seccomp_control_open.c:50-107 | calls 2 and 257 are decided on bits 0x40 and 3 of their own flags argument: creating kills, then writing fails with 95 |
| SeccompFilters.SeekMeaning | book-src/seccomp/seccomp_arg64.c:62-111 | call 8 is allowed if and only if the unsigned 64-bit offset is at most 1000; error 2 from 2^32 on, error 1 between |
| SeccompFilters.MultiarchMeaning | book-src/seccomp/seccomp_multiarch.c:145-239 | calls 244 and 2^30 + 527 on 0xC000003E, and 281 on 0x40000003, fail with the errors 244, 527 and 281; other architectures are killed |
| SeccompFilters.NotifyMeaning | book-src/seccomp/seccomp_user_notification.c:129-140 | call 83 is notified, other calls are allowed |
| SeccompFilters.InstallFilter2 | book-src/seccomp/seccomp_user_notification.c:165-208 | the array with its overwritten last element is a valid program that fails call 83 with 95, or traces it, and allows others |
| SeccompFilters.CombineIsMostImportant | book-src/seccomp/seccomp_user_notification.c:190-196 | the kernel's result over several filters is the most important action that one of them returned |
| SeccompFilters.PrecedenceOrder | book-src/seccomp/seccomp_user_notification.c:190-196 | the order of the actions, and that the lower half of a value does not matter |
| SeccompFilters.BothFilters | book-src/seccomp/seccomp_user_notification.c:129-208 | both programs return, and combined in either order: mkdir fails with ENOTSUP unnotified in errno mode and is notified in trace mode; every other call is treated as by the first filter alone |
| MqNotifyThread.NoMessageStranded | book-src/pmsg/mq_notify_via_thread.c:29-104 | in every interleaving: one registration or one thread about to register, so registering never fails; a message in the queue has a thread that will drain it; none is lost or received twice |
| MqNotifyThread.ThreadsProgress | book-src/pmsg/mq_notify_via_thread.c:29-70 | every step of a thread brings the threads closer to being done |
| MqNotifyThread.QuietMeansDrained | book-src/pmsg/mq_notify_via_thread.c:29-104 | when no thread can move, the queue is empty, all messages were received and the next one will be notified |
| MqNotifySignal.NoMessageStranded | book-src/pmsg/mq_notify_via_signal.c:29-107 | in every interleaving exactly one of registered, pending, flag set, about to register; a message in the queue has a drain under way or signalled |
| MqNotifySignal.MainProgress | book-src/pmsg/mq_notify_via_signal.c:82-107 | with the signal delivered, each step of the loop brings the drain one step closer |
| MqNotifySignal.QueueIsDrained | book-src/pmsg/mq_notify_via_signal.c:82-107 | from every reachable state, with a signal pending or not, and for every order of steps: once the signal has been delivered, the loop empties the queue within four steps more than there are messages, and has received all that arrived |
| SigchldReaper.AllAreReaped | book-src/procexec/multi_SIGCHLD.c:28-57 | for any number of children and order of deaths: a waiting parent's counter is created minus reaped, a zombie means a pending signal, leaving means all were reaped, and SIGCHLD is caught at most once per child |
| SigchldReaper.NeverStuck | book-src/procexec/multi_SIGCHLD.c:106-113 | until the parent exits, some step is possible |
| SigchldReaper.Terminates | book-src/procexec/multi_SIGCHLD.c:72-113 | every step leads closer to the end |
| SignalPingPong.TurnsAlternate | book-src/signals/sig_speed_sigsuspend.c:73-93 | in every interleaving at most one signal is outstanding, none is merged or sent to an exited process, the counts differ by at most one, and both finish numSigs rounds |
| SignalPingPong.NeverStuck | book-src/signals/sig_speed_sigsuspend.c:73-93 | until both have exited exactly one of them can move |
| SignalPingPong.Terminates | book-src/signals/sig_speed_sigsuspend.c:73-93 | every step leads closer to the end |
| AtomicAppend.FinalSize | book-src/fileio/atomic_append.c:48-62 | for any processes in either mode: the original bytes stay, there is no hole, and the growth is between the largest count and the sum |
| AtomicAppend.NothingIsLost | book-src/fileio/atomic_append.c:48-62 | if no process that seeks shares the file with another one, the growth is always the sum of what was written, and each process has all its bytes in the file |
| AtomicAppend.AppendLosesNothing | book-src/fileio/atomic_append.c:48-62 | in particular with O_APPEND |
| AtomicAppend.KeepsAllIff | book-src/fileio/atomic_append.c:48-62 | for any processes: every run to the end keeps all bytes if and only if no process that seeks shares the file with another one that writes |
| AtomicAppend.Overwritten | book-src/fileio/atomic_append.c:56-62 | a process that seeks and any other that writes have a run that loses a byte |
| AtomicAppend.MayKeepOnlyMax | book-src/fileio/atomic_append.c:56-62 | any processes that all seek have a run that grows the file only by the largest count |
| AtomicAppend.MayKeepAll | book-src/fileio/atomic_append.c:56-62 | any processes in any modes have a run that grows the file by the sum |
| SemIncrement.MutualExclusion | book-src/psem/thread_incr_psem.c:28-46 | in every interleaving the semaphore plus the threads inside is one, and the variable counts the increments stored |
| SemIncrement.NoLostIncrement | book-src/psem/thread_incr_psem.c:58-79 | the final value is the total number of iterations |
| SemIncrement.NeverOverflows | book-src/psem/thread_incr_psem.c:34-42 | when the total fits in an int, no increment ever leaves its range |
| SemIncrement.NeverStuck | book-src/psem/thread_incr_psem.c:28-46 | until all have finished some thread can move |
| Environ.Environment.Unsetenv | book-src/proc/setenv.c:23-53 | the array holds in place the entries that do not start with the name and '=', in order and terminated; bad names are refused |
| Environ.Environment.Setenv | book-src/proc/setenv.c:55-81 | all cases: bad arguments, an existing value that is kept, no memory, and the new single entry |
| Environ.Environment.Getenv | book-src/proc/setenv.c:66 | the value of the first matching entry |
| Environ.ShiftBack | book-src/proc/setenv.c:40-44 | the in-place shift removes one element and keeps the terminator |
| Environ.UnsetRemoves | book-src/proc/setenv.c:37-50 | unsetting removes the variable from the map, however often it was listed |
| Environ.SetUpdates | book-src/proc/setenv.c:66-80 | setting updates the map at the name only |
| Environ.LookupIsAbs | book-src/proc/setenv.c:66 | looking up agrees with the map |
| Environ.LookupIsFirst | book-src/proc/setenv.c:66 | the value found is what follows the equals sign of the first entry for the name |
| Environ.MatchesIsPrefix | book-src/proc/setenv.c:38 | an entry is for a name if and only if it starts with the name and an equals sign |
| Environ.UnsetKeepsOthers | book-src/proc/setenv.c:37-50 | exactly the matching entries go, and others keep their number of occurrences |
| Environ.OneEntryLeft | book-src/proc/setenv.c:66-80 | after setting there is one entry for the name |
| Environ.GetAfterSet | book-src/proc/setenv.c:23-81 | reading after setting or unsetting, for the same and for other names |
| PathSearch.SearchPath | book-src/procexec/execlp.c:140-190 | the prefixes of PATH are tried in order up to the first that starts a program; otherwise EACCES if and only if some attempt gave it, else the last error |
| PathSearch.Execlp | book-src/procexec/execlp.c:119-203 | the candidates are tried in order up to the first that starts a program, or a script after error 8; otherwise the error is 13 if and only if some attempt gave it, else that of the last |
| PathSearch.CandidateTexts | book-src/procexec/execlp.c:121-168 | a name with a slash is tried alone; an unset or empty PATH gives "./" and the name; otherwise the name follows the last slash of each text, and the part of PATH, or a dot exactly if it is empty, precedes it |
| PathSearch.BuildPathname | book-src/procexec/execlp.c:158-168 | the prefix or a dot, a slash, the name and the terminator fill the allocation exactly |
| Strings.SplitJoins | book-src/procexec/execlp.c:140-190 | the parts hold no separator and join to the string |
| Strings.SplitIsUnique | book-src/procexec/execlp.c:140-190 | no other list of separator-free parts does |
| AclSpec.ParseEntrySpec | book-src/acl/acl_update.c:79-174 | the entry is what the one reading of its text as tag, qualifier and permissions means; a text without a colon is refused |
| AclSpec.ReadingIsUnique | book-src/acl/acl_update.c:87-98 | a text has at most one reading, given by its first two colons |
| AclSpec.ReadingExists | book-src/acl/acl_update.c:87-98 | a text with a colon has a reading |
| AclSpec.ParsePerms | book-src/acl/acl_update.c:149-171 | read, write and execute are set if and only if their letters occur, and the text is refused if and only if some character is none of r, w, x and - |
| AclSpec.FormatParses | book-src/acl/acl_update.c:79-174 | writing an entry out, with the short or the long word of its tag, and parsing it gives the entry back |
| AclSpec.FormatKeyParses | book-src/acl/acl_update.c:79-174 | so does writing a key for removal, with or without a trailing colon |
| AclSpec.EntryAccepted | book-src/acl/acl_update.c:97-171 | a text is accepted if and only if its tag is one of the eight words, its name is known, and permissions are there exactly if required and well formed |
| AclSpec.EntryTable | book-src/acl/acl_update.c:110-171 | the tag, number and permissions that each word, qualifier and letter gives |
| AclSpec.ParseACL | book-src/acl/acl_update.c:180-209 | succeeds if and only if there are at most 10000 parts, all good, and then lists what they mean in order |
| AclUpdate.FindEntry | book-src/acl/acl_update.c:215-269 | an entry with the tag, and the qualifier where it matters; none if and only if the key is not there |
| AclUpdate.KeyIdentifies | book-src/acl/acl_update.c:235-266 | two entries have the same key if and only if tag and, for users and groups, qualifier agree |
| AclUpdate.FileAcl.ApplyEntry | book-src/acl/acl_update.c:402-428 | keys stay unique; the map of permissions changes at one key |
| AclUpdate.FileAcl.CalcMask | book-src/acl/acl_update.c:430-434 | the mask becomes the union of the group class, created if there was none |
| AclUpdate.FileAcl.Update | book-src/acl/acl_update.c:392-447 | keys stay unique; the file ends with all entries applied, or with those before the first that makes the list invalid; for a file with a valid list that is the first entry that stops the update |
| AclUpdate.LastSpecificationWins | book-src/acl/acl_update.c:409-428 | every key but a recalculated mask ends with the permissions of its last specification, others are unchanged |
| AclUpdate.SpecifiedAreRemoved | book-src/acl/acl_update.c:404-408 | the specified keys are gone, others are unchanged |
| AclUpdate.MaskIsUnion | book-src/acl/acl_update.c:430-434 | with recalculation a permission is in the final mask if and only if some user, owning group or group entry of the final list has it |
| AclUpdate.ModifyRefused | book-src/acl/acl_update.c:409-439 | unless an entry before stopped it, modifying stops at an entry if and only if it is for a named user or group, the mask is not recalculated, and neither the file nor an earlier entry has one |
| AclUpdate.RemoveRefused | book-src/acl/acl_update.c:404-439 | unless an entry before stopped it, removing stops at an entry if and only if that is required, or is the mask, not recalculated, while a named entry of the file has not been removed |
| AclUpdate.AcceptedIff | book-src/acl/acl_update.c:401-443 | every list stored on the way is valid if and only if no entry stops the update |

## Left out

- Operations that overlap: the theorems on snapshots after each operation are for runs in which the events of one operation
  are handled before the next operation. What holds without that is stated by MonitorProgram.AnyOrder.
- MonitorTheorem.WholeRun: says nothing of what follows an operation that left a root in the list without a directory, which
  takes a root below another one, or below a directory of another one, that is moved with it.
- The races inside one walk, that is, directories that vanish between `nftw()` and `inotify_add_watch()`: a walk is one step.
- Pathnames longer than PATH_MAX, which the program truncates, relative or unnormalised root pathnames, and the root "/".
- When the events are queued that report the watches removed by the program itself; MonitorViews.IgnoredIsIdle shows that
  reading them changes nothing.
- The order in which the kernel queues the events of one operation (moved from, moved to, move of the directory itself, deletion)
  is an assumption of the model, as is that descriptors are never reused within an instance.
- The fields of an event are one cell of the read buffer, followed by cells for its other bytes; their encoding is not modelled.
- Keyboard commands, logging, the consistency check, the `-b`, `-a` and `-d` options, read errors and the timer of the second read
  in `inotify_dtree.c`.
- ReadLoop.ProcessInotifyEvents: requires reads that fit in the buffer, because `read()` returns no more than it is asked for.
- Threads, signal handlers and processes are step relations and not methods, since the properties are about their interleavings.
- The capacity of message queues, priorities other than by the place where a message is inserted, and errors of system calls in the protocols.
- Creator UIDs, UID and GID maps, `--subtree`, colours, `/proc` scanning and the printing of member PIDs in `namespaces_of.go`; what the ioctl
  calls answer is a given forest.
- The supervisor process of `seccomp_user_notification.c` and the loading of filters.
- Environ.Environment.Putenv: the library's `putenv()` only for a variable that is not there, which is how `setenv()` calls it.
- `execShScript()` and the growth of the argument vector in `execlp.c`; what `execve()` answers is a function of the pathname.
- Strings that the ACL parser cuts in place are modelled on values; looking up names, storing an ACL and its default variant are given or left out.
- The other programs of the distribution, which mostly show single system calls.
