# QSense, modelled and proved

This project models the memory reclamation schemes of QSense, two of the concurrent search trees they serve, two
locks, the allocator and the Bloom filter, and the rotations and the balance of a third tree. `dafny verify dfyconfig.toml` checks
all of it.

Most of it is concurrent. Such a protocol is a state machine: a state has the shared memory and one position per
thread, and a step is one shared access of one thread (one load, store, compare-and-swap, swap or fetch-and-add; the
exceptions are listed below). A theorem about a protocol speaks of every run with any number of threads. Beside the
program's own fields a state carries bookkeeping: true epochs without wrap-around, who holds a node, what the tree was
after each write. The program's decisions never look at it.

What works on lists, arrays and fields in place is imperative: classes whose methods do what the functions of the
source do, each proved equal to a function on values. The theorems are about those functions.

| files | what they are about |
|---|---|
| `ExternalTree`, `TreeHistory`, `HistoryRuns` | leaf-oriented search trees, a heap that represents one, and the history of trees that lock-free walks see |
| `BstTk`, `BstTkLocks`, `BstTkProgress` | src/bst-tk: version/ticket locks on edges, every call linearizes, every lock is given back, and a call that runs alone returns |
| `BstEllen`, `BstEllenInvariant`, `BstEllenThreads`, `BstEllenSafety`, `BstEllenRuns`, `BstEllenFlags`, `BstEllenProgress` | src/bst: flags, marks and helping, no flag left behind, and a call that runs alone returns whatever others have left in the tree |
| `Qsbr`, `QsbrSafety`, `QsbrWindow`, `QsbrStale`, `QsbrProgress` | src/qsbr.c: epochs with three labels, quiescent_state step by step, a run that goes wrong, and how soon what waits is freed |
| `DoubleLlist`, `ListFamily`, `ItemLists`, `Timing`, `Counting` | the doubly linked retire lists, one alone and several side by side, sequences of retired nodes, `is_old_enough`, the pigeonhole principle |
| `LazyRotation`, `LazyPromotion`, `LazyLists`, `LazyGrowth` | src/smr_membar_lazy.c and src/smr_lazy.c: one slot and one node per rotation, and which nodes are promoted |
| `HazardScan`, `ScanVerdicts`, `HazardLists`, `Bloom` | the batch scans of src/smr.c, src/smr_no_membar.c and src/smr_no_membar_opt.c, and src/bloom.c |
| `StoreBuffers`, `ScanReads`, `FencedScan`, `FenceFree`, `Wakeups`, `Ledger` | hazard slots behind store buffers, what a scan has read of them, scans that are safe with a fence, without one, and with the wake-ups of src/sleeper_threads.c, that lose no node and keep none without reason |
| `HybridSafety`, `HybridModes` | src/qsbr_smr_hybrid.c: epochs and scans over the same lists, and the ways into and out of fallback mode |
| `LazyHybrid`, `HybridLists`, `HybridRotation` | src/hybrid_lazy.c: where every retired node is, the code on its four lists, and when a rotation is safe beside scans |
| `Htlock`, `HtlockWords`, `Clh` | the two locks |
| `Allocator` | src/ssalloc.c: the region and the ring of free blocks |
| `BronsonTree`, `BronsonSteps`, `BronsonReady`, `BronsonBalance`, `BronsonMap`, `BronsonLeaning` | src/bst-lock2, run by one thread: rotations, unlinking, updates, and when they keep the tree balanced |
| `Addresses`, `Options` | shared types |

## What the code promises and where it falls short

- While a thread tries to advance the epoch its `in_critical` is 0, and others advance past it. If its own attempt then
  fails, it goes on with the epoch label it had. `QsbrStale.StaleEpochFrees` is a run of two threads in which a node
  is freed that one of them still holds. `QsbrWindow.FailedCloseIff` is the exact condition under which the end of a
  failed call keeps the invariant of all threads; by `QsbrWindow.NoAdvanceCloses` it holds for each call in which the
  global epoch stood still. `QsbrWindow.NoFreedNodeHeld` and `HybridSafety.NoFreedNodeHeld` say that under it no run
  frees a node that is held.
- In src/hybrid_lazy.c a scan keeps what is in a slot without marking it, and shortens vlist. So a node can come to the
  tail unmarked before its slot is visited: `HybridRotation.RotationFreesHeld` is a sequence of six calls in which a
  rotation frees a node that a slot holds all the time. While the slots stand still, a node d places before the tail
  is freed by the (d + 1)-st rotation exactly if it is unmarked and in none of the next d + 1 slots
  (`HybridRotation.FreedIff`). So after a scan nothing is freed that a slot holds exactly if each node kept unmarked
  is in one of those (`HybridRotation.ScanSafeIff`), and that stays true whichever slots are cleared meanwhile exactly
  if it is in no others (`HybridRotation.SafeIffSeen`). `HybridRotation.FreedIsInNoSlot` is safety in every run whose
  scans meet the last condition, with slots written at any time.
- The bound of H + 1 nodes in vlist holds for src/smr_membar_lazy.c only. In src/smr_lazy.c the promotion loop tests the
  age of the tail, and not the size of vlist, before its first round: `LazyRotation.AgedVlistBound` says exactly when
  a call passes the bound, and by `LazyGrowth.AgedUnbounded` there is no bound at all: one slot that keeps holding one
  node is enough.
- `is_old_enough` cuts seconds and microseconds to milliseconds separately, so it can find a node old enough up to
  (not including) one millisecond early: `Timing.OldEnoughIff` says exactly when, and `Timing.AgeExcess` is an example.
- `manage_hybrid_state` sets `last_flag` to 0 when it ends the fallback mode and sets it back to 1 at its end:
  `HybridModes.FallbackAgain`, against `HybridModes.LeavesFallback`. Safety does not depend on it.
- The early exit of src/smr_no_membar_opt.c reads the clock once per node, so it can miss nodes that the full walk
  frees, never the other way round: `HazardScan.EarlyFreesFirst`, `HazardScan.EarlyFreesLess`. It misses none exactly
  if no node that it does not come to is to be freed at the reading that the full walk takes for it:
  `HazardScan.EarlySameIff`.
- The ring of free blocks is a queue up to 65535 blocks. The free that would make it 65536 turns the counter to 0 and
  forgets all of them: `Allocator.Ssalloc.Free`, `Allocator.ForgottenIff`. No block is ever handed out twice because
  of it.
- The Bronson tree uses 2 and 3 for itself. For a key that is there with value 2, `bst_add` says that it added something,
  `bst_remove` that there was nothing, and with value 3 `bst_add` never returns; below the top node `bst_contains`
  fails alike. The contracts of `BronsonMap.Bst.Contains`, `BronsonMap.Bst.Add` and `BronsonMap.Bst.Remove` say
  exactly when the answer is right, and `BronsonMap.ReservedValuesFail` and `BronsonMap.ContainsFails` are trees for
  which it is not.
- A tree without routing nodes in which every node is at rest is so again after `bst_add` and `bst_remove`:
  `BronsonMap.Bst.Add`, `BronsonMap.Bst.Remove`. With a routing node the repair can stop too early:
  `BronsonReady.StopsEarlyIff` says exactly when rebalancing a node comes to nothing and goes on to its child, and in
  `BronsonLeaning.StopsUnbalanced` that child needs nothing, so a node stays two higher on one side.
- The keys of the Bronson tree compare as an `int` difference, which is the true one exactly if it fits
  (`BronsonMap.DifferenceKept`). So whatever key it is asked for, a search is one for the key inside the tree's bounds
  that differs from it by a multiple of 2^32 (`BronsonMap.TakenIff`). `bst_contains` finds a key that is not there,
  `BronsonMap.WideKeyFails` for example, exactly if it would find a stored one that differs from it so
  (`BronsonMap.Bst.Contains`), and `bst_remove` removes that one (`BronsonMap.Bst.Remove`).
- The local counter of the ticket lock goes down at every attempt to get a ticket. After 2^31 attempts in vain it wraps,
  and a thread that gets a ticket then waits for ever: `HtlockWords.LostForever`. Mutual exclusion does not depend on
  it: `HtlockWords.MutualExclusion`. The global counters may wrap as often as they like: `HtlockWords.TurnSeen`.

## Model

| member | source | states |
|---|---|---|
| ExternalTree.SearchCorrect | src/bst-tk/bst_tk.c:102-126 | a search of a tree with ordered keys ends at a leaf with the key exactly if the tree contains the key, and the leaf has its value |
| ExternalTree.GraftContents | src/bst-tk/bst_tk.c:178-199 | replacing the end leaf by a fork of it and a new leaf adds exactly one binding and keeps the order |
| ExternalTree.SpliceContents | src/bst-tk/bst_tk.c:74-96 | replacing the last router by the sibling of the end leaf removes exactly one binding and keeps the order |
| ExternalTree.GraftRep | src/bst-tk/bst_tk.c:178-199 | one write of one child pointer turns the heap of a tree into that of the grafted tree |
| ExternalTree.SpliceRep | src/bst-tk/bst_tk.c:74-96 | one write of one child pointer turns the heap of a tree into that of the spliced tree |
| ExternalTree.RepUnique | src/bst-tk/bst.h:117-131 | a heap represents at most one tree at an address |
| TreeHistory.WalkStep | src/bst-tk/bst_tk.c:110-118 | from a node that was on the search path of k since the walk began, the pointer toward k, read at any later time, leads to another such node, even if the first has been removed |
| TreeHistory.SeenLeafAnswers | src/bst-tk/bst_tk.c:120-125 | a leaf reached this way gives an answer that was true of the tree at some moment since the walk began |
| TreeHistory.GraftKeepsHistory | src/bst-tk/bst_tk.c:178-199 | a graft keeps the invariant of the history that lock-free walks rely on, takes only the replaced leaf out of the tree and takes no other node off any search path |
| TreeHistory.SpliceKeepsHistory | src/bst-tk/bst_tk.c:74-96 | a splice keeps it as well, and takes only the leaf and its router out |
| BstTk.TryLockMeansUnwritten | src/bst-tk/bst.h:57-77 | the compare-and-swap on the 16-bit word read before the child pointer succeeds only if the edge is free and its child pointer was not written since |
| BstTk.InsertionPoint | src/bst-tk/bst_tk.c:168-180 | whoever holds pred's edge at the version of its parse has pred as the last router and curr as the end leaf of its key now |
| BstTk.DeletionPoint | src/bst-tk/bst_tk.c:57-96 | whoever holds both locks of a deletion has ppred, pred and curr as the end of its key's path now, and the sibling read is the sibling now |
| BstTk.OthersKept | src/bst-tk/bst_tk.c:13-211 | no step of one thread breaks what another thread relies on |
| BstTk.RunInv | src/bst-tk/bst_tk.c:13-211 | the invariant of memory, locks and all threads holds in every state of every run |
| BstTk.NoWildPointer | src/bst-tk/bst_tk.c:13-211 | no thread ever dereferences a pointer that leads nowhere |
| BstTk.AlwaysASearchTree | src/bst-tk/bst_tk.c:13-211 | in every reachable state the heap under head is exactly one external search tree with both sentinels and two children per router |
| BstTk.OnlyOwnKeyChanges | src/bst-tk/bst_tk.c:13-211 | the map changes only at an update's child write, by exactly that update's key, which was absent for an insert and present for a delete |
| BstTk.EveryCallLinearizes | src/bst-tk/bst_tk.c:13-211 | every completed call, in every run, took effect at one moment of the call: an update that returns success at a change of the map that is its own and its only one, everything else at a moment when its answer was true of the tree |
| BstTk.NoSharedChange | src/bst-tk/bst_tk.c:13-211 | two different successful calls have two different changes |
| BstTkLocks.LockedIffHeld | src/bst-tk/bst_tk.c:57-211 | in every reachable state an edge whose version differs from its ticket, and which is not removed, is the edge of exactly one thread that stands between taking that lock and giving it back; of any other edge no thread does |
| BstTkLocks.RemovedLeaves | src/bst-tk/bst_tk.c:62-98 | the two words that stay locked for good never stay in the tree: a removed router that is still there is the pred of a thread about to splice it out |
| BstTkLocks.NothingLeftLocked | src/bst-tk/bst_tk.c:57-211 | when no thread stands between lock and unlock, both edges of every node of the tree have version equal to ticket |
| BstTkProgress.AloneReturns | src/bst-tk/bst_tk.c:13-211 | a find, insert or delete that begins to search when no lock is held, and then runs alone, is done within twice the length of its path and six steps, and never goes back to retry |
| HistoryRuns.AnswerMoment | src/bst-tk/bst_tk.c:102-126 | an answer true of some tree of the history since the call began was true in some state of the call |
| BstEllenInvariant.FlagPins | src/bst/bst_ellen.c:127-183 | a node flagged by another record keeps its update word, its children and its place on the search path |
| BstEllenInvariant.MarkPins | src/bst/bst_ellen.c:239-258 | a marked node keeps its update word and its children |
| BstEllenInvariant.CleanPins | src/bst/bst_ellen.c:52-77 | a clean update word that is still there proves that the children read after it are still the children |
| BstEllenInvariant.LinkTree | src/bst/bst_ellen.c:187-199 | the child write of bst_help_insert, whoever performs it, adds exactly the record's binding |
| BstEllenInvariant.SpliceTree | src/bst/bst_ellen.c:260-279 | the child write of bst_help_marked removes exactly the record's binding |
| BstEllenInvariant.LinkKeeps | src/bst/bst_ellen.c:187-199 | that write keeps the memory invariant |
| BstEllenInvariant.SpliceKeeps | src/bst/bst_ellen.c:260-279 | so does this one |
| BstEllenInvariant.MarkKeeps | src/bst/bst_ellen.c:239-250 | marking p keeps it |
| BstEllenInvariant.SettleKeeps | src/bst/bst_ellen.c:187-279 | the last compare-and-swap of a record, completing it or backing it out, keeps it |
| BstEllenInvariant.FlagInsertKeeps | src/bst/bst_ellen.c:168-180 | publishing an insertion record keeps it |
| BstEllenInvariant.FlagDeleteKeeps | src/bst/bst_ellen.c:217-232 | publishing a deletion record keeps it |
| BstEllenThreads.FrameStepKeeps | src/bst/bst_ellen.c:187-299 | every step of every helping call keeps it, however late the helper comes |
| BstEllenThreads.ThreadKept | src/bst/bst_ellen.c:127-299 | no thread loses what it knows when another record, or its own with another's help, moves on |
| BstEllenSafety.AdvanceOk | src/bst/bst_ellen.c:52-299 | every step of every thread keeps the whole invariant, and a thread in a call can always take its step |
| BstEllenRuns.AlwaysASearchTree | src/bst/bst_ellen.c:127-299 | in every reachable state the heap under the root is exactly one external search tree with both sentinels |
| BstEllenRuns.NoWildPointer | src/bst/bst_ellen.c:52-299 | everything the next step of a thread in a call dereferences is there |
| BstEllenRuns.ChildrenChangeOnlyWhileFlagged | src/bst/bst_ellen.c:187-299 | a step that changes the children of a node finds that node flagged for an insertion or deletion, and never marked |
| BstEllenRuns.MarkedForever | src/bst/bst_ellen.c:239-279 | a marked node's update field and children never change again |
| BstEllenRuns.EachRecordOnce | src/bst/bst_ellen.c:187-289 | no two changes of the tree are the work of the same record, however many threads help |
| BstEllenRuns.EachEntryIsItsRecord | src/bst/bst_ellen.c:187-279 | each change of the tree is one binding more or less, as the record that made it says |
| BstEllenRuns.RecordForever | src/bst/bst_ellen.c:187-289 | what a record says and whose it is never changes, and its phase only goes forward: flagged, marked or linked, finished |
| BstEllenRuns.MarkedOrBackedOut | src/bst/bst_ellen.c:239-258 | a deletion record whose mark stands is never backed out, and one that was backed out never gets its mark to stand: completed or backed out, never both |
| BstEllenRuns.EveryCallLinearizes | src/bst/bst_ellen.c:79-258 | every completed find, insert and delete took effect at one moment of the call: a successful update at the change made by its own record, whoever made it, everything else at a moment when its answer was true |
| BstEllenRuns.NoSharedChange | src/bst/bst_ellen.c:79-258 | two different successful calls have two different changes |
| BstEllenFlags.ReturnsSettled | src/bst/bst_ellen.c:187-279 | a helping call that returns leaves its record completed or backed out, and its flag gone |
| BstEllenFlags.FlagHasOwner | src/bst/bst_ellen.c:168-279 | in every reachable state a flagged node is being worked on by exactly one thread that made the flag's record: it is inside its own helping call |
| BstEllenFlags.NothingLeftFlagged | src/bst/bst_ellen.c:168-279 | when no thread is inside such a call, every update field in the tree is clean: no flag and no mark is left behind |
| BstEllenProgress.FrameLighter | src/bst/bst_ellen.c:187-289 | every step of a helping call makes what is left of it less, also when a deletion first helps the record in its way, which stands one deeper in the tree |
| BstEllenProgress.AloneReturns | src/bst/bst_ellen.c:52-289 | a call that begins to search in any reachable state, wherever the other threads have stopped with their flags and marks, is done within a number of its own steps if it runs alone from there |
| BstEllenProgress.DoneInRun | src/bst/bst_ellen.c:52-289 | and so it is in every run in which it alone takes that many steps |
| Qsbr.Reclaimer.UpdateEpoch | src/qsbr.c:75-108 | advances the epoch exactly if no other critical thread has an older one, and changes nothing else |
| Qsbr.Reclaimer.ProcessList | src/qsbr.c:165-184 | hands back every node of one limbo list, in order, and takes their number off rcount |
| Qsbr.Reclaimer.Quiesce | src/qsbr.c:193-232 | undisturbed, it does to epochs, flags, lists and counters what QuiescentState says, after one round, unless it blocks and another thread lags; then it changes nothing and goes on trying. Whenever the thread's label changes, its list under the new label is empty afterwards and all that stood there is freed in order, and otherwise nothing is; which label the thread ends with is said as well |
| Qsbr.Reclaimer.Retire | src/qsbr.c:238-255 | puts the node at the head of the list of the thread's epoch and counts it |
| Qsbr.AdoptConserves | src/qsbr.c:165-184 | processing callbacks loses no node and invents none, and keeps rcount the number of waiting nodes |
| Qsbr.FreeNodeLaterConserves | src/qsbr.c:238-255 | retiring adds exactly the one node to what waits |
| Qsbr.QuiescentLaw | src/qsbr.c:193-232 | what QuiescentState does, told by labels alone: a label changes to that of the current epoch, or of the next one if no other critical thread lags, exactly the list under the new label is freed, and without a change nothing is |
| QsbrSafety.LabelMeansThreeEpochs | src/qsbr.c:193-232 | what waits under the label of a later epoch is at least three epochs old |
| QsbrSafety.GracePeriod | src/qsbr.c:193-232 | every node of a list about to be freed was retired three true epochs ago, every critical thread has an epoch later than its unlinking, and no thread, critical or exited, holds it |
| QsbrWindow.FailedCloseIff | src/qsbr.c:208-229 | the end of a failed call keeps the invariant of all threads exactly if the thread's epoch label is the current one, or the one before and no update_epoch under way has passed the thread over |
| QsbrWindow.NoAdvanceCloses | src/qsbr.c:208-229 | a call during which the global epoch does not advance meets that condition, however many steps of others come in between |
| QsbrWindow.LagAtMostOne | src/qsbr.c:75-108 | in every run whose failed calls end so, critical threads outside quiescent_state lag the true global epoch by at most one, labels are true epochs modulo three, and rcount counts what waits |
| QsbrWindow.FreedLate | src/qsbr.c:134-145 | in those runs whatever is freed was retired at least three true epochs earlier, also by a thread that has exited |
| QsbrWindow.NoFreedNodeHeld | src/qsbr.c:75-255 | in those runs no freed node is held by any thread, and none is freed twice; in_critical is written, and others' flags are read, in steps of their own |
| QsbrStale.StaleEpochFrees | src/qsbr.c:193-232 | a run of two threads, one call of which ends otherwise, in which a node is freed that a thread in its critical section holds |
| QsbrWindow.CallShape | src/qsbr.c:193-232 | no step of a quiescent state changes who holds what or which nodes are linked |
| QsbrWindow.StepsAddUp | src/qsbr.c:193-232 | the steps of a call, undisturbed, amount to the one call of the class |
| QsbrWindow.NewLabelFrees | src/qsbr.c:193-232 | in every run, whenever a step changes a thread's label, its list under the new label is empty afterwards and its nodes are appended to the freed ones in order; a step that changes no label frees nothing |
| QsbrWindow.EndsWithLabel | src/qsbr.c:193-232 | a call of quiescent_state that does not fail ends with the label of the current epoch |
| QsbrWindow.NewLabelTaken | src/qsbr.c:200-206 | a call that finds a new epoch takes its label over at once, with what that frees |
| QsbrProgress.RoundAdvances | src/qsbr.c:75-108 | with all threads in critical sections, after a first round of calls of quiescent_state, one thread after the other and undisturbed, each further round advances the epoch and every label by one |
| QsbrProgress.AllFreed | src/qsbr.c:193-232 | after four such rounds, the first included, every node that waited at their beginning has been freed, whatever is retired meanwhile |
| DoubleLlist.DoubleList.AddToHead | src/double_llist.c:3-15 | the list becomes the node followed by the old list, with all links in order |
| DoubleLlist.DoubleList.RemoveFromTail | src/double_llist.c:17-34 | returns the last node and leaves the others, or NULL for the empty list |
| DoubleLlist.DoubleList.RemoveNode | src/double_llist.c:42-61 | takes a node out of the list wherever it stands; its own links stay, so a walk can go on from it |
| DoubleLlist.DoubleList.Take | src/smr.c:155-165 | moves a whole list into another one and leaves the first empty |
| DoubleLlist.MoveTail | src/smr_membar_lazy.c:218-228 | moves the oldest node of one list to the head of another, and touches nothing else |
| Timing.MsecAccurate | src/smr_no_membar.c:196-202 | the computed age differs from the true age by less than one millisecond either way |
| Timing.OldEnoughIff | src/smr_no_membar.c:196-202 | the test succeeds exactly from 200 ms on, and between 199 and 200 ms if the microsecond field of the clock is below that of the time stamp |
| Timing.AgeExcess | src/smr_no_membar.c:196-202 | 199.001 ms can succeed |
| Timing.OlderIsOldEnough | src/smr_no_membar_opt.c:294-300 | at one clock reading, whatever is older than something old enough is old enough |
| LazyLists.LazySmr.FreeNodeLater | src/smr_membar_lazy.c:208-229 | on the two pointer lists, marks and counters, the call is LazyRotation.Retire |
| LazyLists.LazySmr.FreeNodeLaterAged | src/smr_lazy.c:223-259 | on the two pointer lists the call is LazyRotation.RetireAged, clock reading by clock reading |
| LazyLists.LazySmr.Rotate | src/smr_membar_lazy.c:231-264 | one slot is visited, and the tail of vlist turned or freed |
| LazyRotation.TailIsClear | src/smr_membar_lazy.c:231-264 | a node unmarked at the tail of vlist after the visit is in no slot: between the two halves of a rotation its distance to the tail plus the slots visited never falls below H |
| LazyRotation.FreedIsInNoSlot | src/smr_membar_lazy.c:208-264 | in every interleaving with slot writes of other threads, a node freed by a rotation is in no slot at that moment |
| LazyRotation.RetireInv | src/smr_membar_lazy.c:208-229 | a whole call of free_node_later keeps the invariant and frees at most one node, which is in no slot |
| LazyRotation.RetireAgedInv | src/smr_lazy.c:223-293 | the same for the age-gated scheme, with promotions that leave nodes unmarked |
| LazyRotation.VlistBounded | src/smr_membar_lazy.c:208-229 | after every call of every run of calls, with slots and marks changed by others in between, vlist has at most H + 1 nodes |
| LazyRotation.SomeCallFrees | src/smr_membar_lazy.c:208-264 | among any 2(H + 1) consecutive calls that rotate, with the slots unchanged, one frees a node |
| LazyRotation.AgedVlistBound | src/smr_lazy.c:223-259 | a call of the age-gated scheme leaves more than H + 1 nodes exactly if vlist was full, the tail of rlist old enough and the tail of vlist marked or just found in the slot |
| LazyPromotion.RetirePromotes | src/smr_membar_lazy.c:208-229 | a call moves the oldest nodes of rlist to vlist, in order, and stops exactly when vlist is beyond H or rlist is empty |
| LazyPromotion.RetireAgedPromotes | src/smr_lazy.c:223-259 | each node that a call moves from rlist to vlist is old enough at its own clock reading, they are the oldest ones in order, and a call that stops before vlist is full has found the next one too young |
| LazyPromotion.AgedRunOld | src/smr_lazy.c:223-293 | over every run of calls, each node in vlist and each freed one was found old enough by a call after it was retired |
| LazyGrowth.AgedUnbounded | src/smr_lazy.c:223-259 | for every n some run of calls from the beginning, with one slot that keeps holding one node, leads to more than n nodes in vlist |
| HazardScan.KeptExactly | src/smr.c:150-183 | a scan keeps all hazardous positions and no others, in the old order |
| HazardScan.DroppedMembers | src/smr.c:166-182 | a scan frees exactly the nodes that are in no slot |
| HazardScan.KeptOrDropped | src/smr.c:150-183 | every node is kept or freed, once |
| HazardScan.ScanLeavesFew | src/smr.c:120-183 | a scan leaves at most H nodes |
| HazardScan.RetireBounds | src/smr.c:188-200 | from fewer than R nodes waiting free_node_later leads to fewer than R again, a scan that it triggers frees at least R - H nodes, and none of them is hazardous; below R nothing is scanned |
| HazardScan.GarbageBounded | src/smr.c:188-200 | after every call of every run of calls, with other slots at each of them, fewer than R nodes wait and all others that were retired have been freed |
| HazardScan.AgedKeptOrDropped | src/smr_no_membar.c:150-175 | the timed scan loses nothing either |
| HazardScan.AgedDroppedOk | src/smr_no_membar.c:150-175 | what it frees passed the age test at its own clock reading and is in no slot read |
| ScanVerdicts.AgedKeepsExactly | src/smr_no_membar.c:150-175 | the timed scan keeps exactly the positions whose node is too young at its reading or in a slot read, and counts them |
| ScanVerdicts.AgedFreesIff | src/smr_no_membar.c:150-175 | and it frees a node exactly if some position holds it that is old enough at its reading and in no slot read |
| HazardScan.WalkDroppedOk | src/smr_no_membar_opt.c:180-262 | what the optimized walk frees passed the age test at the clock reading taken when the walk came to it, and was not found by the search |
| HazardScan.WalkKeptOrDropped | src/smr_no_membar_opt.c:180-262 | the walk loses nothing |
| ScanVerdicts.WalkExactly | src/smr_no_membar_opt.c:215-262 | the walk goes from the tail to the head, or with early exit to the first node too young at its reading; of the positions it comes to it keeps, and frees, exactly those that fail, and pass, the age test and the search |
| HazardScan.EarlyFreesFirst | src/smr_no_membar_opt.c:215-262 | whatever the clock readings, the walk with early exit frees a first part of what the full walk frees |
| HazardScan.EarlyFreesLess | src/smr_no_membar_opt.c:215-262 | two nodes and three readings with which it frees less |
| HazardScan.EarlySameIff | src/smr_no_membar_opt.c:215-262 | whatever the clock readings, the walk with early exit frees, and keeps, what the full walk does exactly if none of the nodes before its stop would be freed at its own later reading |
| HazardScan.EarlyExit | src/smr_no_membar_opt.c:215-262 | while the clock stands still, stopping at the first node too young frees and keeps what the full walk does, as the list is sorted |
| HazardScan.WalkIsPlainScan | src/smr_no_membar_opt.c:180-262 | while the clock stands still, the walk in place frees the same nodes as the plain scan and keeps the same ones, in reverse order |
| HazardScan.CoarserFreesLess | src/smr_no_membar_opt.c:151-178 | whatever the clock readings, a search that errs only towards yes frees a subset, and nothing hazardous |
| HazardScan.WalkKeepsSorted | src/smr_no_membar_opt.c:180-262 | the list stays sorted by creation |
| HazardLists.ReadSlots | src/smr.c:139-145 | plist gets exactly the non-NULL slots in order and is not overrun |
| HazardLists.Ssearch | src/smr.c:110-118 | says whether the key is among the first entries |
| HazardLists.Smr.ScanAll | src/smr.c:120-183 | on the linked list, scan is HazardScan.Scan |
| HazardLists.Smr.FreeNodeLater | src/smr.c:188-200 | on the linked list, free_node_later is HazardScan.Retire |
| HazardLists.NoMembar.ScanAll | src/smr_no_membar.c:117-175 | on the singly linked pointer list, the timed scan is AgedKept and AgedDropped, clock reading by clock reading |
| HazardLists.NoMembar.FreeNodeLater | src/smr_no_membar.c:177-194 | the new node goes to the head, and the scan follows exactly if R nodes wait |
| HazardLists.Optimized.Walk | src/smr_no_membar_opt.c:215-262 | removing in place from tail to head, with or without early exit, is WalkKept and WalkDropped, clock reading by clock reading |
| HazardLists.Optimized.ScanExact | src/smr_no_membar_opt.c:180-262 | scan with the linear search frees what the exact walk frees |
| HazardLists.Optimized.ScanBloom | src/smr_no_membar_opt.c:180-262 | scan with the filter keeps, frees and counts what the walk does whose search is the filter of the non-NULL slots; it frees only nodes in no slot, all of which the exact scan would have freed too, and the same ones if all slots are NULL and there is a hash function |
| HazardLists.BloomFreesIff | src/smr_no_membar_opt.c:151-262 | such a walk frees a node that it comes to exactly if the node is old enough at its reading and one of its probes is a probe of no non-NULL slot |
| HazardLists.Optimized.FreeNodeLater | src/smr_no_membar_opt.c:265-292 | the new node goes to the head, and the scan follows exactly if R nodes wait |
| Bloom.Filter.CheckAdd | src/bloom.c:25-62 | the answer is 1 exactly if all probes hit, and with add set exactly the probed bits are set besides |
| Bloom.Filter.AddAll | src/smr_no_membar_opt.c:163-178 | afterwards every non-NULL slot is in the filter, and the bits set are those that were and the probes of those slots, no others |
| Bloom.Filter.ContainsIff | src/bloom.c:25-62 | a filter filled so says yes exactly if each probe of the node is a probe of some non-NULL slot |
| Bloom.Filter.Check | src/bloom.c:101-105 | no false negatives |
| StoreBuffers.FreeableIsFree | src/smr_no_membar.c:117-175 | a node that passes the age test and was in no slot read is held by no thread, if V plus the delay from reading to judging plus 1 ms is at most SLEEP_AMOUNT + MARGIN |
| StoreBuffers.WorldStepInv | src/smr_no_membar.c:117-135 | publishing, flushing, time, acquiring, dropping and unlinking keep what is known of the slots |
| ScanReads.PlistIff | src/smr.c:139-145 | at every moment of a scan plist holds exactly the nodes that the scan's own reads of the slots have shown it |
| ScanReads.EachRead | src/smr.c:139-145 | and by then the scan has read every slot before the one it comes to next |
| FencedScan.NoFreedNodeHeld | src/smr.c:120-200 | with a fence after each publication, in every run of any number of threads that scan slot by slot, no freed node is held, whatever the clock |
| FencedScan.KeptIffSeen | src/smr.c:120-183 | in every such run a scan judges its nodes after it has read all slots, oldest first, and keeps a node exactly if one of its own reads has shown it; otherwise it frees it |
| FencedScan.Conservation | src/smr.c:120-200 | in every such run the nodes retired are exactly those that wait in some thread's lists and those freed, with multiplicity: what was retired once is freed at most once |
| Wakeups.WakeupsSuffice | src/sleeper_threads.c:28-50 | every run in which each core is woken up at least every period is a run in which no write stays unseen for longer than that |
| Wakeups.NoFreedNodeHeld | src/sleeper_threads.c:28-50 | so in every such run no freed node is held, if the period takes the place of V in the timing condition |
| FenceFree.NoFreedNodeHeld | src/smr_no_membar.c:117-194 | in every run with any number of scanning threads no freed node is held, under that timing condition |
| FenceFree.FreedIffOldAndUnseen | src/smr_no_membar.c:117-175 | in every timely run a scan judges its nodes after it has read all slots, and frees a node exactly if it is old enough at that moment and none of the scan's own reads has shown it |
| FenceFree.Conservation | src/smr_no_membar.c:117-194 | in every run, timely or not, the nodes retired are exactly those that wait and those freed, with multiplicity |
| HybridSafety.JudgedIsFree | src/qsbr_smr_hybrid.c:243-311 | a node about to be freed by a scan, out of lists shared with the epoch scheme, is held by nobody |
| HybridSafety.NoFreedNodeHeld | src/qsbr_smr_hybrid.c:116-382 | for any sequence of flag flips, epoch frees and scan frees, with failed quiescent states that end as QsbrWindow.FailedCloseIff demands, no freed node is held and none is freed twice |
| HybridSafety.FreedIffOldAndUnseen | src/qsbr_smr_hybrid.c:243-311 | in every run a scan takes the nodes of each limbo list oldest first, and frees a node exactly if it is old enough at that moment and none of the scan's own reads has shown it |
| HybridModes.FailureSwitches | src/qsbr_smr_hybrid.c:322-347 | after a failed allocation a thread scans exactly if the fallback mode is on then, and quiesces otherwise; it turns the mode on exactly if it has last seen it off and has tried SWITCH_THRESHOLD times |
| HybridModes.PresenceSwitches | src/qsbr_smr_hybrid.c:349-383 | at the end of a call the mode goes off exactly if every other thread has reported its presence, and how often the thread quiesces then |
| HybridModes.LeavesFallback | src/qsbr_smr_hybrid.c:322-383 | in every run, last_flag of a thread goes from 1 to 0 only by ending the fallback mode itself, or after 100 completed quiescent states during which it does nothing else, begun in fallback mode with the flag cleared |
| HybridModes.FallbackAgain | src/qsbr_smr_hybrid.c:349-383 | a thread that ends the fallback mode completes ten quiescent states before it does anything else, and then its last_flag is 1 again |
| LazyHybrid.Conservation | src/hybrid_lazy.c:90-417 | over any sequence of calls the retired nodes are those in the four lists and those freed, and rcount is the sum of the sizes |
| LazyHybrid.EachNodeOnce | src/hybrid_lazy.c:90-417 | every node is found there as often as it was retired: once, in exactly one place |
| LazyHybrid.ProcessFreesAll | src/hybrid_lazy.c:160-189 | ending an epoch frees every node of that epoch's list, the oldest first, and touches nothing else |
| LazyHybrid.ScanKeepsExactly | src/hybrid_lazy.c:326-417 | a scan keeps, in each of the four lists and in order, exactly the positions that a slot holds or, in the limbo lists, that are too young at their reading |
| LazyHybrid.ScanFreesIff | src/hybrid_lazy.c:326-417 | it frees a node exactly if some position holds it that no slot holds and that is old enough at its reading, or in vlist |
| LazyHybrid.ScanFreesNoneHeld | src/hybrid_lazy.c:326-417 | no node that a scan frees is the value of any slot |
| LazyPromotion.UpdatePromotes | src/hybrid_lazy.c:256-291 | an update moves the oldest nodes of the three limbo lists to vlist, list after list and in order, each old enough at its own reading, and leaves a list only when vlist is beyond H, the list empty or its next node too young |
| HybridRotation.FreedIff | src/hybrid_lazy.c:293-324 | while the slots stand still, whatever is promoted between the rotations, a node d places before the tail of vlist is freed by the (d + 1)-st rotation exactly if it is unmarked and none of the next d + 1 slots holds it |
| HybridRotation.StillSafeIff | src/hybrid_lazy.c:293-324 | whenever so many rotations follow that all of vlist comes to the tail, no node of vlist is freed then or later while a slot holds it exactly if each that is unmarked is in a slot visited before |
| HybridRotation.ScanSafeIff | src/hybrid_lazy.c:326-417 | so it is for what a scan keeps of vlist, which can be told before the call |
| HybridRotation.SafeIffSeen | src/hybrid_lazy.c:293-417 | every slot that holds a node kept unmarked is among those visited before exactly if the condition stays true whichever slots are cleared |
| HybridRotation.RetireIsRound | src/hybrid_lazy.c:238-291 | a call of free_node_later in fallback mode that rotates is promotions and one rotation |
| HybridRotation.FreedIsInNoSlot | src/hybrid_lazy.c:256-417 | in every run of promotions, rotations, scans, epoch processing and slot writes, a node that a rotation frees is in no slot, if after every scan each slot that holds a node kept unmarked is among those visited before that node is at the tail |
| HybridRotation.RotationFreesHeld | src/hybrid_lazy.c:256-417 | six calls, a scan among them, after which a node is freed that a slot held from the first to the last |
| HybridLists.HybridThread.ProcessCallbacks | src/hybrid_lazy.c:160-189 | on the four linked lists, hands back the whole list oldest first and takes its length off rcount, as Process says |
| HybridLists.HybridThread.FreeNodeLater | src/hybrid_lazy.c:238-254 | on the four linked lists, is Retire: the node enters the list of its epoch, and in fallback mode the lists are updated |
| HybridLists.HybridThread.UpdateBoth | src/hybrid_lazy.c:256-291 | on the four linked lists, is UpdateLists: the promotions from the three lists, clock reading by clock reading, then a rotation |
| HybridLists.HybridThread.Rotation | src/hybrid_lazy.c:293-324 | on the four linked lists, is Rotate: one slot visited, and the tail of vlist turned or freed |
| HybridLists.HybridThread.ScanAll | src/hybrid_lazy.c:326-417 | on the four linked lists, is Scan over all four, with rcount counted up again from 0 |
| HybridLists.HybridThread.DrainVlist | src/hybrid_lazy.c:90-117 | on the four linked lists, is Drain: vlist goes to the head of limbo list 0 in its order |
| Htlock.MutualExclusion | src/htlock.c:345-420 | at most one thread of all nodes is in the critical section |
| HtlockWords.TurnSeen | src/htlock.c:328-343 | a thread that compares 32-bit global tickets finds its turn exactly when it has come: fewer than 2^32 are out |
| HtlockWords.WordStepSame | src/htlock.c:345-420 | the program on its 32-bit words does what the model with unbounded tickets does, step by step, as long as no decrement of a local nxt underflows |
| HtlockWords.LostForever | src/htlock.c:345-372 | a thread that got its local ticket from a counter that had wrapped round never goes on |
| HtlockWords.MutualExclusion | src/htlock.c:345-420 | at most one thread of all nodes is in the critical section in every run on words, whatever wraps round |
| Htlock.BatchBounded | src/htlock.c:345-420 | one global ticket covers at most NB_TICKETS_LOCAL + 1 critical sections |
| Htlock.TicketsLeft | src/htlock.c:345-372 | with at most NB_TICKETS_LOCAL + 1 threads per node the local tickets do not run out while a batch is being served |
| Htlock.RelSetCurNode | src/htlock.c:395-420 | the late store to cur after a batch was ended hurts nobody |
| Htlock.NeverStuck | src/htlock.c:345-420 | while a thread is in a call, some thread's next step takes it further in its call, or out of it after its critical section: no deadlock |
| Clh.OnlyFirstEnters | src/clh.c:5-30 | a spinning thread finds its predecessor's qnode unlocked exactly if it is first in the queue |
| Clh.MutualExclusion | src/clh.c:5-37 | at most one thread is in the critical section |
| Clh.FirstComeFirstServed | src/clh.c:5-37 | threads enter in the order in which they swapped the tail |
| Clh.OnePartEach | include/lock_if.h:290-308 | although qnodes change hands on release, each has always exactly one part: in the lock, or owned by exactly one thread outside the queue |
| Clh.FirstCanEnter | src/clh.c:5-37 | the first thread of a nonempty queue is inside or can enter at once |
| Clh.StaysIffBehind | src/clh.c:5-37 | every thread can take its step, and stays where it is exactly if it spins behind another one |
| Allocator.Ssalloc.Alloc | src/ssalloc.c:67-97 | on the ring with its 16-bit indices, alloc is AllocStep |
| Allocator.Ssalloc.Free | src/ssalloc.c:136-148 | on the ring with its 16-bit indices, free is FreeStep, and it appends the block to the queue exactly if the counter was below 65535 |
| Allocator.ReuseLeavesTwo | src/ssalloc.c:74-79 | reuse takes the block that has been free longest and leaves at least two |
| Allocator.CutInsideIff | src/ssalloc.c:80-92 | a block cut from the region lies inside exactly if the sum with the size does not wrap in size_t |
| Allocator.BlocksDisjoint | src/ssalloc.c:67-148 | in every run with one block size, blocks in use or free lie inside the region and do not overlap |
| Allocator.FirstFreedFirstReused | src/ssalloc.c:67-148 | in every run in which no free overfilled the ring, blocks are reused in the order in which they were freed |
| Allocator.BlocksAddUp | src/ssalloc.c:67-148 | in every run every block ever cut is in use, free or missing, and in one of these only |
| Allocator.FailsIff | src/ssalloc.c:67-97 | in every run with one block size alloc returns NULL exactly if at most two blocks are free and those in use, free and missing are together all that fit in the region; otherwise it hands out a block that nobody uses |
| Allocator.ForgottenIff | src/ssalloc.c:136-148 | blocks are missing, neither in use nor free, exactly after a run with a free that found 65535 in the ring |
| BronsonTree.ChangeEnds | src/bst-lock2/bst_bronson_java.h:117-139 | a finished change leaves a version that is neither shrinking nor unlinked, and an unfinished one is recognized |
| BronsonTree.TurnKeeps | src/bst-lock2/bst_bronson_java.c:730-829 | a rotation to either side keeps the search order, the parent links, and exactly the same map |
| BronsonTree.DoubleTurnKeeps | src/bst-lock2/bst_bronson_java.c:831-957 | so does a double rotation, which is two single ones |
| BronsonSteps.UnlinkValid | src/bst-lock2/bst_bronson_java.c:441-478 | unlinking a node with at most one child removes exactly its key |
| BronsonSteps.InsertValid | src/bst-lock2/bst_bronson_java.c:255-287 | a new leaf where the search ended adds exactly its key, which was absent |
| BronsonSteps.ValueKeeps | src/bst-lock2/bst_bronson_java.c:383-414 | setting or clearing a value changes exactly that key's entry |
| BronsonSteps.Below | src/bst-lock2/bst_bronson_java.c:90-147 | the child on the side of a key is the only way to it |
| BronsonReady.ConditionMeans | src/bst-lock2/bst_bronson_java.c:480-520 | the condition codes never clash with heights, and a height it returns makes the node accurate |
| BronsonMap.Bst.FixHeightNl | src/bst-lock2/bst_bronson_java.c:504-520 | changes at most the node's height, and makes it accurate unless the node itself needs repair; nobody is damaged afterwards if the node was at rest, its parent if the height has changed, the node if it needs more |
| BronsonMap.Bst.AttemptUnlinkNl | src/bst-lock2/bst_bronson_java.c:441-478 | succeeds exactly if a child is missing, and then removes exactly the key |
| BronsonMap.Bst.RotateRightNl | src/bst-lock2/bst_bronson_java.c:730-778 | turns exactly the three links, keeps the map, and from the children's heights gives both nodes accurate ones; the damaged node afterwards is the lowest that is not at rest |
| BronsonMap.Bst.RotateLeftNl | src/bst-lock2/bst_bronson_java.c:780-829 | the mirror image |
| BronsonMap.Bst.RotateRightOverLeftNl | src/bst-lock2/bst_bronson_java.c:831-893 | the double turn, with three accurate heights; the damaged node afterwards is the lowest that is not at rest |
| BronsonMap.Bst.RotateLeftOverRightNl | src/bst-lock2/bst_bronson_java.c:895-957 | the mirror image |
| BronsonMap.Bst.RebalanceToRightNl | src/bst-lock2/bst_bronson_java.c:606-665 | dereferences no NULL, comes to an end, keeps the map and the set of nodes, and does exactly what MendOf chooses: nothing, or a turn or a double turn at n or below it |
| BronsonMap.Bst.RebalanceToLeftNl | src/bst-lock2/bst_bronson_java.c:668-728 | the mirror image |
| BronsonMap.Bst.RebalanceNl | src/bst-lock2/bst_bronson_java.c:573-603 | keeps the map, and unlinks a routing node with a side to spare, mends a node that leans too far, repairs a height or does nothing, as the node's condition says |
| BronsonReady.StopsEarlyIff | src/bst-lock2/bst_bronson_java.c:606-728 | rebalancing a node that is not at rest comes to nothing and goes on to its child exactly if that leans the other way by one and a double turn would leave a routing node with a side to spare, or one that is not level |
| BronsonLeaning.StopsUnbalanced | src/bst-lock2/bst_bronson_java.c:522-665 | a tree with a routing node for which the loop ends with a node that still needs rebalancing |
| BronsonBalance.FixPasses | src/bst-lock2/bst_bronson_java.c:504-520 | without routing nodes, where one subtree has grown or shrunk by one and all else is at rest, repairing the height passes the damage on to the parent or ends it, unless a turn is needed |
| BronsonBalance.MendPasses | src/bst-lock2/bst_bronson_java.c:606-957 | and a turn passes it on to the parent, or above it, or ends it |
| BronsonBalance.InsertPasses | src/bst-lock2/bst_bronson_java.c:255-287 | a new leaf in a tree at rest is such a damage, at its parent |
| BronsonBalance.UnlinkPasses | src/bst-lock2/bst_bronson_java.c:441-478 | so is an unlink |
| BronsonMap.Bst.FixHeightAndRebalance | src/bst-lock2/bst_bronson_java.c:522-571 | keeps the tree and the map after any number of rounds, stops by itself only where nothing is to be done, and at once only where it was called; without routing nodes it stops by itself if it has more rounds than there are nodes, with every node at rest |
| BronsonMap.Bst.AddBelow | src/bst-lock2/bst_bronson_java.c:255-300 | a tree at rest without routing nodes is so again after a leaf is added and the repair made |
| BronsonMap.Bst.AttemptGet | src/bst-lock2/bst_bronson_java.c:90-147 | for any key at all, gives the value of the key for which it is taken, and what it gives for a stored 2 or 3 |
| BronsonMap.Bst.Contains | src/bst-lock2/bst_bronson_java.c:50-88 | the exact result for any key at all, none if it never returns; for a key in the map it is its value exactly if the key is at the top node or the value neither 2 nor 3; for another key it is not 0 exactly if a key of the map differs from it by a multiple of 2^32 and is at the top node or has a value other than 2 |
| BronsonMap.Bst.AttemptNodeUpdate | src/bst-lock2/bst_bronson_java.c:314-416 | updates the map at the node's key and returns what was there, 2 for nothing, whatever the values |
| BronsonMap.Bst.AttemptUpdate | src/bst-lock2/bst_bronson_java.c:217-312 | updates the map at the key for which the given one is taken and returns what was there, and what happens below a node for a stored 3 |
| BronsonMap.Bst.UpdateBelow | src/bst-lock2/bst_bronson_java.c:228-312 | its loop: below a node a 2 comes back as 0, after a stored 3 an insertion tries again for ever, and a removal has removed the key and finds nothing |
| BronsonMap.Bst.UpdateUnderRoot | src/bst-lock2/bst_bronson_java.c:162-215 | the same, from the root, also for the empty tree |
| BronsonMap.Bst.Add | src/bst-lock2/bst_bronson_java.c:151-155 | adds the entry if the key, or the one for which it is taken, is absent and the value not 0, and otherwise changes nothing; its answer is right exactly if the value that was there is neither 2 nor 3. With more rounds than nodes, and no 3 stored for the key, a tree at rest without routing nodes stays so |
| BronsonMap.Bst.Remove | src/bst-lock2/bst_bronson_java.c:157-160 | for any key at all, removes the one for which it is taken, whatever its value; the answer for a key in the map is right exactly if that value is neither 2 nor 3, and a key that is not in the map changes it exactly if one of the map differs from it by a multiple of 2^32. With more rounds than nodes, and no 3 stored for the key, a tree at rest without routing nodes is at rest afterwards |
| BronsonMap.Bst.Size | src/bst-lock2/bst_bronson_java.c:969-977 | the number of entries of the map |
| BronsonMap.NothingToRetry | src/bst-lock2/bst_bronson_java.c:217-312 | in a valid tree no node is shrinking or unlinked, so one thread retries only because of a stored 3 |
| BronsonMap.ReservedValuesFail | src/bst-lock2/bst_bronson_java.c:151-193 | a tree and calls for which bst_add and bst_remove answer wrongly with a stored 2, and bst_add never returns with a stored 3 |
| BronsonMap.ContainsFails | src/bst-lock2/bst_bronson_java.c:50-88 | a tree in which bst_contains answers 0 for a stored 2 or never returns for a stored 3 |
| BronsonMap.DifferenceKept | src/bst-lock2/bst_bronson_java.c:217-225 | a key difference is kept in an int exactly if it fits, which the keys of a layout ensure |
| BronsonMap.TakenIff | src/bst-lock2/bst_bronson_java.c:59-67 | a stored key compares as equal exactly to those that differ from it by a multiple of 2^32, and any key compares to the stored ones as the one inside the bounds with the same int does |
| BronsonMap.WideKeyFails | src/bst-lock2/bst_bronson_java.c:50-88 | a tree and a key that is not in it, for which bst_contains returns another key's value |

## Left out

- BstTk.RunInv: memory is not reused during a run, keys lie strictly between the two sentinels and values are not 0, and the 16-bit version of an edge does not go all the way round between a parse and the lock attempt that follows it.
- BstTk.EveryCallLinearizes: says nothing about calls that never return. A call that is disturbed again and again may retry for ever; BstTkProgress.AloneReturns is about one that runs alone.
- BstEllenRuns.AlwaysASearchTree: memory is not reused during a run, so the variants of the file that hand nodes and records to a collector are not modelled; the record of a failed attempt, which the code throws away, does not exist in the model.
- BstEllenRuns.EveryCallLinearizes: as for bst-tk, calls that never return are not covered. BstEllenProgress.AloneReturns is obstruction-freedom; that some call always returns while several run is not stated.
- QsbrWindow.NoFreedNodeHeld: reading the global epoch and taking it over are one step. A thread holds no node when it calls quiescent_state, as the scheme demands.
- QsbrWindow.FailedCloseIff: the condition is on the end of each call; how long the window between the two writes of in_critical has to be for it to fail is not stated.
- Qsbr.Reclaimer.Quiesce: stops a blocking call after a given number of rounds, for every number.
- Qsbr.Reclaimer.Retire: the wrapper is there; the loop that waits for one when the allocator returns NULL, and mr_reinitialize, are left out.
- LazyRotation.FreedIsInNoSlot: a slot never newly takes a node that is already retired, which is the validation rule of hazard pointers; the linked lists that set slots are not part of this model. Nor is the scan at thread exit.
- LazyRotation.SomeCallFrees: for src/smr_membar_lazy.c only; in the other scheme nothing is promoted, and so nothing rotates, before it is old.
- StoreBuffers.FreeableIsFree: weak memory is the delay of store buffers and nothing else; the node's time stamp is taken after it was unlinked.
- FenceFree.NoFreedNodeHeld: every thread judges its nodes within a given time of reading the slots; a thread that is delayed for longer in between is outside the timing condition, and outside what the scheme promises.
- HybridSafety.NoFreedNodeHeld: the limbo lists are sequences of nodes here, not pointers. The decision to flip the flag by counting failed allocations is any flip at any time.
- LazyHybrid.Conservation: accounting only; quiescent_state is the one of src/qsbr.c.
- HybridRotation.FreedIsInNoSlot: a slot never newly takes a node that is already retired, as for LazyRotation.FreedIsInNoSlot. Other threads do not mark nodes of vlist while the slots stand still in HybridRotation.FreedIff; they mark only what a slot holds.
- HybridLists.HybridThread.ScanAll: the list of slots that were read is a set here; HazardLists.ReadSlots and HazardLists.Ssearch have the array.
- FencedScan.NoFreedNodeHeld: wrapper allocation and the scans at thread exit are left out.
- Bloom.Filter.CheckAdd: the two hash values of an element and the sizes that bloom_init computes in floating point are parameters.
- Htlock.NeverStuck: the tickets are unbounded integers in this module; HtlockWords has the words. htlock_trylock and the waiting loops' pauses are left out.
- Clh.MutualExclusion: each thread uses one lock at a time; init_alloc_clh always stores a qnode in the lock, so the case of a NULL predecessor does not arise.
- Allocator.BlocksDisjoint: one block size per allocator, and the caller frees only what is in use; ssalloc_aligned_alloc, ssalloc_offset and the malloc variant are left out, as are the counters memory_reuse and freed_nodes.
- BronsonMap.Bst.FixHeightAndRebalance: stops after a given number of rounds, for every number. With routing nodes in the tree it is not shown that it comes to an end by itself, and the tree need not be balanced then: a turn may not be made (BronsonReady.StopsEarlyIff), or may leave a routing node to be unlinked, after which the heights above it are not looked at.
- BronsonMap.Bst.RotateRightNl: assignments to one node that follow each other are made in one go, and the methods LinkRight, ShareRight, LiftRight, TurnRightOverLeft and their mirror images, and Round, hold parts of one function of the source. Heights are accurate with respect to the children's stored heights.
- BronsonMap.Bst.AttemptUpdate: its loop is the method UpdateBelow, and what it does to insert a node is AddBelow. Other threads, locks and waiting are left out; the branches that look again at what was read before a lock was taken find it unchanged. A loop that would go round for ever is stopped after a given number of turns, for every number from 2 on.
- BronsonMap.Bst.Add: a new key whose differences to the keys of the tree do not all fit an int is not covered; the order of the tree is not a search order with it.
- The Bronson tree's heap is a map from addresses to nodes in a field of the class, with NULL as address 0.
- Free-call counting (IGOR_OPT_LEVEL & 2), statistics, printing, thread pinning, option parsing and the benchmark drivers.
- The other trees, lists, hash tables and locks of the repository, which repeat these cores or are unfinished.
