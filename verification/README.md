# Verified model of the elos kernel core

A Dafny model of the parts of the elos kernel in which most goes wrong silently: memory sharing
between processes, memory allocators, sleeping and waking, the balanced trees underneath, and
block input and output. Every claim is about all inputs, all reachable states or all
interleavings. Code that changes things in place is modelled by classes and methods with loops;
protocols between threads are state machines whose steps are the atomic operations and the
locked blocks of the source.

What is proved, by subsystem:

- **Copy-on-write** (`CowState`, `CowSteps`, `CowInvariant`, `CowMeaning`, `CowRun`, `CowLean`, `CowVm`).
  Shadow chains, prospective shadows, forks, splits, faults, chain collapses and temporary
  references, for any number of address spaces. Every reachable state has exactly the mappings of a
  memory without sharing and reads exactly as it does; no assertion of the source trips; every
  reference has an owner and every object a reference; chains do not grow. `CowVm` is the code itself,
  in place, refining those steps.
- **The walk down a chain** (`CowWalk`, `CowWalkRun`), lock by lock, among all other steps: exactly
  when it returns the page, where it can go wrong, and a run in which it does.
- **The end of a shadow object** (`ShadowDestroy`), counter operation by counter operation, while
  its parent is being simplified.
- **Red-black trees** (`RbAlgebra`, `RbMemory`, `RbHeap`, `RbSearch`). The node-and-link code of
  insertion, removal and search, all cases of both rebalancing loops, on a heap of nodes: the order
  of the nodes, the colour rules, the parent links and the depth bound. `AddressTrees` puts the
  address allocators' trees on top of them.
- **Physical memory** (`BuddyModel`, `BuddyLists`, `BuddyAllocator`, `PhysBoot`). The buddy
  allocator: blocks tile memory, lists agree with pages, buddies are always merged, allocation and
  release are exact inverses on the set of free frames; and the boot-time reservations.
- **Address allocators** (`MmanModel`, `Mman`, `VmemModel`, `Vmem`) and the **slab allocator**
  (`SlabModel`, `SlabAllocator`).
- **Sleeping and waking** (`SyncMutex`, `SleepHandshake`, `RwSpin`, `RunQueue`). Exclusion, nothing
  lost between a sleeper and whoever wakes it, and who comes next.
- **Block layer** (`BlockCache`, `BlockSharing`, `BlockCompletion`, `BlockQueue`). The cache as one
  thread sees it, and its buffers among any number of threads; no request, completion or error is lost.
- **Program loading** (`ElfImage`), on top of the copy-on-write page rules.

`Lists`, `Arith` and `SearchTree` hold what several of them share.

Where the code does not do what its comments or its callers expect, the model follows the code. A
lemma states exactly when the expectation is met, and a method or a run reaches the failure:

- `mman_lookup`, `mman_first_node` and the search in `mman_insert` compare with the last address
  where they need one more: `Mman.LookupExact`, `Mman.FirstNodeExact` and `Mman.GapAtExact`, reached
  by `Mman.LastByteUnmapped`, `Mman.LastByteNotFirst` and `Mman.LastByteNotFree`.
- `vm_shadow_chain_get` lets go of one object before it locks the next. It returns the page if and
  only if the object at which it stands is not collapsed in between (`CowWalk.WalkExact`); with the
  lock of its own object that can only be a shadow two or more further down (`CowWalk.HitDeep`,
  `CowWalk.ShortSafe`), and `CowWalkRun.WalkFails` is a run from the empty system in which it is.
- `vm_shadow_simplify` may take a reference on an object whose count has just fallen to zero, and a
  comment in `vm_shadow_destroy` says that the object is then kept and destroyed later. The end of an
  object is right in every run if and only if no such reference is taken
  (`ShadowDestroy.GuardExact`), and wherever one can be taken there is a run that goes wrong
  (`ShadowDestroy.ReferenceBreaks`, `ShadowDestroy.FreedInUse`).
- `vm_page_reserved` asks for the first byte of a page only: `PhysBoot.KeepsAllExactly`, reached by
  `PhysBoot.ReservedPageLost`.
- The ticket lock excludes in every run if and only if at most 2^16 tickets are outstanding
  (`RwSpin.BoundExact`); `RwSpin.OneTicketTooMany` is a run with 2^16 + 1 in which two writers meet.
- `blk_io` ends in the assertion of `blk_handler_uninit` if and only if the provider was removed or
  the device refused the request: `BlockCompletion.UninitAssertion`, reached by
  `BlockCompletion.RemovedProvider`.
- A comment in vm/slab.c says that slabs with only free objects are at the end of the list. Giving an
  object back keeps that true if and only if its slab does not become wholly free in front of one
  that is not (`SlabAllocator.ReturnedKeeps`). When it is not true `vm_slab_reclaim` may find nothing
  although there is such a slab (`SlabAllocator.FoundExactly`), reached by
  `SlabAllocator.WholeSlabMissed`.
- The ELF loader does not look for wrap-around. What it maps is right if and only if the pages of
  the segment are fewer than 32 bits can address: `ElfImage.RightExactly`, reached by
  `ElfImage.FourGigabytes`.

## Model

| member | source | states |
|---|---|---|
| CowSteps.StepSafe | src/kernel/vm/shadow.c:296-443 | In every state of the invariant, whichever step comes next, no assertion fails and no missing object is touched: counters never go below zero, a collapsed shadow has exactly one child, a shadow being destroyed has none |
| CowSteps.Holder | src/kernel/vm/shadow.c:74-140 | The walk ends, because depths fall, at an object that can be read and that has the page or is the root |
| CowSteps.CollapseReady | src/kernel/vm/shadow.c:292-306 | A shadow that may be simplified is shadowed by its one listed child and by nothing else, and the child lies deeper |
| CowInvariant.StepInv | src/kernel/vm/shadow.c:142-443 | Each of the thirteen steps keeps: chains lead to their root with falling depths and sizes that do not shrink, every reference has an owner, counters count, and whoever writes an object in place is alone on it |
| CowInvariant.FaultInv | src/kernel/vm/shadow.c:142-220 | A fault that fills, shares or copies a page keeps the whole invariant |
| CowInvariant.DemandInv | src/kernel/vm/shadow.c:250-290 | Shadowing an object for a mapping keeps the invariant, whether it is reused or a new shadow is made |
| CowInvariant.ReuseInv | src/kernel/vm/shadow.c:238-248 | Reusing a shadow in place is right when it has no child and exactly one prospective shadow: the mapping is then alone on it |
| CowInvariant.CollapseLinks | src/kernel/vm/shadow.c:337-352 | After a collapse depths still fall along every chain, although only the direct child's depth is changed |
| CowInvariant.CollapseRefs | src/kernel/vm/shadow.c:296-364 | A collapse conserves references: each object's count is still the number of its owners |
| CowInvariant.CollapseKids | src/kernel/vm/shadow.c:337-352 | A collapse leaves every list of children equal to the set of shadows |
| CowInvariant.CollapseInv | src/kernel/vm/shadow.c:296-364 | A collapse keeps the invariant; nobody maps the object that is emptied |
| CowInvariant.HoldInv | src/kernel/include/vm/object.h:133-136 | A temporary reference keeps the invariant |
| CowInvariant.DropInv | src/kernel/vm/shadow.c:387-443 | Dropping a reference, the last one included, keeps the invariant |
| CowInvariant.SplitInv | src/kernel/vm/vas.c:318-354 | Splitting a private mapping keeps its two halves alone on the object |
| CowInvariant.TrimInv | src/kernel/vm/vas.c:128-157 | Cutting the end off a mapping keeps the invariant |
| CowInvariant.UnmapInv | src/kernel/vm/vas.c:99-109 | Freeing a mapping keeps the invariant with its prospective shadow unregistered |
| CowInvariant.ForkInv | src/kernel/vm/vas.c:608-617 | After a whole fork every mapping of both address spaces asks for a shadow before its next write, and the invariant holds again |
| CowMeaning.FaultView | src/kernel/vm/shadow.c:142-220 | A fault changes no byte that any object reads below its size, by whatever chain it reads it |
| CowMeaning.DemandView | src/kernel/vm/shadow.c:250-290 | Making or reusing a shadow changes nothing that anybody reads, and the mapping reads the same through the new object |
| CowMeaning.DropView | src/kernel/vm/shadow.c:387-443 | Dropping a reference changes nothing that any object still referenced reads |
| CowMeaning.CollapseView | src/kernel/vm/object.c:156-218 | Moving the pages of a collapsed shadow into its child, the child's own pages winning, changes no page any other object reads |
| CowMeaning.StoreView | src/kernel/vm/vas.c:430-500 | A store through a mapping changes that byte of that object and nothing else that any object reads |
| CowMeaning.ForkMaps | src/kernel/vm/vas.c:569-606 | After a fork each mapping, old or copied, has the object and the range of the one it came from |
| CowMeaning.ForkCopies | src/kernel/vm/vas.c:569-617 | After a fork the child has exactly one copy of every mapping of its parent, flagged or not, with its object and range, and nothing else; both sides ask for a shadow before a write; all other address spaces are as they were |
| CowMeaning.StepCovers | src/kernel/vm/vas.c:111-354 | Mappings come, go and change their range exactly as asked: the halves of a split cover the old range between them, a cut keeps everything below it, a copy covers what its source does |
| CowMeaning.StepSource | src/kernel/vm/vas.c:111-192 | A mapping never covers more than the one it continues, and is in the same address space unless it is the copy of a fork |
| CowMeaning.StepReads | src/kernel/vm/vas.c:430-500 | No step changes a byte that a mapping reads except a store to that byte through that mapping; new mappings read zero or the file, copied ones what their source read |
| CowRun.ReachableInv | src/kernel/vm/vas.c:294-617 | The invariant holds after any run of steps from the empty system |
| CowRun.NeverStuck | src/kernel/vm/vas.c:294-617 | In no reachable state does an enabled step run into an assertion |
| CowRun.FilesKeep | src/kernel/vm/shadow.c:142-220 | However long a run, a file reads in every byte as it did when it was opened, and so does every one of its resident pages: no store through a private mapping reaches it |
| CowRun.ReadsPrivateMemory | src/kernel/vm/vas.c:608-617 | Copy-on-write refines memory without any sharing: after every run there are exactly the mappings that a plain copy-at-fork memory has, in the same address spaces, over the same bytes, and every byte reads the same |
| CowRun.Isolation | src/kernel/vm/vas.c:569-606 | A byte nobody stores to or unmaps through its own mapping is there and the same for as long as the run lasts, whatever all other mappings and processes do |
| CowRun.ChildKeepsForkImage | src/kernel/vm/vas.c:608-617 | A child has every byte its parent had at the fork and keeps it, whatever the parent does afterwards |
| CowRun.ChildHasAll | src/kernel/vm/vas.c:608-617 | Every mapping of the parent has its copy in the child |
| CowLean.NoLeak | src/kernel/include/vm/object.h:147-163 | In every reachable state every object belongs to a mapping, a shadow, running code or an open file |
| CowLean.DropNeat | src/kernel/vm/shadow.c:387-443 | Destroying a shadow leaves at most its parent with a single shadow and no prospective one |
| CowLean.CollapseNeat | src/kernel/vm/shadow.c:292-364 | Simplifying that one leaves none, although the grandparent changes too |
| CowLean.DemandNeat | src/kernel/vm/shadow.c:238-290 | A shadow that loses its last prospective shadow has got a second real one or is reused; the test for reuse is what makes it so |
| CowLean.FewShadows | src/kernel/vm/shadow.c:292-443 | With no operation under way there are at most twice as many shadows as mappings, however many forks and exits there were |
| CowVm.Vm.ChainGet | src/kernel/vm/shadow.c:74-140 | With nobody else running, the hand-over-hand walk finds the first object with the page, makes a root's page resident, and gives back every reference it takes |
| CowWalk.StepView | src/kernel/vm/shadow.c:142-443 | No step of anybody changes a byte that any surviving object reads below its size, except a store to that page of that object |
| CowWalk.LockKept | src/kernel/vm/shadow.c:142-160 | Nothing that leaves the locks of a fault alone changes its mapping, its object's place in the chain, or the page it lacks |
| CowWalk.WalkInvNext | src/kernel/vm/shadow.c:74-140 | Each step of the walk or of anybody else keeps the walk above the page it looks for, or at an object that was collapsed under it |
| CowWalk.WalkExact | src/kernel/vm/shadow.c:74-140 | In every interleaving a walk that has ended returns what its object read when it began, if and only if no object was collapsed while the walk stood at it; otherwise it takes a reference on a missing object |
| CowWalk.HitDeep | src/kernel/vm/shadow.c:296-352 | With the lock of the faulting object held, only a shadow at least two objects further down can be collapsed under the walk |
| CowWalk.ShortSafe | src/kernel/vm/shadow.c:74-140 | A walk from an object with at most one shadow below it is never hit and never fails, in any run |
| CowWalk.CollapseBreaks | src/kernel/vm/shadow.c:296-352 | Whenever the second object below may be collapsed and the first does not have the page, there is a run in which the walk fails |
| CowWalkRun.WalkFails | src/kernel/vm/shadow.c:100-116 | From the empty system such a state is reached and the walk fails in it: the other shadow of the object goes away while the walk stands there |
| ShadowDestroy.InvNext | src/kernel/vm/shadow.c:296-443 | As long as temporary references are taken only at a count above zero, every step keeps: the count is the number of references, and once it is zero exactly one thread is on its way to free the object |
| ShadowDestroy.GuardExact | src/kernel/vm/shadow.c:296-443 | In every run nobody uses a freed object, none is declared dead twice and none is left over, if and only if temporary references are not taken at count zero |
| ShadowDestroy.ReferenceBreaks | src/kernel/vm/shadow.c:387-416 | From every such run that reaches count zero with the object still on its parent's list, a temporary reference leads to a failing one |
| ShadowDestroy.FreedInUse | src/kernel/vm/shadow.c:343-363 | A run in which the object is freed while simplification still has its reference: the collapse onto a root makes the destroyer skip its check |
| ShadowDestroy.FreedOnce | src/kernel/include/vm/object.h:147-175 | Even so no object is freed twice, in any run |
| CowVm.Vm.Fault | src/kernel/vm/object.c:413-439 | The fault code performs exactly the fault step |
| CowVm.Vm.DemandShadow | src/kernel/vm/shadow.c:250-290 | Reuses the shadow exactly if it is the only prospective one, else links a new one below which the object lies |
| CowVm.Vm.Migrate | src/kernel/vm/object.c:156-218 | The loop over the source's pages leaves the destination with its own pages and those it lacked, and the source with none |
| CowVm.CollapseObjs | src/kernel/vm/shadow.c:296-364 | Migrating and then relinking, in the order of the code, is the collapse step |
| CowVm.Vm.Simplify | src/kernel/vm/shadow.c:296-364 | Collapses exactly the shadows with one child and no prospective shadow; nobody reads anything different |
| CowVm.Vm.Unref | src/kernel/vm/shadow.c:387-443 | Giving back a reference, with the chain of destructions and simplifications it sets off, ends, leaves no reference pending, changes nothing that any mapping reads, and leaves no shadow with a single shadow and no prospective one if there was none |
| CowVm.Vm.DestroyParent | src/kernel/vm/shadow.c:419-437 | The second half of a destruction: if the parent is the only one left with a single shadow and no prospective one, none is afterwards; its reference is dropped, unnoticed by every mapping |
| CowVm.Vm.DropRef | src/kernel/vm/shadow.c:387-432 | One reference less; the last one takes the object off its parent's list of children |
| CowVm.Vm.DemandMap | src/kernel/vm/vas.c:294-316 | Afterwards the mapping has an object of its own to write to, no mapping reads anything different, and no chain has become longer for nothing |
| CowVm.Vm.Access | src/kernel/vm/vas.c:430-500 | After a write fault the page is writable for the mapping, no fault changes what any mapping reads, and no chain has become longer for nothing |
| CowVm.Vm.FreeMap | src/kernel/vm/vas.c:99-109 | Freeing a mapping is unnoticed by all others and leaves no shadow that should have been simplified |
| CowVm.Vm.ForkVas | src/kernel/vm/vas.c:608-617 | The loop over all mappings gives the child a copy of every one, which reads the same in every byte, and leaves the parent reading the same |
| RbAlgebra.LogarithmicDepth | src/kernel/lib/rbtree.c:30-43 | A valid tree is no deeper than twice the binary logarithm of its number of nodes plus one |
| RbAlgebra.FixupInorder | src/kernel/lib/rbtree.c:192-327 | The rebalancing after an insertion keeps the order of the nodes |
| RbAlgebra.FixupValid | src/kernel/lib/rbtree.c:192-327 | It ends in a valid tree from any valid tree with a red node put at any place |
| RbAlgebra.FixupStep | src/kernel/lib/rbtree.c:195-222 | What the cases of the loop rely on: a red parent has a black parent and a black other subtree |
| RbAlgebra.TurnedInorder | src/kernel/lib/rbtree.c:246-325 | The single and double turns of insertion keep the order |
| RbAlgebra.EraseColorInorder | src/kernel/lib/rbtree.c:333-512 | The rebalancing after a removal keeps the order of the nodes |
| RbAlgebra.EraseColorValid | src/kernel/lib/rbtree.c:333-512 | It ends in a valid tree from any tree that lacks one black node on one path |
| RbAlgebra.EraseStep | src/kernel/lib/rbtree.c:336-394 | What the cases rely on: the sibling exists, a red sibling has black children, and the climbing case keeps exactly one black node missing |
| RbAlgebra.LiftedOk | src/kernel/lib/rbtree.c:395-454 | The turns of removal repair the missing black node and keep the colour rules |
| RbAlgebra.RemoveValid | src/kernel/lib/rbtree.c:514-626 | Removing any node of any valid tree leaves a valid tree |
| RbAlgebra.RemoveInorder | src/kernel/lib/rbtree.c:514-626 | What remains is the order before the node followed by the order after it |
| RbMemory.RotateLeftFocus | src/kernel/lib/rbtree.c:317-324 | The stores of a left rotation turn the tree at the node and leave all links outside it consistent |
| RbMemory.RotateRightFocus | src/kernel/lib/rbtree.c:273-289 | The same for a right rotation |
| RbMemory.ArcRightFocus | src/kernel/lib/rbtree.c:246-289 | The two rotations of an inner case, done as one batch of stores, make the double turn |
| RbMemory.ArcLeftFocus | src/kernel/lib/rbtree.c:303-324 | The same for the mirror case |
| RbMemory.TransplantFocus | src/kernel/lib/rbtree.c:551-612 | Moving the successor into the place of the removed node, with both children and the parent link, gives the tree with that one node replaced |
| RbHeap.RbTree.RotateSetParents | src/kernel/lib/rbtree.c:183-190 | The new top takes over parent and colour of the old one, and the parent's link, or the root, follows |
| RbHeap.RbTree.InsertRound | src/kernel/lib/rbtree.c:219-325 | One round either recolours and climbs two levels or turns and is done |
| RbHeap.RbTree.FixupViolation | src/kernel/lib/rbtree.c:192-327 | The loop on the heap computes the rebalanced tree |
| RbHeap.RbTree.LinkLeaf | src/kernel/include/lib/rbtree.h:206-213 | The node becomes a red leaf at the place that was found |
| RbHeap.RbTree.InsertNode | src/kernel/include/lib/rbtree.h:102-120 | From any valid tree: a valid tree with consistent links that holds the node exactly at the place it was linked, and all others in the same order |
| RbSearch.Search | src/kernel/include/lib/rbtree.h:122-134 | For every comparison that follows the order, a node at which it stops is found if there is one |
| RbSearch.FindPlace | src/kernel/include/lib/rbtree.h:102-117 | The loop ends at the empty place behind all nodes the comparison goes right of and before all it goes left of |
| RbSearch.Insert | src/kernel/include/lib/rbtree.h:102-120 | Insertion by comparison: a valid tree, the node in its place in the order, all others as they were |
| AddressTrees.Lookup | src/kernel/lib/mman.c:119-133 | The lookup on the red-black tree itself finds a node that contains the address before its last one, and fails only if there is none |
| AddressTrees.FreeAt | src/kernel/vm/vmem.c:57-76 | The search on the red-black tree itself finds the free region of a page if there is one |
| AddressTrees.Add | src/kernel/lib/mman.c:76-86 | After insertion the tree is valid and its order is the old one with the new node behind every address that is not greater, so addresses still rise |
| AddressTrees.Remove | src/kernel/lib/mman.c:238-246 | After removal the tree is valid and exactly that node has left the order |
| RbHeap.RbTree.EraseRound | src/kernel/lib/rbtree.c:333-512 | One round either settles the missing black node or moves it up one level |
| RbHeap.RbTree.RebalanceErased | src/kernel/lib/rbtree.c:333-512 | The loop on the heap computes the rebalanced tree |
| RbHeap.RbTree.FindSuccessor | src/kernel/lib/rbtree.c:551-586 | The walk ends at the next node in order |
| RbHeap.RbTree.Erase | src/kernel/lib/rbtree.c:514-615 | Unlinks the node and reports a place to rebalance exactly when a black node is missing there |
| RbHeap.RemoveOrder | src/kernel/lib/rbtree.c:617-626 | Exactly the one node leaves the order |
| RbHeap.RbTree.RemoveNode | src/kernel/lib/rbtree.c:617-626 | From any valid tree: the node is out and cleared, the rest is a valid tree with consistent links and the same order |
| RbHeap.RbTree.NextNode | src/kernel/lib/rbtree.c:106-135 | The node that follows in order, or none at the end |
| RbHeap.RbTree.PrevNode | src/kernel/lib/rbtree.c:137-162 | The node that precedes in order, or none at the start |
| RbHeap.RbTree.FirstNode | src/kernel/lib/rbtree.c:93-104 | The first node in order, or none in an empty tree |
| BuddyModel.BlocksDisjoint | src/kernel/vm/phys.c:261-396 | Two blocks that share a frame are the same block |
| BuddyModel.EvenIsMultiple | src/kernel/vm/phys.c:358-386 | Clearing and testing low bits is divisibility by the power of two |
| BuddyModel.BuddyAligned | src/kernel/vm/phys.c:351-391 | Flipping one bit pairs the two aligned halves of an aligned block, and clearing it gives the lower one |
| BuddyModel.HalfAligned | src/kernel/vm/phys.c:302-312 | Halving an aligned block gives two blocks that are each other's buddies |
| BuddyModel.HalveBlocks | src/kernel/vm/phys.c:302-312 | Splitting keeps the tiling of all frames |
| BuddyModel.JoinBlocks | src/kernel/vm/phys.c:350-392 | Merging keeps the tiling of all frames |
| BuddyModel.HalveMerged | src/kernel/vm/phys.c:302-312 | Splitting leaves no two free buddies unmerged |
| BuddyModel.JoinMerged | src/kernel/vm/phys.c:350-392 | Merging leaves no two free buddies unmerged |
| BuddyLists.PutConsistent | src/kernel/vm/phys.c:147-155 | Putting a block on its list keeps lists, flags and tiling in agreement, and the memory on lists grows by its size |
| BuddyLists.TakeConsistent | src/kernel/vm/phys.c:157-175 | Taking one off is the inverse |
| BuddyLists.PutFrames | src/kernel/vm/phys.c:147-155 | Exactly the block's frames become free, and none of them was |
| BuddyAllocator.NoneLeft | src/kernel/vm/phys.c:270-277 | All lists from an order upwards are empty if and only if no free block is that large |
| BuddyAllocator.RoomToFree | src/kernel/vm/pressure.c:95-108 | Freeing an allocated block can never push the free counter over the total, so the assertion holds |
| BuddyAllocator.GainsSize | src/kernel/vm/phys.c:261-396 | One allocation or release changes the number of free frames by the size of the block |
| BuddyAllocator.Phys.constructor | src/kernel/vm/phys.c:562-566 | At the start all frames are allocated blocks of one page |
| BuddyAllocator.Phys.FreeUnreserved | src/kernel/vm/phys.c:562-582 | After initialisation exactly the frames that are not reserved are free, merged as far as possible |
| BuddyAllocator.Phys.AllocOrder | src/kernel/vm/phys.c:261-316 | Waits if and only if the memory wanted would eat into the reserve, fails if and only if no free block is large enough, which cannot happen for one page, and otherwise takes one aligned block of the order out of the free frames and nothing else, from a block of the least sufficient order |
| BuddyAllocator.Phys.FindList | src/kernel/vm/phys.c:270-277 | Finds the list of the least order with a large enough block, if there is one |
| BuddyAllocator.LeastFirst | src/kernel/vm/phys.c:270-277 | The first block of that list is the smallest free one that is large enough |
| BuddyAllocator.Phys.TakeFirst | src/kernel/vm/phys.c:163-175 | The block leaves the free frames and the lists together |
| BuddyAllocator.Phys.SplitTo | src/kernel/vm/phys.c:302-312 | The splitting loop ends with a block of the order wanted; the other halves are free, nothing else changed hands |
| BuddyAllocator.Phys.MergeUp | src/kernel/vm/phys.c:350-392 | The merging loop ends with a block that has no free buddy; the free frames have not changed on balance |
| BuddyAllocator.Phys.Merge | src/kernel/vm/phys.c:363-391 | One round takes the buddy off its list and makes one block of both, at the lower address |
| BuddyAllocator.Phys.FreePage | src/kernel/vm/phys.c:330-396 | Exactly the frames of the block become free, other allocations keep theirs, and the counter stays within the total |
| PhysBoot.Reserve | src/kernel/vm/phys.c:180-209 | Afterwards exactly the bytes reserved before and the new range are reserved; it fails only with all slots taken, and then changes nothing |
| PhysBoot.PageReserved | src/kernel/vm/phys.c:214-223 | Tells whether the first byte of the page is reserved |
| PhysBoot.AlignedKeepsAll | src/kernel/vm/phys.c:214-223 | With page-aligned reservations exactly the pages with a reserved byte are kept back |
| PhysBoot.KeepsAllExactly | src/kernel/vm/phys.c:180-223 | For any list of reservations, every page with a reserved byte is kept back if and only if the first byte of each page in which one starts is reserved |
| PhysBoot.ReservedPageLost | src/kernel/vm/phys.c:214-223 | Reserving eight bytes in the middle of a page leaves that page to be handed out |
| PhysBoot.OverlapShares | src/kernel/vm/phys.c:413-421 | The overlap test is true if and only if the two ranges share a byte |
| PhysBoot.EarlySearch | src/kernel/vm/phys.c:452-483 | The lowest address in a segment at which the region touches no reservation, and failure only if there is none |
| PhysBoot.EarlyAlloc | src/kernel/vm/phys.c:427-495 | The lowest such address in the first uninitialised segment that has one, reserved from then on; the panics come only when there is no place or no slot |
| SyncMutex.FirstOf | src/kernel/kern/futex.c:214-247 | The scan of a shared bucket finds a waiter of this mutex if the queue has one, and never one of another mutex |
| SyncMutex.CountedNext | src/kernel/kern/sync.c:131-135 | The waiting counter is at all times the number of threads between its increment and its decrement |
| SyncMutex.QueuedNext | src/kernel/kern/futex.c:149-212 | A bucket queue holds exactly its waiters that have not been woken, each once |
| SyncMutex.ReleaserPasses | src/kernel/kern/sync.c:148-171 | A releaser with a sleeper behind it does not stop before it has woken one |
| SyncMutex.RetrierPasses | src/kernel/kern/sync.c:90-141 | A woken thread tries again before it can rest |
| SyncMutex.NoLostNext | src/kernel/kern/sync.c:90-171 | No step leaves a sleeper unwatched |
| SyncMutex.InvNext | src/kernel/kern/sync.c:90-171 | Every step of every thread keeps the invariant |
| SyncMutex.RunInv | src/kernel/kern/sync.c:90-171 | It holds in every state of every interleaving |
| SyncMutex.NobodySleepsForever | src/kernel/kern/sync.c:90-171 | While a thread sleeps on a mutex, the mutex is held, or a releaser has yet to wake, or a woken thread has yet to try; so when everybody else rests, it is held |
| SyncMutex.OnlyReleaseFrees | src/kernel/kern/sync.c:148-171 | Only a release takes a mutex from its holder, and it always does |
| SyncMutex.ReturnTakes | src/kernel/kern/sync.c:90-141 | A call of acquire returns in the very step that takes the free mutex for its thread |
| SyncMutex.Exclusion | src/kernel/kern/sync.c:90-171 | Mutual exclusion: in every interleaving there is a release between the returns of two acquires of the same mutex |
| SyncMutex.FreeIsTaken | src/kernel/kern/sync.c:104-114 | A thread that tries a free mutex has it |
| SyncMutex.SleepsUntilWoken | src/kernel/kern/futex.c:149-212 | A thread that finds the mutex still held after joining the queue sleeps until it is woken |
| SyncMutex.WokenTakes | src/kernel/kern/sync.c:104-141 | A woken thread that finds the mutex free takes it within four steps of its own |
| SyncMutex.FirstWoken | src/kernel/kern/futex.c:214-247 | Of the threads that wait for a mutex none is woken before one that joined the queue earlier |
| SleepHandshake.MarkInv | src/kernel/kern/wait.c:200-216 | The first half of a wakeup keeps the invariant |
| SleepHandshake.DeliverInv | src/kernel/kern/sched.c:353-412 | The second half, the wakeup of the thread, keeps it |
| SleepHandshake.GoThread | src/kernel/kern/wait.c:81-198 | Each step of a thread through its wait keeps what the scheduler flags mean |
| SleepHandshake.InvNext | src/kernel/kern/wait.c:58-216 | Every step of threads, wakers, timers and interrupters keeps the invariant |
| SleepHandshake.RunInv | src/kernel/kern/wait.c:58-216 | It holds in every state of every interleaving |
| SleepHandshake.FlagsExclusive | src/kernel/kern/sched.c:335-449 | No thread is interrupted and interruptible at once, and an interruptible one is asleep or about to be |
| SleepHandshake.NoLostWakeup | src/kernel/kern/wait.c:81-216 | A sleeping waiter whose own waker is through has an awake thread |
| SleepHandshake.NoLostInterrupt | src/kernel/kern/sched.c:414-449 | From an interrupt on, whatever the thread was doing when it came, the thread does not sleep in an interruptible wait until it has asked for interrupts |
| SleepHandshake.InterruptedExactly | src/kernel/kern/sched.c:414-449 | An interrupt is pending if and only if there was one since the thread last asked |
| SleepHandshake.NoLostTimeout | src/kernel/kern/wait.c:126-150 | Once the time of a wait is over its thread is awake, or its timer can fire and wakes it |
| SleepHandshake.WakeupKept | src/kernel/kern/wait.c:200-216 | After the wakeup of a waiter, whether before or after it began to sleep, its thread does not sleep once the waker is through |
| SleepHandshake.MarkedExactly | src/kernel/kern/wait.c:200-216 | A waiter counts as woken if and only if there was a wakeup since it was prepared |
| SleepHandshake.WaitReturns | src/kernel/kern/wait.c:81-198 | A wait returns without an error only if its waiter was woken, and with one only if the thread was interrupted or its time is over |
| SleepHandshake.CallKept | src/kernel/kern/wait.c:81-98 | A thread is in the wait it called, on that waiter and with what it asked for, until the wait returns |
| SleepHandshake.PreparedStays | src/kernel/kern/wait.c:58-76 | A waiter that was prepared stays its thread's until the thread gives it up or waits on it |
| SleepHandshake.AwakeReturns | src/kernel/kern/wait.c:140-198 | Once awake, a thread comes to the end of its wait by its own steps, those of the scheduler and of the waker in its way |
| SleepHandshake.FlagsHeeded | src/kernel/kern/sched.c:335-449 | In every reachable state a pending interrupt or an expired timer finds the thread of such a wait awake |
| SleepHandshake.AssertionsHold | src/kernel/kern/wait.c:81-198 | The assertions on entry and exit of a wait hold in every interleaving |
| SleepHandshake.WakerSafe | src/kernel/kern/wait.c:200-216 | Between its two halves a waker holds a waiter whose thread is still in that wait |
| RwSpin.WriterAlone | src/kernel/kern/rwlock.c:148-193 | A writer in its section is there alone |
| RwSpin.InvNext | src/kernel/kern/rwlock.c:148-193 | Every step keeps the 16-bit counters in line with the tickets drawn and returned |
| RwSpin.RunInv | src/kernel/kern/rwlock.c:148-193 | The invariant holds in every state of every interleaving |
| RwSpin.Exclusion | src/kernel/kern/rwlock.c:148-193 | In every interleaving with at most 2^16 tickets outstanding a writer excludes all readers and writers |
| RwSpin.StoreIsIncrement | src/kernel/kern/rwlock.c:182-193 | The plain store of both counters on release moves each on by one: nobody changed them in between |
| RwSpin.NextCanEnter | src/kernel/kern/rwlock.c:148-180 | Whenever somebody waits and nobody is entering or writing, the thread with the lowest ticket can enter: a reader at once, a writer once no reader is left |
| RwSpin.OneTicketTooMany | src/kernel/kern/rwlock.c:169-180 | A run from rest with 2^16 + 1 tickets outstanding in which the last writer enters beside the first |
| RwSpin.BoundExact | src/kernel/kern/rwlock.c:140-193 | A bound on outstanding tickets keeps the lock exclusive in every run if and only if it is at most 2^16 |
| MmanModel.NodesDisjoint | src/kernel/lib/mman.c:30-43 | No address belongs to two nodes, and every node lies in the region |
| MmanModel.TiledInsert | src/kernel/lib/mman.c:159-192 | A node carved out of a gap leaves the region tiled |
| MmanModel.TiledRemove | src/kernel/lib/mman.c:238-246 | A node given back to the gap before it leaves the region tiled |
| MmanModel.TiledShift | src/kernel/lib/mman.c:256-271 | So does moving the border of two neighbours |
| MmanModel.RankingAscends | src/kernel/lib/mman.c:50-62 | The tree of gaps stays sorted by size |
| Mman.Lookup | src/kernel/lib/mman.c:119-133 | Finds a node that contains the address before its last one, and fails only if there is none |
| Mman.LookupExact | src/kernel/lib/mman.c:119-133 | A node that contains the address is found if and only if it is not the node's last address |
| Mman.FirstAfter | src/kernel/lib/mman.c:135-150 | The first node in address order whose last address is greater |
| Mman.FirstNode | src/kernel/lib/mman.c:135-157 | That node if it starts before the end of the range |
| Mman.FirstNodeExact | src/kernel/lib/mman.c:135-157 | The first overlapping node is found if and only if it overlaps with more than its last address |
| Mman.BestGap | src/kernel/lib/mman.c:198-221 | What is found fits; with aligned gaps it is the smallest that does, and nothing is found only if none does |
| Mman.GapAt | src/kernel/lib/mman.c:165-182 | Finds the gap around an address but for the gap's last address |
| Mman.GapAtExact | src/kernel/lib/mman.c:165-182 | The gap of a free address is found if and only if it is not the gap's last address |
| Mman.LastByteUnmapped | src/kernel/lib/mman.c:119-133 | A lookup of the last byte of a mapping does not find it |
| Mman.LastByteNotFirst | src/kernel/lib/mman.c:135-157 | Nor does the search for the first mapping of a range that begins there |
| Mman.LastByteNotFree | src/kernel/lib/mman.c:159-192 | An insertion at the last byte of a gap fails its assertion |
| Mman.RegionAddsUp | src/kernel/lib/mman.c:30-43 | Nodes and gaps add up to the managed region |
| Mman.Manager.constructor | src/kernel/lib/mman.c:98-109 | One gap, the whole region |
| Mman.Manager.Alloc | src/kernel/lib/mman.c:194-236 | A new aligned node of the size comes out of one gap and no other node changes; best fit when gaps are aligned |
| Mman.Manager.Insert | src/kernel/lib/mman.c:159-192 | The node appears at exactly the address asked for; the assertion fails only for a gap's last address |
| Mman.Manager.Free | src/kernel/lib/mman.c:238-246 | The node and its gap fall to the node before it, nothing else changes |
| Mman.Manager.FreeTail | src/kernel/lib/mman.c:248-254 | The end of a node becomes gap |
| Mman.Manager.FreeHead | src/kernel/lib/mman.c:256-271 | The start of a node becomes the end of the gap before it |
| VmemModel.LogIs | src/kernel/vm/vmem.c:78-81 | The list index is the floor of the binary logarithm |
| VmemModel.RegionsApart | src/kernel/vm/vmem.c:247-359 | Free regions never overlap and never touch: touching ones have been joined |
| VmemModel.FreeAt | src/kernel/vm/vmem.c:57-76 | Finds the free region of a page if there is one |
| Vmem.NoneLargeEnough | src/kernel/vm/vmem.c:194-245 | The early test of the free counter never turns down what a region could satisfy |
| Vmem.FirstFit | src/kernel/vm/vmem.c:167-189 | Scanning a list finds a large enough region if it has one |
| Vmem.Find | src/kernel/vm/vmem.c:194-245 | Starting at the list of the size wanted misses no region that is large enough |
| Vmem.Allocator.constructor | src/kernel/vm/vmem.c:445-456 | The whole area is one free region |
| Vmem.Allocator.Alloc | src/kernel/vm/vmem.c:194-245 | Fails if and only if no free region is large enough; otherwise exactly the pages returned stop being free |
| Vmem.Allocator.Take | src/kernel/vm/vmem.c:172-187 | The last pages of the region leave the free pages and the lists stay filed by size |
| Vmem.Allocator.Free | src/kernel/vm/vmem.c:247-359 | Exactly the pages given become free, joined with their neighbours on both sides |
| Vmem.Allocator.Widen | src/kernel/vm/vmem.c:276-339 | The pages join the region that ends before them or become a region |
| Vmem.Allocator.Fuse | src/kernel/vm/vmem.c:341-357 | Two touching regions become one; free pages and their number do not change |
| Vmem.Allocator.Create | src/kernel/vm/vmem.c:118-144 | A region is entered in the tree and on the list of its size |
| Vmem.Allocator.Resize | src/kernel/vm/vmem.c:83-116 | A region moves to the list of its new size |
| SlabModel.ObjsApart | src/kernel/vm/slab.c:126-182 | Objects are aligned, inside the memory and do not overlap |
| SlabModel.SomeObject | src/kernel/vm/slab.c:126-182 | A page makes a slab with an object in it if and only if an object fits in a page |
| SlabModel.FreePlusLive | src/kernel/vm/slab.c:126-182 | The free counter and the objects handed out add up to the slab |
| SlabAllocator.OneOwner | src/kernel/vm/slab.c:92-97 | The page of an object determines its slab |
| SlabAllocator.ThreadObjects | src/kernel/vm/slab.c:162-179 | The loop puts every object of the memory on the free list once and writes nowhere else |
| SlabAllocator.TagPages | src/kernel/vm/slab.c:154-160 | The loop notes the slab in exactly its pages |
| SlabAllocator.Allocator.constructor | src/kernel/vm/slab.c:75-84 | An allocator without slabs |
| SlabAllocator.Allocator.AddSlab | src/kernel/vm/slab.c:126-199 | New memory, page-aligned or behind a header, becomes a slab of free objects in its pages; what is handed out does not change |
| SlabAllocator.Allocator.Alloc | src/kernel/vm/slab.c:341-391 | Hands out an object nobody holds, and only that one, and fails only without a slab that has a free one |
| SlabAllocator.Allocator.Pop | src/kernel/vm/slab.c:354-369 | The free list threaded through the objects themselves loses its head |
| SlabAllocator.Allocator.Free | src/kernel/vm/slab.c:396-442 | Takes back exactly that object, into the slab its page names |
| SlabAllocator.Allocator.UserWrite | src/kernel/vm/slab.c:99-117 | A holder may write anything into its object without disturbing the links in the free ones |
| SlabAllocator.Allocator.Reclaim | src/kernel/vm/slab.c:444-485 | Gives back the last slab of the list if and only if it is wholly free, and no object of it is handed out |
| SlabAllocator.FoundExactly | src/kernel/vm/slab.c:444-460 | That a wholly free slab is found if there is one holds if and only if the last slab is one or none is |
| SlabAllocator.WholeLastFound | src/kernel/vm/slab.c:452-457 | If the wholly free slabs are at the end of the list, one is found whenever there is one |
| SlabAllocator.TakenKeeps | src/kernel/vm/slab.c:341-372 | Handing out an object keeps the wholly free slabs at the end |
| SlabAllocator.ReturnedKeeps | src/kernel/vm/slab.c:424-439 | Giving one back keeps them there if and only if its slab does not become wholly free in front of one that is not |
| SlabAllocator.AddedKeeps | src/kernel/vm/slab.c:292-340 | A new slab at the end keeps them there; at the front, exactly if all others are wholly free |
| SlabAllocator.ReclaimKeeps | src/kernel/vm/slab.c:444-460 | Reclaiming keeps them there |
| SlabAllocator.WholeSlabMissed | src/kernel/vm/slab.c:444-485 | Seven calls after which a slab is wholly free and not found |
| RunQueue.FindBit | src/kernel/kern/sched.c:162-177 | The lowest marked queue from the position on |
| RunQueue.PopOnce | src/kernel/kern/sched.c:132-197 | Taking a thread off a queue leaves every other thread queued once |
| RunQueue.PushOnce | src/kernel/kern/sched.c:202-266 | Queueing a thread keeps every thread on at most one queue |
| RunQueue.Scheduler.constructor | src/kernel/kern/sched.c:649-673 | Empty queues, and the idle thread on none of them |
| RunQueue.Scheduler.Choose | src/kernel/kern/sched.c:132-197 | Picks idle if and only if nothing is queued, an interrupted thread first, else the head of the nearest queue in circular order, and takes exactly it off |
| RunQueue.Scheduler.PopNearest | src/kernel/kern/sched.c:154-187 | The two-part bit search finds the circularly nearest queue that is not empty |
| RunQueue.Scheduler.Add | src/kernel/kern/sched.c:202-266 | Queues the thread once, at the end and the distance its priority gives |
| RunQueue.Scheduler.Reschedule | src/kernel/kern/sched.c:501-583 | A switch neither loses nor doubles a thread: the old one is queued, asleep or gone, and the new one was queued and runs |
| RunQueue.BestFirst | src/kernel/kern/sched.c:228-256 | The head of the nearest queue has the best priority of all threads queued from the same position |
| RunQueue.ServeInOrder | src/kernel/kern/sched.c:132-266 | Threads that become ready together run in the order Intr, Io, Lock, Kernel, Signal, Input, Normal, in whatever order they became ready |
| BlockCache.FlatBlock | src/kernel/block/cache.c:255-321 | A block is its stretch of the flat disk |
| BlockCache.PhysicalBlock | src/kernel/block/cache.c:141-156 | Rounding a logical block down gives the physical block of the byte |
| BlockCache.ChunkRead | src/kernel/block/cache.c:271-306 | One round's bytes are those of the flat disk |
| BlockCache.ChunkWrite | src/kernel/block/cache.c:271-306 | Changing part of a block changes just those bytes of the flat disk |
| BlockCache.Cache.constructor | src/kernel/block/cache.c:323-340 | An empty cache |
| BlockCache.Cache.Ref | src/kernel/block/cache.c:127-132 | A buffer in use is on no list of unused ones |
| BlockCache.Cache.Unref | src/kernel/block/cache.c:134-139 | A buffer is put on the list exactly when its last user is gone, and the list stays in the order of the last releases |
| BlockCache.Cache.Get | src/kernel/block/cache.c:158-227 | The buffer of the block, at once if it is cached, else filled from the device; it fails only with the device, and no other buffer changes |
| BlockCache.Cache.Reclaim | src/kernel/block/cache.c:367-418 | Frees a buffer if and only if there is one without users: of those the one released first, whose contents the device has |
| BlockCache.Cache.Read | src/kernel/block/cache.c:255-321 | A read of any size at any offset returns exactly the bytes of the disk; it fails only on a failed request or a bad buffer in its range |
| BlockCache.Cache.Write | src/kernel/block/cache.c:255-321 | A write changes exactly its bytes of the disk; it fails only on a failed request or a bad buffer in its range, and then touches only blocks in its range |
| BlockCache.Cache.WriteChunk | src/kernel/block/cache.c:271-306 | One round of it: the bytes of one block, with the same conditions for failing |
| BlockSharing.StepUsable | src/kernel/block/cache.c:127-227 | No thread is ever at a buffer that is gone, and no reference is given back twice |
| BlockSharing.InvNext | src/kernel/block/cache.c:127-321 | Every step of readers, writers, fillers and the reclaimer keeps: one buffer per block, counts of users, unused buffers on the list, and nobody beside a writer |
| BlockSharing.GoodBufferFaithful | src/kernel/block/cache.c:158-321 | In every interleaving a good buffer that is not being filled or written holds what the device holds |
| BlockSharing.ReaderSees | src/kernel/block/cache.c:277-306 | A reader with its lock that finds the buffer good reads the block as it is on the device |
| BlockSharing.BuffersSafe | src/kernel/block/cache.c:127-139 | Nobody's buffer is on the list to reclaim from, and two threads at the same block have the same buffer |
| BlockSharing.ReclaimInv | src/kernel/block/cache.c:367-418 | The buffer that is freed has no user |
| BlockSharing.WriteLasts | src/kernel/block/cache.c:277-306 | In every interleaving a write that succeeds leaves its data in its block until somebody writes that block again |
| BlockSharing.WriteBegins | src/kernel/block/cache.c:281-295 | A write goes to the device if and only if the buffer is good or it covers the whole block |
| BlockSharing.WriteAlone | src/kernel/block/cache.c:265-306 | Nobody touches the buffer of a write that has begun |
| BlockSharing.FillGood | src/kernel/block/cache.c:198-217 | A new buffer is good if and only if the device answered |
| BlockSharing.GetsBuffer | src/kernel/block/cache.c:158-227 | With the device answering, a thread by itself gets the lock of a buffer of its block, and what it fills is what the device holds |
| BlockSharing.WritesAlone | src/kernel/block/cache.c:255-321 | And a write of a whole block by it ends with exactly that block of the device changed |
| BlockSharing.LruNext | src/kernel/block/cache.c:134-139 | The list to reclaim from stays in the order in which the buffers lost their last users |
| BlockCompletion.InvNext | src/kernel/block/block.c:321-420 | Every step of starter and completions keeps the counts in agreement |
| BlockCompletion.RunInv | src/kernel/block/block.c:321-420 | The invariant holds in every state of every interleaving |
| BlockCompletion.EventOnce | src/kernel/block/block.c:321-420 | The event of an asynchronous handler is queued exactly once, when it is started and all requests are done, in whichever order |
| BlockCompletion.ReturnsWhenDone | src/kernel/block/block.c:321-356 | A synchronous start returns only when all requests are done and nobody still uses the handler |
| BlockCompletion.NoLostCompletion | src/kernel/block/block.c:370-420 | A sleeping starter has been woken, or a request is still to be launched or completed |
| BlockCompletion.DoneReturns | src/kernel/block/block.c:321-356 | Once all requests are done a synchronous start returns: the wake and its own steps are all it takes |
| BlockCompletion.ReportsErrors | src/kernel/block/block.c:370-385 | The handler reports an error if and only if one of its requests failed |
| BlockCompletion.IoReports | src/kernel/block/block.c:443-470 | blk_io reports an error if and only if its request failed, at its launch or later |
| BlockCompletion.UninitAssertion | src/kernel/block/block.c:422-470 | In every run of blk_io the assertion on tearing down the handler holds if and only if the provider was not removed and the device did not refuse the request |
| BlockCompletion.UninitSafe | src/kernel/block/block.c:443-470 | Either way no completion is outstanding and nobody holds the handler's lock when it goes away |
| BlockCompletion.RemovedProvider | src/kernel/block/block.c:422-470 | A run in which the assertion fails |
| BlockQueue.InvNext | src/kernel/block/device.c:43-118 | Every step of submitters, the drain loop and completions keeps the invariant, also when a request completes before its start returns |
| BlockQueue.RunInv | src/kernel/block/device.c:43-118 | It holds in every state of every interleaving |
| BlockQueue.SlotsConserved | src/kernel/block/device.c:43-118 | Requests at the device and free slots always add up to the device's limit |
| BlockQueue.NothingStranded | src/kernel/block/device.c:43-118 | With a slot free and work pending the drain loop is running or queued |
| BlockQueue.RequestKept | src/kernel/block/device.c:82-118 | A request that was submitted waits, is at the device or is being started, until the device is done with it or refuses it |
| BlockQueue.InOrder | src/kernel/block/device.c:43-118 | The requests started by the drain loop, followed by those pending, are exactly those that found no slot, in the order in which they came |
| BlockQueue.FirstIsStarted | src/kernel/block/device.c:43-69 | Whenever a slot is free and requests wait, the drain loop by itself starts the first of them within three steps |
| BlockQueue.SlotIsUsed | src/kernel/block/device.c:94-112 | A request that finds a slot is at the device at once, any other is last in the queue |
| BlockQueue.DoneAssertion | src/kernel/block/device.c:71-80 | A slot given back is one that was taken |
| ElfImage.Accepted | src/kernel/drivers/binfmt/elf.c:72-211 | A segment with fewer pages than 32 bits can address is taken if and only if the standard allows it and all its pages lie in the address space |
| ElfImage.RightExactly | src/kernel/drivers/binfmt/elf.c:72-211 | Of the segments that are taken, exactly those with fewer pages than 32 bits can address are mapped to exactly their pages |
| ElfImage.FourGigabytes | src/kernel/drivers/binfmt/elf.c:72-211 | A segment of 2^32 - 1 bytes is taken and nothing of it is mapped |
| ElfImage.Covers | src/kernel/drivers/binfmt/elf.c:72-195 | The two mappings are disjoint and cover exactly the pages of the segment |
| ElfImage.FilePartReads | src/kernel/drivers/binfmt/elf.c:72-195 | Every byte below the file size reads as that byte of the file |
| ElfImage.RestReadsZero | src/kernel/drivers/binfmt/elf.c:72-195 | Every byte from there to the memory size reads as zero, in the last file page or in the anonymous mapping |
| ElfImage.FileUntouched | src/kernel/drivers/binfmt/elf.c:155-177 | A writable segment reads the file, and whatever is stored through it afterwards the file reads as it did |
| ElfImage.CopyByte | src/kernel/vm/shadow.c:165-203 | The page a fault copies keeps the file up to the shadow's size and is zero after it |

## Left out

- Most of the kernel: system calls, processes and signals, file systems, drivers, terminals, the resource manager, page-out, the machine-dependent layers and the user programs are not modelled.
- Memory ordering, interrupts inside a locked block and fairness: an atomic operation or a locked block is one indivisible step, and claims are about what can be reached, not about what must happen in the end.
- The width of addresses and sizes in the physical, region and kernel-address allocators, in the slab allocator and in the copy-on-write model: they are unbounded there. Wrap-around is modelled in the ticket lock (16 bits) and in the program loader (32 bits).
- Copy-on-write: mappings that are shared or that can never become writable, files that change while they are mapped privately, input and output errors, faults beyond the end of a root object, bytes of the last page beyond the end of a mapping, page-out of resident pages, and the hardware tables beyond the set of writable pages.
- Copy-on-write: an unmap that cuts the start off a mapping (src/kernel/vm/vas.c:177-187), which leaves the object offset of the mapping unchanged in the code; whole unmaps and cuts at the end are modelled.
- Copy-on-write: in the step machine the last drop and the destruction of a shadow are one step, and the two checks of `vm_shadow_simplify` are the temporary reference and the guard of the collapse. `ShadowDestroy` has the destruction in single steps, for one object.
- ShadowDestroy: reading which object is shadowed and locking it are one step of the destroyer; references taken by page-out are not modelled.
- CowVm.Vm.Unref: runs alone, so the recheck of the reference count in `vm_shadow_destroy` never finds it raised; among threads it is `ShadowDestroy`.
- CowVm.Vm.Simplify: runs alone, so its second check never differs from the first.
- CowVm.Vm.ChainGet: runs alone; the walk among other threads is `CowWalk`.
- CowVm.Vm.Access: the mapping is looked up by its identity and not by address; protection bits are not modelled.
- RbHeap.RbTree.InsertNode: the place is handed in; `RbSearch.Insert` is the insertion with the comparison that finds it.
- Red-black trees: the packing of colour and parent into one word and the post-order walk.
- BuddyAllocator.Phys.AllocOrder: waiting for memory is a result and not a loop; the per-page pin count and flags beyond free and allocated are not modelled.
- PhysBoot.EarlyAlloc: the attempt to get a single page from the running allocator first is not modelled.
- Mman.Manager.Alloc: promises best fit and success only when every gap starts at a multiple of the alignment, because the search in the code gives up on larger gaps otherwise.
- Mman.Manager.constructor: a region that starts at address 0 is excluded, because the last address of the dummy node would wrap around.
- Mman.FirstNode: like the allocators' other searches it takes any tree with the right order; `AddressTrees` has lookup, insertion and removal on the red-black trees themselves, and not this search or the one by gap size.
- Vmem.Allocator.Alloc: waiting for address space is not modelled.
- Vmem.Allocator.Free: a descriptor for a new region is always at hand; the path that turns a free page into descriptors is not modelled.
- SlabAllocator.Allocator.AddSlab: obtaining the memory and the slab descriptor is not modelled; memory in which no object fits, or which reaches into a page that its loop does not mark, is excluded.
- SlabAllocator.Allocator.Reclaim: a slab made of several pages gives back all of its pages here, and only one in the code; no caller in the repository makes such a slab.
- SyncMutex: the spinning kind of lock, the try-lock, timeouts of futex waits and futexes of user memory; the hash of addresses is an arbitrary function.
- The sleeping reader-writer lock (src/kernel/kern/rwlock.c:35-138).
- RunQueue: one processor; the choice of a processor for a new thread and the inter-processor wakeup are not modelled.
- BlockCache.Cache.Read: one thread at a time; `BlockSharing` has the threads, with a block as one value.
- BlockCompletion: forwarding requests to another provider.
- ElfImage: the load address of a position-independent image is 0; the interpreter, the stack and the auxiliary vector are not modelled.
