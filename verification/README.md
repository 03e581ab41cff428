# LLST, verified

LLST is a virtual machine for Little Smalltalk. This project models five of its parts in
Dafny and proves what each of them is for.

* **The copying garbage collector** (`Memory.dfy`, `Moving.dfy`, `Heap.dfy`, `Mutator.dfy`,
  `Baker.dfy`).
  `moveObject` copies an arbitrary object graph from one half of the heap to the other
  without recursion: the way back to the root is threaded through the half-built copies,
  each old object is used up from its last field to its class, and the forwarding pointer
  sits at the shrinking size. `Moving.dfy` states the invariant of this algorithm on values
  and proves each kind of step; `Heap.dfy` draws the consequences for a whole heap, with its
  roots and its write barrier; `Mutator.dfy` says what the running program means by its
  operations on the heap; `Baker.dfy` is the memory manager itself, a class whose methods
  change memory in place.
* **The image file** (`Image.dfy`, `ImageFiles.dfy`). The writer numbers objects as it
  writes them and refers back by number; the reader rebuilds the graph. `Image.dfy` proves
  that they undo each other; `ImageFiles.dfy` holds the two classes.
* **The radix tree** of the completion engine (`Lexicographic.dfy`, `RadixNodes.dfy`,
  `RadixSearch.dfy`, `RadixTree.dfy`). Nodes are objects linked both ways; the tree keeps a
  ghost value of itself, on which its shape, its searches and its order are proved.
* **Bytecodes and basic blocks** (`Instructions.dfy`, `ControlFlow.dfy`, `BasicBlocks.dfy`,
  `Pruning.dfy`, `ParsedBytecode.dfy`). The parser finds where blocks begin, fills them,
  links them and wipes out unreachable ones; runs of the blocks are runs of the code, and
  runs of the code are what the interpreter executes (`Execution.dfy`).
* **Method lookup and context elision** (`MethodCache.dfy`, `Contexts.dfy`, `Bytecodes.dfy`,
  `Elision.dfy`, `Interpreter.dfy`). The method cache answers as the class chain does. The
  interpreter executes one instruction at a time; `Bytecodes.dfy` says in literal bytes what
  each of them does. Leaving out a context that would only return the result of its call
  changes no result, blocks and block returns included.

`Arithmetic.dfy` holds two facts about division that several of them use. `dafny verify
dfyconfig.toml` checks everything.

## What came out

Some properties hold only under a condition, which the project states exactly.

* The write barrier overlooks one kind of store (`src/BakerMemoryManager.cpp:454-467`): the
  static slot holds a SmallInteger or the null that the image put there, so it was never
  registered, and gets a dynamic object. Exactly this store breaks the barrier
  (`Heaps.StoreKeepsBarrier`), the next collection then loses the graph
  (`Heaps.OverlookedIsLost`), and `Heaps.StoreLosesObject` is such a heap. Until then a
  program cannot tell the heap from one that is never collected; with an image that has only
  static addresses in its slots this store never comes, and each slot stays registered once
  exactly if its value is not static (`Baker.BakerMemoryManager.Run`).
* `newOrdinaryObject` and `newBinaryObject` return nil before they flush the method cache
  when the allocation fails (`src/vm.cpp:57-65`), though the collector has run by then
  whenever the request is for at most half the heap (`Baker.BakerMemoryManager.Allocate`).
  The next lookup can answer with the place where a method was (`MethodCache.StaleAnswer`).
  `MethodCache.RunRightIff` says exactly when all lookups of a run are right.
* An allocation that grows the heap during its first attempt fails all the same, because the
  second collection of `growHeap` runs with the old size; when it has failed, the room is
  there, and the same request is met (`Baker.BakerMemoryManager.AllocateAgain`,
  `Baker.RefusedThenGranted`). `Baker.BakerMemoryManager.Allocate` says exactly when a
  request is met.
* The allocation pointer starts unaligned when the padded heap size is not a multiple of 8
  (`Baker.BakerMemoryManager.InitializeHeap`); everything else about the heap assumes that
  it is.
* The static heap of one and a half times the file size is too small for some images
  (`ImageFiles.EstimateTooSmall`); `ImageFiles.SaveAndLoad` says exactly when it is enough.
* When dead code follows the branch of the last block, the parser does not record that
  block as a referer of its target (`src/ParsedBytecode.cpp:149`). The referers are exact if
  and only if this is not so (`Pruning.ExactIff`). Otherwise a reachable block can be wiped
  out (`Pruning.ReachableLost`), and an assertion of the parser can fail:
  `ParsedBytecodes.RefusesDangling` is a method that it fails on. The contracts of `WipeOut`
  and `Parse` say exactly for which codes it fails, by the pass and the place in its list at
  which each block goes (`Pruning.IsSchedule`), and `Pruning.SomeOrderStrands` for which codes
  some order of erasing fails. `Pruning.MeansTheSameIff` and `Pruning.ReachableKept` say
  exactly for which codes the blocks still mean what the code means.
* A whole method is parsed without a stop offset, and `getNextBlockOffset` is given 0. A
  wiped-out conditional branch then stays among the referers of the block it skipped to, and
  keeps that block (`Pruning.LingeringReferer`). `Pruning.ExactAfterWiping` says for which
  codes all referers are exact.
* The elision of contexts changes what a program does when a block is invoked while it is at
  work: the process of `Elision.ReenteredBlock` returns with elision and never without. With
  blocks used in order it changes no result (`Elision.SameResult`).
* A block that is invoked with too many arguments takes one element more off the stack than
  it was given before it fails (`src/vm.cpp:843-847`); the model does the same, and leads to
  `Undefined` where the stack has no such element.

## Model

| member | source | states |
|---|---|---|
| `Moving.Enter` | src/BakerMemoryManager.cpp:282-321 | setting up the copy of an unmoved object keeps the whole collection invariant (old half, new half, finished slots, threaded path, room) with the object on top of the path; its next slot to visit is the one the source goes on with |
| `Moving.Close` | src/BakerMemoryManager.cpp:338-347 | fixing up the class slot ends an object: the invariant holds for the shorter path, the object counts as moved, and no object left on the path has more slots to visit |
| `Moving.Advance` | src/BakerMemoryManager.cpp:348-374 | storing one moved field, copying the null fields after it and shrinking the size keeps the invariant and strictly lowers the number of slots still to visit |
| `Moving.Inspect` | src/BakerMemoryManager.cpp:258-267 | at any time an old object is flagged relocated exactly if it was forwarded, and then the slot at its present size (0 for binary ones) holds its copy |
| `Moving.InspectTop` | src/BakerMemoryManager.cpp:338-353 | the back pointers threaded through the copies spell the path to the root: from the object on top they give its copy and the object below it |
| `Moving.EnterRoom` | src/BakerMemoryManager.cpp:282-283 | the copy of an object not yet moved always fits below the allocation pointer, on fresh ground |
| `Moving.RoomLeft` | src/BakerMemoryManager.cpp:282-311 | the bytes copied never exceed the bytes the old objects take |
| `Moving.CopiesFill` | src/BakerMemoryManager.cpp:282-311 | the copies fill the new half from the top down without a gap or an overlap |
| `Moving.ForwardInjective` | src/BakerMemoryManager.cpp:258-267 | two words are forwarded to one word exactly if they were the same: sharing is neither lost nor made |
| `Moving.FollowMoved` | src/BakerMemoryManager.cpp:220-377 | following any path of slots after the move leads to the forwarded place the path led to before |
| `Moving.MovedAtRest` | src/BakerMemoryManager.cpp:220-377 | when no path is under way every forwarded object has a complete copy: size, binary flag, bytes, and each slot the forwarded original |
| `Moving.MovedSameGraph` | src/BakerMemoryManager.cpp:421-435 | redirected roots see the same graph, cycles and sharing included: what every path finds and which two paths meet |
| `Moving.ReachedIsMoved` | src/BakerMemoryManager.cpp:421-435 | every old object some root reaches has been forwarded |
| `Moving.StartCollection` | src/BakerMemoryManager.cpp:400-401 | a well-formed half with no object flagged relocated meets the invariant with nothing moved |
| `Heaps.CollectedSameGraph` | src/BakerMemoryManager.cpp:380-435 | a collection leaves the graph seen from all static roots and external pointers as it was |
| `Heaps.CollectedLive` | src/BakerMemoryManager.cpp:380-435 | the objects copied are exactly the live ones |
| `Heaps.CollectedWellFormed` | src/BakerMemoryManager.cpp:380-435 | after a collection no word points into the half that was left, and all objects lie apart and aligned in the active half |
| `Heaps.CollectedBarrier` | src/BakerMemoryManager.cpp:421-427 | after a collection no dynamic object hangs from a static slot that is not registered, and no slot with a static address is registered, if this was so before; the slots that hold no static address and yet are not registered are the same, and keep their words |
| `Heaps.CollectedLiveBytes` | src/BakerMemoryManager.cpp:400-414 | the bytes in use after a collection are the bytes of the live objects |
| `Heaps.StoreKeepsBarrier` | src/BakerMemoryManager.cpp:442-482 | a barriered store keeps every object of a static slot registered, once, if and only if it is not this store: a dynamic object into a slot that is not registered although it holds no static address, because an image filled it with a SmallInteger or null |
| `Heaps.StoredUnregistered` | src/BakerMemoryManager.cpp:442-482 | a barriered store takes its slot out of the unregistered slots without a static address exactly if it stores a static address, and adds no slot to them |
| `Heaps.RegisteredIff` | src/BakerMemoryManager.cpp:442-482 | each slot is registered, once, exactly if it holds no static address, if and only if there are no such unregistered slots |
| `Heaps.SameUnregistered` | src/BakerMemoryManager.cpp:380-435 | heaps that look alike under the same registrations miss the same slots |
| `Heaps.StoreLosesObject` | src/BakerMemoryManager.cpp:454-467 | a heap and such a store after which an object is live, and the collector starts from nothing |
| `Heaps.OverlookedIsLost` | src/BakerMemoryManager.cpp:421-427 | whenever an object hangs from a static slot that is not registered, the next collection does not keep the graph: the slot keeps its word, which is no object any more |
| `Heaps.AddSameGraph` | src/BakerMemoryManager.cpp:193-199 | a new object changes nothing that the roots see |
| `Heaps.Rebounded` | src/BakerMemoryManager.cpp:107-152 | new bounds for the active half, as long as they hold the objects, change neither the graph nor the live bytes |
| `Heaps.RemoveFirstMembers` | src/BakerMemoryManager.cpp:489-498 | removing the first occurrence from a list without duplicates leaves exactly the other slots |
| `Baker.RoomAfter` | src/BakerMemoryManager.cpp:185-188 | after a failed attempt a request that the old half could not hold has room in the heap as it is then, if and only if the attempt grew the heap |
| `Baker.BakerMemoryManager.constructor` | src/BakerMemoryManager.cpp:48-78 | a manager whose static heap is filled by an image: SmallIntegers, null and static addresses in its slots, none registered |
| `Baker.BakerMemoryManager.InitializeHeap` | src/BakerMemoryManager.cpp:80-105 | the allocation pointer starts aligned exactly if the padded heap size is a multiple of 8; then the heap is valid and one half of it is free |
| `Baker.BakerMemoryManager.EnterBinary` | src/BakerMemoryManager.cpp:270-299 | an unmoved binary object gets a copy of its bytes, is flagged, and holds its copy in data[0]; its class comes next |
| `Baker.BakerMemoryManager.EnterOrdinary` | src/BakerMemoryManager.cpp:304-322 | an unmoved ordinary object gets an empty copy, is flagged, and holds its copy in its last slot; the value of that slot comes next |
| `Baker.BakerMemoryManager.CloseObject` | src/BakerMemoryManager.cpp:338-347 | the last slot of an object is settled and its copy is what it is replaced by |
| `Baker.BakerMemoryManager.CopyNullFields` | src/BakerMemoryManager.cpp:356-362 | null fields are copied without a visit, down to the next other one |
| `Baker.BakerMemoryManager.OpenNextField` | src/BakerMemoryManager.cpp:348-373 | one field is finished and the next one becomes the one under work, in fewer remaining slots |
| `Baker.BakerMemoryManager.WalkDown` | src/BakerMemoryManager.cpp:231-323 | descends until a word is settled: an integer, a word from outside the old half, or an object already moved |
| `Baker.BakerMemoryManager.WalkUp` | src/BakerMemoryManager.cpp:332-375 | climbs while objects are finished; ends at the root with its forwarded word, or at the next field to visit |
| `Baker.BakerMemoryManager.MoveObject` | src/BakerMemoryManager.cpp:220-377 | terminates on every graph and returns the forwarded root; all that the root reaches is moved and all else untouched |
| `Baker.BakerMemoryManager.MoveObjects` | src/BakerMemoryManager.cpp:421-435 | redirects every static root and every external pointer, and moves only what they reach |
| `Baker.BakerMemoryManager.SwapHalves` | src/BakerMemoryManager.cpp:388-401 | the halves change roles and the pointers follow |
| `Baker.BakerMemoryManager.CollectGarbage` | src/BakerMemoryManager.cpp:380-419 | the other half becomes active, holds exactly the live objects and no more bytes, and the graph seen from the roots is the same |
| `Baker.BakerMemoryManager.GrownSize` | src/BakerMemoryManager.cpp:110-112 | the loop ends with the least multiple of 8 that is large enough |
| `Baker.BakerMemoryManager.GrowHeap` | src/BakerMemoryManager.cpp:107-153 | two reallocations and two collections keep the graph; the same half is active again and both have the new aligned size |
| `Baker.BakerMemoryManager.TryAllocate` | src/BakerMemoryManager.cpp:177-205 | two attempts succeed exactly if the request fits at once or after a collection; they collect exactly if it does not fit at once; after a refusal there is room for the request exactly if the first attempt grew the heap |
| `Baker.BakerMemoryManager.Allocate` | src/BakerMemoryManager.cpp:155-206 | succeeds exactly under a condition on the sizes and the live bytes, and has collected exactly under another; a refused request of at most half the heap has collected, a larger one has not; the block is aligned, in the active half and overlaps no live object; the graph is unchanged |
| `Baker.BakerMemoryManager.AllocateAgain` | src/BakerMemoryManager.cpp:177-205 | for every refused request of at most half the heap, the same request is granted when repeated if and only if the first call grew the heap: if the heap is below its limit and the free bytes of a half after the collection, sixteen times, are at most the heap size less 16 |
| `Baker.LittleIs` | src/BakerMemoryManager.cpp:187-188 | that condition in bytes, with both sides of its boundary for a heap of 64000 |
| `Memory.SizeInBytes` | include/types.h:48-52 | an object takes 8 bytes and 4 for each field, or 8 and its bytes rounded up to whole words |
| `Baker.RefusedThenGranted` | src/BakerMemoryManager.cpp:177-205 | a manager brought there by its own methods, where that happens: refused, then granted |
| `Baker.BakerMemoryManager.AddStaticRoot` | src/BakerMemoryManager.cpp:484-487 | the slot is registered in front |
| `Baker.BakerMemoryManager.RemoveStaticRoot` | src/BakerMemoryManager.cpp:489-498 | the first registration of the slot is removed |
| `Baker.BakerMemoryManager.CheckRoot` | src/BakerMemoryManager.cpp:442-482 | the list changes exactly when a static slot changes between a static and another value, and then as it must |
| `Baker.BakerMemoryManager.StoreStatic` | src/vm.cpp:271-280 | the registrations and slots after an assignment to a static object; every live object of a static slot is registered afterwards exactly if it is not the store that the barrier overlooks |
| `Baker.BakerMemoryManager.StoreField` | src/vm.cpp:902-917 | a store into a dynamic object leaves the registrations alone and keeps the heap well-formed |
| `Baker.BakerMemoryManager.StoreByte` | src/primitives.cpp:74-115 | a store of one byte of a dynamic object changes that byte and keeps the heap well-formed |
| `Baker.BakerMemoryManager.RegisterExternal` | src/BakerMemoryManager.cpp:500-503 | the pointer becomes the head of the chain |
| `Baker.BakerMemoryManager.ReleaseExternal` | src/BakerMemoryManager.cpp:505-509 | releasing the head leaves the rest of the chain |
| `Baker.BakerMemoryManager.NewOrdinaryObject` | src/vm.cpp:50-77 | fails exactly when the allocation fails, and says exactly when it has collected, failed or not; otherwise the new object, with the class as it is after the collection in its first slot and nil in each of its fields, is all that is added to a heap that cannot be told from the one before |
| `Baker.BakerMemoryManager.NewBinaryObject` | src/vm.cpp:79-103 | the same for an object of bytes, which are all 0 |
| `Baker.BakerMemoryManager.Perform` | src/vm.cpp:263-303 | one operation of the program: what it then sees is what it would see in a heap that is never collected, never moves anything and has no end; whether the barrier overlooked a store, and which slots it still misses, is told by that heap as well |
| `Baker.BakerMemoryManager.Run` | src/BakerMemoryManager.cpp:155-206 | over any run of collections, creations of ordinary and binary objects, stores into static objects and into fields and bytes of dynamic ones, reads, and registrations and releases of pointers, the program sees what it would see in a heap without end that is never collected. The run is cut short exactly at the first operation that the barrier overlooks: a dynamic object goes into a slot that was unregistered at the start, held no static address then and has been given none since. If at the start there is no such slot, the run is completed, and afterwards every static slot is registered once if its value is not static, and not at all otherwise |
| `Mutators.CollectionsMeanNothing` | src/BakerMemoryManager.cpp:380-419 | runs that differ only in their collections mean the same |
| `Mutators.AlikeBoth` | src/BakerMemoryManager.cpp:380-419 | so do the heaps they end with: two real heaps that look like one heap without end look alike |
| `Mutators.PutSame` | src/vm.cpp:902-917 | the same store into the same object, named by roots on both sides, keeps two graphs alike, cycles and sharing included |
| `Mutators.ByteSame` | src/primitives.cpp:74-115 | so does the same byte stored into the same object |
| `Mutators.OverlookedAlike` | src/BakerMemoryManager.cpp:442-482 | two heaps that look alike agree on whether the barrier overlooks an operation and which slots it still misses afterwards |
| `Mutators.AddSame` | src/vm.cpp:67-76 | the same new object on both sides, wherever it lies, keeps two graphs alike |
| `Mutators.RenamedSame` | src/BakerMemoryManager.cpp:500-509 | roots that are set to words which other roots lead to keep two graphs alike |
| `Mutators.StartsAlike` | src/BakerMemoryManager.cpp:80-105 | a program cannot tell a well-formed heap from the same heap without end |
| `Image.WordRoundTrip` | src/Image.cpp:61-73 | a word written with any multiple of the marker byte is read back, whatever follows it in the stream |
| `Image.IntegerRoundTrip` | include/types.h:56-78 | a SmallInteger written as its 32-bit value is read back as itself |
| `Image.BytesRoundTrip` | src/Image.cpp:103-107 | four bytes, low one first, give back the number |
| `Image.LessUnwritten` | src/Image.cpp:238-239 | every object written in full leaves fewer to write: writing ends on cyclic graphs |
| `Image.ReadsBack` | src/Image.cpp:75-144 | reading the record of a word rebuilds exactly what was written for it, with the same numbering of objects, if the static heap has room; otherwise it fails |
| `Image.SlotsReadBackAll` | src/Image.cpp:94-98 | the same for the class and the fields of an object, read one after the other into place |
| `Image.ManyReadsBack` | src/Image.cpp:170-186 | the same for several words in a row |
| `Image.ImageRoundTrip` | src/Image.cpp:61-280 | reading what was written succeeds exactly if there is room, and gives a graph isomorphic to the original, with its sharing and cycles |
| `Image.WordInBytes` | src/Image.cpp:194-202 | a word is written as one byte 255 for each 255 in it, and the rest |
| `Image.ReadsInteger` | src/Image.cpp:103-107 | in any stream: 2 and four bytes are the signed number with the low byte first, in 31 bits |
| `Image.ReadsNil` | src/Image.cpp:137-138 | in any stream: 5 is the first object of the image, if there is one |
| `Image.ReadsPrevious` | src/Image.cpp:131-135 | in any stream: 4 and a word k is the k-th object of the image, if there is one |
| `Image.ReadsOrdinary` | src/Image.cpp:85-101 | in any stream: 1 and a word k is an object of k fields in 8 + 4k bytes at the top of the free space, numbered before its slots are read; without room it fails |
| `Image.ReadsBytes` | src/Image.cpp:109-129 | in any stream: 3, a word k and k words is an object of these bytes, numbered before its class is read; without room it fails |
| `Image.ReadsNothingElse` | src/Image.cpp:140-143 | any other first byte but 255 is no record |
| `Image.SlotsInOrder` | src/Image.cpp:94-98 | of the records that follow an object the first goes into its class slot and the others into its fields, one after the other |
| `Image.ManyInOrder` | src/Image.cpp:170-186 | of several records in a row the i-th gives the i-th word |
| `Image.WritesRecord` | src/Image.cpp:235-280 | in literal bytes what is written for an integer, the first object, an object written before, and a new object of either kind |
| `Image.WriteReached` | src/Image.cpp:232-280 | only objects the word reaches are written for it |
| `Image.WrittenExactly` | src/Image.cpp:204-280 | the objects written in full are exactly those the roots reach, each once |
| `ImageFiles.ImageWriter.WriteWord` | src/Image.cpp:194-202 | appends the encoding of the word |
| `ImageFiles.ImageWriter.Find` | src/Image.cpp:209-215 | the position of an object among those written, or their number if it is new |
| `ImageFiles.ImageWriter.GetObjectType` | src/Image.cpp:204-223 | 2 for an integer, 5 for the first object written, 4 for another one written before, 3 for a new byte object, 1 for any other |
| `ImageFiles.ImageWriter.WriteObject` | src/Image.cpp:232-280 | appends the record of the word and the objects it adds to the numbering; terminates on every graph |
| `ImageFiles.ImageWriter.WriteTo` | src/Image.cpp:292-317 | writes the fifteen objects of the machine, nil, true, false and so on, each at its place |
| `ImageFiles.ImageReader.ReadWord` | src/Image.cpp:61-73 | reads one word, or fails at the end of the stream |
| `ImageFiles.ImageReader.StaticAllocate` | src/BakerMemoryManager.cpp:208-218 | succeeds exactly if the object fits; then it lies below everything allocated before |
| `ImageFiles.ImageReader.ReadObject` | src/Image.cpp:75-144 | reads one record of any kind, nested ones included, and rebuilds the word it stands for; fails on an unknown kind, an unknown number, the end of the stream or lack of room |
| `ImageFiles.ImageReader.ReadOrdinaryObject` | src/Image.cpp:86-101 | numbers the object before its class and fields are read |
| `ImageFiles.ImageReader.ReadByteObject` | src/Image.cpp:109-129 | numbers the object, then reads its bytes and its class |
| `ImageFiles.ImageReader.ReadBytes` | src/Image.cpp:110-123 | space and bytes of a byte object, or failure for lack of either |
| `ImageFiles.ImageReader.ReadSlotsInto` | src/Image.cpp:94-98 | reads class and fields into place, in order |
| `ImageFiles.ImageReader.LoadImage` | src/Image.cpp:146-192 | reads fifteen records, each into the global at its place, or fails |
| `ImageFiles.SaveAndLoad` | src/Image.cpp:162-186 | saving and loading gives back the same graph exactly if the objects fit into one and a half times the size of the file |
| `ImageFiles.EstimateTooSmall` | src/Image.cpp:163-166 | an image with an object of 12 to 253 nil fields does not fit into that estimate |
| `ImageFiles.StaticHeapIs` | src/Image.cpp:160-166 | the loader sets aside one and a half times the file, rounded up to a multiple of 4 |
| `Lexicographic.LessTrichotomy` | include/radix_tree/radix_tree_node.hpp:12-27 | the order of the labels is total |
| `Lexicographic.LessBelow` | include/radix_tree/radix_tree_node.hpp:12-27 | below a common prefix the order is that of the rest |
| `RadixNodes.Nested` | include/radix_tree/radix_tree.hpp:463-498 | a node whose path begins another's is its ancestor, since siblings differ in their first letter |
| `RadixNodes.AttachLeaf` | include/radix_tree/radix_tree.hpp:316-326 | a leaf under the node that spells its key adds exactly that key and keeps the tree well formed and compressed |
| `RadixNodes.AttachBranch` | include/radix_tree/radix_tree.hpp:327-336 | a new inner node changes no contents and leaves only itself to be filled |
| `RadixNodes.SplitKeeps` | include/radix_tree/radix_tree.hpp:367-380 | cutting a label keeps every key, all depths and links, and only the new node may need another child |
| `RadixNodes.DetachKeeps` | include/radix_tree/radix_tree.hpp:249-275 | removing a childless node removes exactly its key, if it has one; only its parent may lose its compression |
| `RadixNodes.MergeKeeps` | include/radix_tree/radix_tree.hpp:281-299 | joining a node with its only inner child keeps every key and restores the compression |
| `RadixSearch.LocatedDecides` | include/radix_tree/radix_tree.hpp:448-461 | the search ends at a leaf exactly if the key is stored, and then at its leaf |
| `RadixSearch.PrefixesAbove` | include/radix_tree/radix_tree.hpp:124-146 | every stored prefix of the key ends on the way up from where the search matched all of a path |
| `RadixSearch.Completions` | include/radix_tree/radix_tree.hpp:101-113 | the keys with the given prefix are those below the node found, if that node's path begins with the prefix |
| `RadixSearch.LabelDecides` | include/radix_tree/radix_tree.hpp:104-111 | comparing the rest of the key with the label, as far as both go, decides whether the path begins with the key |
| `RadixSearch.SiblingOrder` | include/radix_tree/radix_tree_it.hpp:42-48 | all keys below one child come before all keys below a greater one |
| `RadixSearch.ClimbsOn` | include/radix_tree/radix_tree_it.hpp:45-46 | without a greater sibling, what follows a node is what follows its parent |
| `RadixSearch.TurnsDown` | include/radix_tree/radix_tree_it.hpp:47-48 | what follows a node begins with the first leaf below its next sibling |
| `RadixSearch.PassesOn` | include/radix_tree/radix_tree_it.hpp:89-95 | going to the next leaf adds exactly the one left behind, in order, and leaves fewer to come |
| `RadixSearch.SpellsAll` | include/radix_tree/radix_tree_it.hpp:89-95 | a traversal that reached the end has listed every key once |
| `RadixTrees.RadixTree.constructor` | include/radix_tree/radix_tree.hpp:38-38 | an empty tree stands for the empty map |
| `RadixNodes.AssignedKeeps` | include/radix_tree/radix_tree.hpp:180-199 | another value in a leaf changes the value of its key and nothing else |
| `RadixNodes.RadixNode.constructor` | include/radix_tree/radix_tree_node.hpp:15-27 | a node without children, parent, depth and label |
| `RadixTrees.RadixTree.FindNode` | include/radix_tree/radix_tree.hpp:463-498 | ends at the key's leaf, where no child leads on, or at the child whose label parts from the key |
| `RadixTrees.RadixTree.MatchingChild` | include/radix_tree/radix_tree.hpp:474-491 | finds the one child that leads on, if there is one |
| `RadixTrees.RadixTree.Find` | include/radix_tree/radix_tree.hpp:448-461 | finds a key exactly if it is stored, with its value |
| `RadixTrees.RadixTree.LongestMatch` | include/radix_tree/radix_tree.hpp:115-146 | the longest stored key that begins the query, or none if there is none |
| `RadixTrees.RadixTree.GreedyMatchBelow` | include/radix_tree/radix_tree.hpp:217-230 | lists the leaves below a node, each once, in order |
| `RadixTrees.RadixTree.PrefixMatch` | include/radix_tree/radix_tree.hpp:89-113 | lists exactly the stored keys with the prefix, each once, in order |
| `RadixTrees.RadixTree.GreedyMatch` | include/radix_tree/radix_tree.hpp:199-214 | lists the stored keys that begin with some node's path, each once, in order, among them all with the prefix |
| `RadixTrees.RadixTree.Descend` | include/radix_tree/radix_tree_it.hpp:52-63 | the first leaf below a node |
| `RadixTrees.RadixTree.Begin` | include/radix_tree/radix_tree.hpp:155-177 | the leaf of the first key |
| `RadixTrees.RadixTree.Increment` | include/radix_tree/radix_tree_it.hpp:34-50 | the leaf of the next greater key, or none after the last |
| `RadixTrees.RadixTree.Traverse` | include/radix_tree/radix_tree_it.hpp:89-95 | from begin() by ++ every stored key is visited once, in ascending order, until end() |
| `RadixTrees.RadixTree.HangLeaf` | include/radix_tree/radix_tree.hpp:316-326 | a new leaf, linked both ways |
| `RadixTrees.RadixTree.HangBranch` | include/radix_tree/radix_tree.hpp:327-336 | a new inner node, linked both ways |
| `RadixTrees.RadixTree.HangKey` | include/radix_tree/radix_tree.hpp:327-347 | a new inner node with a key's leaf below it |
| `RadixTrees.RadixTree.Append` | include/radix_tree/radix_tree.hpp:304-349 | adds exactly one key below a node that spells a prefix of it |
| `RadixTrees.RadixTree.PartingPoint` | include/radix_tree/radix_tree.hpp:357-365 | the count of common letters lies inside the label |
| `RadixTrees.RadixTree.CutLabel` | include/radix_tree/radix_tree.hpp:367-380 | the new node takes the head of the label, the old one keeps the rest below it |
| `RadixTrees.RadixTree.Prepend` | include/radix_tree/radix_tree.hpp:351-415 | adds exactly one key that parts from a path inside a label |
| `RadixTrees.RadixTree.Insert` | include/radix_tree/radix_tree.hpp:417-446 | adds a key exactly if it was not stored; a stored key keeps its value; compression, depths and links are kept |
| `RadixTrees.RadixTree.Index` | include/radix_tree/radix_tree.hpp:179-197 | the node of the key, stored with 0 if it was new |
| `RadixTrees.RadixTree.Unhang` | include/radix_tree/radix_tree.hpp:249-254 | a childless node leaves the tree |
| `RadixTrees.RadixTree.MergeUp` | include/radix_tree/radix_tree.hpp:281-299 | the only child takes the place of its parent under the joined label |
| `RadixTrees.RadixTree.Settle` | include/radix_tree/radix_tree.hpp:277-302 | restores the compression after an erasure |
| `RadixTrees.RadixTree.Prune` | include/radix_tree/radix_tree.hpp:259-302 | removes the inner node an erased leaf leaves empty, and restores the compression |
| `RadixTrees.RadixTree.Erase` | include/radix_tree/radix_tree.hpp:232-302 | removes exactly the key, if stored, and keeps compression, depths and links |
| `RadixTrees.RadixTree.AssignAt` | include/radix_tree/radix_tree.hpp:179-199 | an assignment through operator[] gives the key that value, whether it was there or not |
| `RadixTrees.RadixTree.Run` | include/radix_tree/radix_tree.hpp:179-302 | any run of insertions, erasures, lookups, and reads and assignments through operator[] gives the answers, values included, and the contents of a plain map |
| `Instructions.DecodeEncode` | src/InstructionDecoder.cpp:5-61 | both forms of every instruction decode to it wherever they stand, and are stepped over exactly |
| `Instructions.DecodesSpelled` | src/InstructionDecoder.cpp:5-61 | in literal bytes, at every place of every code: the decoder finds an instruction if and only if its bytes are there, plain or behind the extended prefix, with no, one or two operand bytes as its opcode and argument ask, and steps over exactly these |
| `Instructions.Kinds` | src/TSmalltalkInstruction.cpp:4-40 | which instructions are branches, conditional branches, returns and terminators, by their numbers |
| `Instructions.SerializeRoundTrip` | include/instructions.h:25-40 | an instruction packed into a word is unpacked as itself; the opcode is in the low byte, the argument in the next and the extra above |
| `Instructions.InstructionDecoder.DecodeAndShiftPointer` | src/InstructionDecoder.cpp:5-61 | the instruction whose bytes are at the pointer, and the pointer behind them |
| `ControlFlow.StepsHits` | src/ParsedBytecode.cpp:125-138 | scanning dead code without stepping over nested blocks still passes every instruction of the range |
| `ControlFlow.LeadersFit` | src/ParsedBytecode.cpp:22-69 | blocks begin at the start and at the targets and skips of all branches of the range, nowhere else, each once |
| `ControlFlow.DiscoveryOrder` | src/ParsedBytecode.cpp:45-87 | of the two blocks that a conditional branch makes begin, the one behind it is listed first; a start that no branch leads to goes in front of all |
| `BasicBlocks.ExitFits` | src/ParsedBytecode.cpp:98-157 | a block runs to its terminator or to the next leader, past no other one |
| `BasicBlocks.GoesByLast` | src/ParsedBytecode.cpp:250-294 | where a block goes can be read off its last instruction |
| `BasicBlocks.SkipIsNext` | src/ParsedBytecode.cpp:223-229 | the block a conditional branch skips to is the next one by offset |
| `BasicBlocks.FillEnters` | src/ParsedBytecode.cpp:100-120 | switching blocks completes the block left behind, links it if it has no terminator, and records it as a referer wherever it goes |
| `BasicBlocks.FillGrows` | src/ParsedBytecode.cpp:131-139 | appending an instruction and stepping over a nested block keeps the block a beginning of what it must hold |
| `BasicBlocks.FillTerminates` | src/ParsedBytecode.cpp:141-156 | a terminator completes the block; if it is the very last instruction its target gets the referer at once |
| `BasicBlocks.FillSkips` | src/ParsedBytecode.cpp:125-130 | dead code changes nothing and hides no later block |
| `BasicBlocks.FillEnds` | src/ParsedBytecode.cpp:98-157 | after the scan every block holds what it must, and its referers are the blocks that go to it, except possibly the last block |
| `Pruning.ExactIff` | src/ParsedBytecode.cpp:148-157 | the referers are exactly the predecessors if and only if no dead code follows the branch of the last block |
| `Pruning.ReachableLost` | src/ParsedBytecode.cpp:159-200 | a code with dead code after its last branch, of which a reachable block is wiped out |
| `Pruning.PruneStep` | src/ParsedBytecode.cpp:174-193 | erasing a block without referers keeps the referers and links of the others, and every set of blocks in which all but the start have referers |
| `Pruning.WipedIsLargest` | src/ParsedBytecode.cpp:163-200 | what is left is the largest set of blocks that holds the start and in which every other block has a referer, in the set or lingering |
| `Pruning.LargestUnique` | src/ParsedBytecode.cpp:163-200 | there is one such set, so the order of erasing does not matter |
| `Pruning.ReachableKept` | src/ParsedBytecode.cpp:159-200 | every block reachable from the start is left by wiping if and only if, in the code, where a reachable last branch with dead code behind it goes has other support: it is in a set that wiping cannot touch; without such dead code always |
| `Pruning.SomeOrderStrands` | src/ParsedBytecode.cpp:163-221 | some order of erasing comes to erase a block after its branch target, where the assertion of eraseReferer fails, if and only if the last block has dead code behind its branch, goes to another block, and neither of the two is in a set that wiping cannot touch |
| `Pruning.ScheduleExists` | src/ParsedBytecode.cpp:163-200 | for each block that will be erased there is a first pass in which all its referers are gone before its turn in the list |
| `Pruning.ScheduleUnique` | src/ParsedBytecode.cpp:163-200 | and only one |
| `Pruning.TurnComes` | src/ParsedBytecode.cpp:171-193 | as long as exactly the blocks are gone whose turn has come before, the block at whose place the parser stands has no referers exactly if this is its pass |
| `Pruning.StrandedIffMissed` | src/ParsedBytecode.cpp:174-187 | when a block is erased, its branch target is missing exactly if it is such a last block and its target has the earlier turn |
| `Pruning.ParserMayStrand` | src/ParsedBytecode.cpp:163-221 | if the parser fails in its own order, then some order fails |
| `Pruning.TargetGone` | src/ParsedBytecode.cpp:163-221 | a code of which the parser, in its own order, erases a block after its branch target |
| `Pruning.ExactAfterWiping` | src/ParsedBytecode.cpp:159-200 | after wiping, the referers of every block left are exactly the blocks left that go to it, if and only if no conditional branch to elsewhere than the next block is erased from a range without stop offset, and no last branch with dead code behind it is left beside its target |
| `Pruning.LingeringReferer` | src/ParsedBytecode.cpp:182-187 | a method whose only referer of a block left is an erased block |
| `Pruning.BodyAt` | src/ParsedBytecode.cpp:98-157 | the k-th instruction of a block is that of the code at the k-th step, or the inserted link at a leader |
| `Pruning.RunsAlike` | src/ParsedBytecode.cpp:19-157 | from any place in any reachable block, blocks and raw code execute the same instructions, whatever branches are taken, if no reachable block is missing |
| `Pruning.RunDiffers` | src/ParsedBytecode.cpp:159-200 | if one is missing, some choice of branches shows it |
| `Pruning.MeansTheSameIff` | src/ParsedBytecode.cpp:8-201 | the blocks execute what the raw code executes, for all choices of branches and any number of instructions, if and only if where a reachable last branch with dead code behind it goes has other support in the code; that is, if no reachable block is missing |
| `ParsedBytecodes.ParsedBytecode.UpdateReferences` | src/ParsedBytecode.cpp:250-294 | the block left behind becomes a referer of its branch target, and of the next block if the branch may be skipped; without a terminator it is linked to the next block |
| `ParsedBytecodes.ParsedBytecode.CreateBasicBlock` | src/ParsedBytecode.cpp:232-248 | a block for an offset is made once |
| `ParsedBytecodes.ParsedBytecode.CreateBranchBlocks` | src/ParsedBytecode.cpp:45-68 | the skip block first, then the target |
| `ParsedBytecodes.ParsedBytecode.CollectBranches` | src/ParsedBytecode.cpp:22-69 | finds the blocks in the order of discovery and parses every nested block, inner ones first |
| `ParsedBytecodes.NestedByEnd` | src/ParsedBytecode.cpp:25-43 | nested blocks are registered by their ends: after the blocks inside them and before those behind them |
| `ParsedBytecodes.NestedHas` | src/ParsedBytecode.cpp:25-43 | every pushBlock instruction of a range gives a nested block, with all blocks inside it |
| `ParsedBytecodes.ParsedBytecode.MakeStart` | src/ParsedBytecode.cpp:74-87 | the start block is put in front unless a branch led to it |
| `ParsedBytecodes.ParsedBytecode.SwitchBlock` | src/ParsedBytecode.cpp:100-120 | goes on with the block that begins at the pointer, if one does |
| `ParsedBytecodes.ParsedBytecode.TakeInstruction` | src/ParsedBytecode.cpp:122-156 | appends an instruction that is not dead |
| `ParsedBytecodes.ParsedBytecode.Populate` | src/ParsedBytecode.cpp:74-157 | fills and links all blocks |
| `ParsedBytecodes.ParsedBytecode.GetNextBlockOffset` | src/ParsedBytecode.cpp:223-229 | the next block's offset before the stop offset, or 0 |
| `ParsedBytecodes.ParsedBytecode.EraseReferers` | src/ParsedBytecode.cpp:174-187 | takes the block out of the referers of the blocks found, and fails exactly if the target of its branch is not there |
| `ParsedBytecodes.ParsedBytecode.EraseBasicBlock` | src/ParsedBytecode.cpp:203-209 | list and map lose the same block |
| `ParsedBytecodes.ParsedBytecode.WipeOut` | src/ParsedBytecode.cpp:163-200 | terminates; what is left is the largest set in which every block but the start has a referer; it fails exactly if, in the parser's own order, the target of a last branch with dead code behind it is erased before the block with that branch |
| `ParsedBytecodes.ParsedBytecode.Parse` | src/ParsedBytecode.cpp:8-201 | of every range of whole instructions, dead code included: the range and all nested ranges, in order, are parsed blocks; it fails exactly if wiping one of them does |
| `ParsedBytecodes.ParsedMeansTheSame` | src/ParsedBytecode.cpp:8-201 | running parsed blocks executes what the raw code executes if and only if where a reachable last branch with dead code behind it goes has other support in the code, and so if there is no such branch |
| `ParsedBytecodes.NeverStrands` | src/ParsedBytecode.cpp:148-187 | without dead code after the last branch wiping cannot fail, in any order |
| `ParsedBytecodes.RefusesDangling` | src/ParsedBytecode.cpp:163-221 | given a certain method of whole instructions the parser fails |
| `MethodCache.Find` | src/TDictionary.cpp:38-55 | the binary search finds the value of the key with the name, or nothing if no key has it |
| `MethodCache.AnswerUnique` | src/vm.cpp:196-207 | a class and a selector have one answer |
| `MethodCache.SmalltalkVM.constructor` | include/vm.h:177-182 | the cache starts without entries in use |
| `MethodCache.SmalltalkVM.FlushMethodCache` | src/vm.cpp:212-216 | no entry is in use |
| `MethodCache.SmalltalkVM.LookupMethodInCache` | src/vm.cpp:162-174 | a hit exactly if the slot holds this selector and class; hits and misses are counted |
| `MethodCache.SmalltalkVM.UpdateMethodCache` | src/vm.cpp:176-184 | overwrites the one entry of the slot |
| `MethodCache.SmalltalkVM.SearchChain` | src/vm.cpp:196-209 | without the cache: the method of the first class up the chain that has the selector, or none |
| `MethodCache.SmalltalkVM.LookupMethod` | src/vm.cpp:186-210 | the method of the first class up the chain that has the selector if no entry is used or the used one is true, and only then; true entries stay true, what is found is remembered in its slot and no other slot changes |
| `MethodCache.SmalltalkVM.NoteAllocation` | src/vm.cpp:56-65 | the cache is flushed exactly if the allocation collected and succeeded |
| `MethodCache.RightIffTrue` | src/vm.cpp:162-210 | whatever is asked next is answered rightly if and only if every entry in use tells the truth about the present classes |
| `MethodCache.RunRightIff` | src/vm.cpp:56-65 | at every time of a run whatever is asked is answered rightly, if and only if no allocation that fails after a collection makes an entry in use untrue |
| `MethodCache.StaleAnswer` | src/vm.cpp:57-60 | for any class, selector and two places of a method: a lookup, a failing allocation that moves the method, and the next lookup answers with the old place |
| `MethodCache.SmalltalkVM.Run` | src/vm.cpp:50-77 | over any run of lookups and allocations the answers and the cache are determined; each lookup answers for the classes of its time unless an allocation that failed after a collection made an entry in use untrue |
| `Bytecodes.PushesInstance` | src/vm.cpp:263 | 16 to 31 push a field of the receiver |
| `Bytecodes.PushesArgument` | src/vm.cpp:264 | 32 to 47 push an argument |
| `Bytecodes.PushesTemporary` | src/vm.cpp:265 | 48 to 63 push a temporary |
| `Bytecodes.PushesLiteral` | src/vm.cpp:266 | 64 to 79 push a literal of the method |
| `Bytecodes.PushesConstant` | src/vm.cpp:628-654 | 80 to 89 push the SmallIntegers 0 to 9, 90 nil, 91 true and 92 false |
| `Bytecodes.AssignsInstance` | src/vm.cpp:271-280 | 96 to 111 store the top, which stays, into a field of the receiver and nowhere else |
| `Bytecodes.AssignsTemporary` | src/vm.cpp:270 | 112 to 127 store it into a temporary |
| `Bytecodes.MarksArguments` | src/vm.cpp:354-366 | 128 to 143 turn the topmost elements into an array, in their order |
| `Bytecodes.SendsMessage` | src/vm.cpp:368-467 | 144 to 159 send: the method comes from the class of the first argument, be it a SmallInteger, a block, another context or an object; if none is found, #doesNotUnderstand: gets the receiver and then the selector; the new context, what it goes back to, and the suspended caller |
| `Bytecodes.SendsToSuper` | src/vm.cpp:615-622 | 251 sends to the class above that of the method |
| `Bytecodes.SendsUnary` | src/vm.cpp:468-484 | 160 answers whether the top is nil, 161 whether it is not |
| `Bytecodes.ComputesBinary` | src/vm.cpp:486-519 | 176 to 178 compare and add two SmallIntegers, the left one below the right one, by their numbers; a sum wraps to 31 bits |
| `Bytecodes.SendsBinary` | src/vm.cpp:520-535 | otherwise 176 to 191 send to the class of the left operand, with the left and then the right one as arguments |
| `Bytecodes.PushesBlock` | src/vm.cpp:308-352 | 192 to 207 push a block for the code behind them, bound to its method, arguments, temporaries and home, and go on at the offset |
| `Bytecodes.CallsPrimitive` | src/vm.cpp:656-723 | 208 to 223: a primitive that fails leaves nil, one that succeeds returns its value and keeps it on the stored stack, the others go on or end the process |
| `Bytecodes.InvokesBlock` | src/vm.cpp:833-863 | primitive 8: the block replaces the context that invokes it, and the arguments go into its temporaries in their order, nothing else |
| `Bytecodes.FailsToInvoke` | src/vm.cpp:843-847 | with too many arguments, or a count of 0, it fails, leaves nil, and one element more than it was given has gone |
| `Bytecodes.ReturnsSelf` | src/vm.cpp:544-556 | 241 gives the receiver to the context before, which goes on where it was suspended, or ends the process with it |
| `Bytecodes.ReturnsTop` | src/vm.cpp:558-570 | 242 gives the top |
| `Bytecodes.ReturnsFromHome` | src/vm.cpp:572-585 | 243 gives the top to the context before that of the method the block was made for |
| `Bytecodes.Duplicates` | src/vm.cpp:587-591 | 244 pushes the top again |
| `Bytecodes.PopsTop` | src/vm.cpp:593-595 | 245 drops it |
| `Bytecodes.Branches` | src/vm.cpp:597-599 | 246 goes on at the offset |
| `Bytecodes.BranchesIfTrue` | src/vm.cpp:601-606 | 247 takes the top off and goes on at the offset if it is true, else behind itself |
| `Bytecodes.BranchesIfFalse` | src/vm.cpp:608-613 | 248 does so if it is false |
| `Bytecodes.PassesOver` | src/vm.cpp:541-623 | the other bytes from 240 on are passed over |
| `Bytecodes.Undecided` | src/vm.cpp:297-301 | nothing is defined for the bytes that the machine stops at |
| `Bytecodes.SomeoneAtWork` | src/vm.cpp:218-231 | there is such a machine for every code and every stack |
| `Execution.ContinuesRaw` | src/vm.cpp:256-304 | whatever instruction does not leave its context: it goes on, at once or after a call, where the parser's view of the code goes on, and is no return in that view |
| `Execution.LeavesIff` | src/TSmalltalkInstruction.cpp:4-24 | of the instructions with the opcode 15 exactly those leave the context that the parser takes for returns |
| `Execution.ConditionalIff` | src/TSmalltalkInstruction.cpp:26-40 | an instruction is a conditional branch for the parser exactly if the value on top of the stack decides whether the machine goes on at its offset or behind it |
| `Execution.ThreadIsRawRun` | src/vm.cpp:256-304 | what a context executes, one instruction after the other and across its calls, is a run of the raw code for some choice of its branches |
| `Execution.ThreadIsBlockRun` | src/ParsedBytecode.cpp:8-201 | and a run of the parsed blocks, for the codes for which these mean what the code means |
| `Elision.PassesOn` | src/vm.cpp:558-570 | a context that returns next hands a value on in one step |
| `Elision.LeavesOn` | src/vm.cpp:572-585 | a block that would return from its method next hands it on in one step, to the context below that method's |
| `Elision.Lands` | src/vm.cpp:403-428 | handing a value on through all contexts that only return ends where the eliding machine gives it at once |
| `Elision.StepSound` | src/vm.cpp:256-304 | every instruction keeps the contexts in order: their stacks, links and creators |
| `Elision.StepAlike` | src/vm.cpp:403-428 | each step of the eliding machine, blocks and block returns included, is answered by one or more steps of the linking machine |
| `Elision.Simulates` | src/vm.cpp:403-428 | a stuttering simulation over any number of steps of an orderly run |
| `Elision.SameResult` | src/vm.cpp:544-585 | a process ends under one machine exactly if it does under the other, with the same result and objects, in no more steps, if no block is invoked while it is at work and none returns from a method that has returned |
| `Elision.MethodsAreOrderly` | src/vm.cpp:308-352 | a program whose methods hold no block code meets this condition |
| `Elision.BlocklessIsOrderly` | src/vm.cpp:308-352 | and so does every process that makes no blocks as long as it runs |
| `Elision.ReenteredBlock` | src/vm.cpp:833-863 | a process, from the start of its first method on, in which a block sends #value to itself: with elision it returns after eighteen instructions, without it never |
| `Elision.ReenteredIsDisorderly` | src/vm.cpp:833-863 | that process starts as every process does and does not meet the condition |
| `Elision.ChainBound` | src/vm.cpp:413-428 | however long it runs, no context that would only return is suspended, and the chain of previous contexts grows by no more than one for each send with more behind it than a return, be it to the caller or out of the method of a block |
| `Elision.ElidedChain` | src/vm.cpp:413-428 | the chain is never longer than that of the linking machine without the contexts that only return |
| `Interpreter.ExecutionContext.constructor` | src/vm.cpp:218-231 | a process at work, with whatever contexts it has suspended |
| `Interpreter.ExecutionContext.StackPush` | src/vm.cpp:133-155 | pushes a value, growing a full stack by seven |
| `Interpreter.ExecutionContext.StackPop` | include/vm.h:100-103 | pops the topmost value |
| `Interpreter.ExecutionContext.StorePointers` | include/vm.h:89-92 | the context in memory gets the pointers held outside of it |
| `Interpreter.ExecutionContext.LoadPointers` | include/vm.h:84-87 | the pointers of the context are taken up |
| `Interpreter.ExecutionContext.NewContext` | src/vm.cpp:391-401 | a context with fresh temporaries, an array of their own, and stack, at the beginning of its method |
| `Interpreter.ExecutionContext.EnterMethod` | src/vm.cpp:388-428 | suspends the caller, or elides it if its next byte returns the top of the stack, from itself or, for a block, from the method it was made for |
| `Interpreter.ExecutionContext.DoSendMessage` | src/vm.cpp:368-431 | enters the method found, or that of #doesNotUnderstand: with receiver and selector |
| `Interpreter.ExecutionContext.LeaveContext` | src/vm.cpp:544-585 | the value goes to the target context, or ends the process |
| `Interpreter.ExecutionContext.DoPush` | src/vm.cpp:263-267 | what each push instruction puts on the stack |
| `Interpreter.ExecutionContext.DoAssign` | src/vm.cpp:270-280 | what each assignment stores |
| `Interpreter.ExecutionContext.DoMarkArguments` | src/vm.cpp:354-366 | takes the arguments off the stack into an array, in their order |
| `Interpreter.ExecutionContext.DoSendUnary` | src/vm.cpp:468-484 | answers isNil and notNil without a send |
| `Interpreter.ExecutionContext.DoSendBinary` | src/vm.cpp:486-535 | compares and adds two SmallIntegers, sends otherwise |
| `Interpreter.ExecutionContext.DoPushBlock` | src/vm.cpp:308-352 | a block with the method, arguments and temporaries of its context and a shared creator; its body is skipped |
| `Interpreter.ExecutionContext.LoadArguments` | src/vm.cpp:849-851 | the arguments go into the temporaries of the block, in their order |
| `Interpreter.ExecutionContext.DoInvokeBlock` | src/vm.cpp:833-863 | the block takes the place of the invoking context; with too many arguments it fails and takes one element more off the stack than it was given |
| `Interpreter.ExecutionContext.FailPrimitive` | src/vm.cpp:677-681 | a failed primitive leaves nil |
| `Interpreter.ExecutionContext.DoPrimitiveInstruction` | src/vm.cpp:656-723 | a primitive that fails goes on with nil, one that succeeds returns its value, block invocation and the debug trap go on, an error ends the process |
| `Interpreter.ExecutionContext.DoSpecialInstruction` | src/vm.cpp:537-626 | returns from a context and from a block's method, stack operations, branches and sends to super |
| `Interpreter.ExecutionContext.ExecuteNext` | src/vm.cpp:256-304 | one instruction: all contexts with their stacks and links, the pointers, the objects and a possible result afterwards are those of the step whose effect `Bytecodes` states byte by byte |
| `Interpreter.ExecutionContext.Run` | src/vm.cpp:218-306 | runs for a number of instructions; what an orderly process ends with is also what it ends with when every caller is linked |

## Left out

- Memory is a map from addresses to object records, not bytes: aliasing, updates in place, address comparisons and the extents of objects are there, reading one object's bytes as another's is not.
- Addresses and sizes are unbounded numbers; wrap-around of 32-bit pointer arithmetic and the packing of sizes and flags into one word are not modelled.
- The system's `malloc` and `realloc` are a method that returns any aligned block apart from the others; their failure, which aborts the program, is not modelled.
- Releasing an external pointer that is not the head of the chain; only release in the reverse order of registration is modelled.
- The padded heap size must be a multiple of 8, as the alignment of copies rests on it; for other sizes only the misaligned start is stated.
- Baker.BakerMemoryManager.Run: ends with the first store that the barrier overlooks; what the program sees after the collection that follows it is not modelled, beyond that the graph is lost.
- Objects of the static heap are their pointer slots; their bytes, and stores into these, are not modelled.
- Statistics, logging and timing of collections; the generational and the non-collecting memory managers.
- The file streams: the writer appends to a byte sequence and the reader consumes one. The end of the stream, an unknown record type and an index out of range are failures of the reader, where the source throws, exits or is undefined.
- The four bytes of an inline integer are read in the order in which they are written, which the source leaves to the compiler.
- Shrinking a tree to nothing and asking for `begin()` is outside the source's assertion and outside `RadixTrees.RadixTree.Begin`; destroying or clearing a whole tree is not modelled.
- The value type of the radix tree is a number, as in the completion engine; the generic parameters are not modelled.
- Basic blocks are named by their offsets, under which the parser's own map holds them, instead of being objects of their own; their referers are sets of offsets.
- Code whose branches leave the range or an instruction boundary, and code that runs off the end of its range, are outside the parser's assertions and its contracts.
- The control graph and its optimizer, the method compiler and the just-in-time runtime.
- Elision.SameResult: asks more order than is needed of a block that returns from a method which has returned already; such a return is executed by both machines, but not compared.
- Stack underflow, missing fields and literals, and unknown operation codes lead to `Undefined`, where the source reads past the end of an object or exits; the interpreter's methods are proved where that does not happen. Process creation from a primitive is not modelled.
- Method lookup, the primitives and the addresses of new arrays are parameters of the interpreter model; its results hold for all of them. The contexts and their stacks are kept apart from the other objects, so collections during a send are not part of that model, and a program that reads the fields of a context is not.
- An unlimited run of the interpreter: the number of instructions is always bounded, as it is when the source is given ticks.
- Symbols are distinct objects with bytes; the lookup by a C string, which compares in the same way, is not modelled.
