/** The two-space copying collector with its allocator and write barrier. */
module Baker {
  import opened Arithmetic
  import opened Memory
  import opened Moving
  import opened Heaps
  import opened Mutators

  ghost predicate GoodHalves(one: Addr, two: Addr, half: nat, staticLo: Addr, staticHi: Addr) {
    && Apart(one, half, two, half)
    && 0 < one && one % WORD_BYTES == 0 && (one + half <= staticLo || staticHi <= one)
    && 0 < two && two % WORD_BYTES == 0 && (two + half <= staticLo || staticHi <= two)
  }

  lemma HalvesAligned(one: Addr, two: Addr, size: nat, staticLo: Addr, staticHi: Addr)
    requires size % 8 == 0 && GoodHalves(one, two, size / 2, staticLo, staticHi)
    ensures (one + size / 2) % WORD_BYTES == 0 && (two + size / 2) % WORD_BYTES == 0
    ensures one + size / 2 <= staticLo || staticHi <= one
    ensures two + size / 2 <= staticLo || staticHi <= two
  {
    var k := size / 8;
    Quotient(size, 2, 4 * k, 0);
    Quotient(one + size / 2, 4, one / 4 + k, 0);
    Quotient(two + size / 2, 4, two / 4 + k, 0);
  }

  /** The least multiple of 8 that leaves room for the request twice and half as much again. */
  predicate GrownTo(requestedSize: nat, heapSize: nat, newHeapSize: nat) {
    var least := 2 * requestedSize + heapSize + heapSize / 2;
    newHeapSize % 8 == 0 && least <= newHeapSize < least + 8
  }

  lemma PaddingIsLeast(size: nat)
    ensures CorrectPadding(size) % WORD_BYTES == 0 && size <= CorrectPadding(size) < size + WORD_BYTES
  {
  }

  lemma NextPadding(n: nat)
    requires n % WORD_BYTES == 0
    ensures CorrectPadding(n + 1) == n + 4
  {
    PaddingIsLeast(n + 1);
    hide CorrectPadding;
  }

  lemma NextAligned(n: nat)
    requires n % WORD_BYTES == 0 && n % 8 != 0
    ensures n % 8 == 4 && (n + 4) % 8 == 0 && (n + 4) % 4 == 0
  {
  }

  lemma HalfAligned(n: nat)
    requires n % WORD_BYTES == 0
    ensures n / 2 % WORD_BYTES == 0 <==> n % 8 == 0
  {
    var k := n / 4;
    var j, b := k / 2, k % 2;
    Quotient(n, 2, 4 * j + 2 * b, 0);
    Quotient(n, 8, j, 4 * b);
    Quotient(n / 2, 4, j, 2 * b);
  }

  lemma GrownLarger(requestedSize: nat, heapSize: nat, newHeapSize: nat)
    requires GrownTo(requestedSize, heapSize, newHeapSize)
    ensures newHeapSize % 8 == 0 && heapSize <= newHeapSize && heapSize / 2 <= newHeapSize / 2
  {
  }

  /** When a request is met.  A request larger than a half is met exactly when the grown
      size stays under the limit; any other when it fits at once or after a collection. */
  predicate CanAllocate(requestedSize: nat, heapSize: nat, maxHeapSize: nat, free: int, live: nat) {
    if requestedSize > heapSize / 2 then CorrectPadding(2 * requestedSize + heapSize + heapSize / 2) < maxHeapSize
    else requestedSize <= free || requestedSize <= heapSize / 2 - live
  }

  /** When a request makes the collector run, whether it is met or not. */
  predicate CollectsFor(requestedSize: nat, heapSize: nat, maxHeapSize: nat, free: int) {
    if requestedSize > heapSize / 2 then CorrectPadding(2 * requestedSize + heapSize + heapSize / 2) < maxHeapSize
    else requestedSize > free
  }

  /** The collection gave so little room that the heap is grown after it. */
  predicate LittleGained(heapSize: nat, maxHeapSize: nat, live: nat) {
    heapSize / 2 - live < heapSize / 16 && heapSize < maxHeapSize
  }

  /** In bytes: what the collection leaves free of a half is less than a sixteenth of the heap. */
  lemma LittleIs(heapSize: nat, maxHeapSize: nat, live: nat)
    ensures LittleGained(heapSize, maxHeapSize, live) <==>
            heapSize < maxHeapSize && 16 * (heapSize / 2 - live) <= heapSize - 16
    ensures !LittleGained(64000, 1000000, 28000) && LittleGained(64000, 1000000, 28001)
  {
  }

  /** The size of the heap after one failed attempt. */
  predicate SizeAfter(requestedSize: nat, heapSize: nat, maxHeapSize: nat, live: nat, newHeapSize: nat) {
    if LittleGained(heapSize, maxHeapSize, live) then GrownTo(requestedSize, heapSize, newHeapSize)
    else newHeapSize == heapSize
  }

  lemma RequestSmall(requestedSize: nat, heapSize: nat, maxHeapSize: nat, free: int, live: nat)
    requires requestedSize <= heapSize / 2
    ensures CanAllocate(requestedSize, heapSize, maxHeapSize, free, live) <==>
            requestedSize <= free || requestedSize <= heapSize / 2 - live
    ensures CollectsFor(requestedSize, heapSize, maxHeapSize, free) <==> requestedSize > free
  {
  }

  lemma RequestLarge(requestedSize: nat, heapSize: nat, maxHeapSize: nat, free: int, live: nat)
    requires requestedSize > heapSize / 2
    ensures CanAllocate(requestedSize, heapSize, maxHeapSize, free, live) <==>
            CorrectPadding(2 * requestedSize + heapSize + heapSize / 2) < maxHeapSize
    ensures CollectsFor(requestedSize, heapSize, maxHeapSize, free) <==>
            CanAllocate(requestedSize, heapSize, maxHeapSize, free, live)
  {
  }

  /** After one failed attempt a request that does not fit the old half has room in the new
      one exactly if the heap was grown. */
  lemma RoomAfter(requestedSize: nat, heapSize: nat, maxHeapSize: nat, live: nat, newHeapSize: nat)
    requires SizeAfter(requestedSize, heapSize, maxHeapSize, live, newHeapSize)
    requires live <= heapSize / 2 && requestedSize > heapSize / 2 - live
    ensures requestedSize <= newHeapSize / 2 - live <==> LittleGained(heapSize, maxHeapSize, live)
    ensures heapSize <= newHeapSize
  {
    if LittleGained(heapSize, maxHeapSize, live) {
      GrownFits(requestedSize, heapSize, newHeapSize, live);
    }
  }

  lemma GrownFits(requestedSize: nat, heapSize: nat, newHeapSize: nat, live: nat)
    requires GrownTo(requestedSize, heapSize, newHeapSize) && live <= heapSize / 2
    ensures requestedSize <= newHeapSize / 2 - live
  {
  }

  lemma StartAligned(one: Addr, half: nat)
    requires one % WORD_BYTES == 0
    ensures (one + half) % WORD_BYTES == 0 <==> half % WORD_BYTES == 0
  {
  }

  lemma EmptyHeap(h: Heap)
    requires h.mem == map[] && h.externals == [] && 0 < h.lo == h.hi && h.lo % WORD_BYTES == 0
    requires h.staticLo <= h.staticHi && (h.hi <= h.staticLo || h.staticHi <= h.lo)
    requires forall s | s in h.statics :: IsSmallInteger(h.statics[s]) || h.statics[s] == 0 || h.InStatic(h.statics[s])
    ensures h.WellFormed()
  {
  }

  lemma LowAligned(h: Heap)
    requires h.WellFormed()
    ensures 0 < h.lo && h.lo % WORD_BYTES == 0
  {
  }

  class BakerMemoryManager {
    var heapSize: nat
    var maxHeapSize: nat

    var heapOne: Addr
    var heapTwo: Addr
    var activeHeapOne: bool

    var inactiveHeapBase: Addr
    var inactiveHeapPointer: Addr
    var activeHeapBase: Addr
    var activeHeapPointer: Addr

    var staticHeapSize: nat
    var staticHeapBase: Addr
    var staticHeapPointer: Addr

    var staticRoots: seq<Addr>    // registered static slots, most recent first
    var externals: seq<Word>      // the chain of external pointers, head first

    var mem: Mem                  // the objects of the two halves
    var statics: map<Addr, Word>  // the pointer slots of the static heap

    /** The manager with its static heap filled by an image: every slot of the image holds a
        SmallInteger, null or a static address, and none is registered.  No dynamic heap yet. */
    constructor (base: Addr, size: nat, pointer: Addr, slots: map<Addr, Word>)
      requires base <= pointer <= base + size
      requires forall s | s in slots :: pointer <= s < base + size
      requires forall s | s in slots :: IsSmallInteger(slots[s]) || slots[s] == 0 || pointer <= slots[s] < base + size
      ensures staticHeapBase == base && staticHeapSize == size && staticHeapPointer == pointer && statics == slots
      ensures staticRoots == [] && mem == map[] && externals == []
    {
      heapSize, maxHeapSize, heapOne, heapTwo, activeHeapOne := 0, 0, 0, 0, true;
      inactiveHeapBase, inactiveHeapPointer, activeHeapBase, activeHeapPointer := 0, 0, 0, 0;
      staticHeapBase, staticHeapSize, staticHeapPointer := base, size, pointer;
      staticRoots, externals, mem, statics := [], [], map[], slots;
    }

    /** The two blocks for the halves come from the system.  The allocation pointer starts
        aligned exactly when the padded size is a multiple of 8, which padding alone does
        not guarantee; then the manager is ready for use. */
    method InitializeHeap(size: nat, maxSize: nat, one: Addr, two: Addr)
      requires staticRoots == [] && mem == map[] && externals == []
      requires staticHeapPointer <= staticHeapBase + staticHeapSize
      requires OnlyImage()
      requires GoodHalves(one, two, CorrectPadding(size) / 2, staticHeapPointer, staticHeapBase + staticHeapSize)
      modifies `heapSize, `maxHeapSize, `heapOne, `heapTwo, `activeHeapOne, `activeHeapBase, `activeHeapPointer,
               `inactiveHeapBase, `inactiveHeapPointer
      ensures activeHeapPointer % WORD_BYTES == 0 <==> CorrectPadding(size) % 8 == 0
      ensures CorrectPadding(size) % 8 == 0 ==> Valid() && Free() == heapSize / 2
      ensures heapSize == CorrectPadding(size) && maxHeapSize == maxSize
    {
      hide CorrectPadding, GoodHalves, Valid, State;
      PaddingIsLeast(size);
      heapSize := CorrectPadding(size);
      maxHeapSize := maxSize;
      TakeBlocks(one, two);
      HalfAligned(heapSize);
      HalvesGood(one, two, heapSize / 2);
      StartAligned(one, heapSize / 2);
      if heapSize % 8 == 0 { StartValid(); }
    }

    /** The first block is active, and nothing in it is taken. */
    method TakeBlocks(one: Addr, two: Addr)
      modifies `heapOne, `heapTwo, `activeHeapOne, `activeHeapBase, `activeHeapPointer,
               `inactiveHeapBase, `inactiveHeapPointer
      ensures heapOne == one && heapTwo == two && activeHeapBase == ActiveHalf() == one
      ensures activeHeapPointer == one + heapSize / 2
    {
      var mediane := heapSize / 2;
      heapOne := one;
      heapTwo := two;
      activeHeapOne := true;
      activeHeapBase := heapOne;
      activeHeapPointer := heapOne + mediane;
      inactiveHeapBase := heapTwo;
      inactiveHeapPointer := heapTwo + mediane;
    }

    lemma HalvesGood(one: Addr, two: Addr, half: nat)
      requires GoodHalves(one, two, half, staticHeapPointer, staticHeapBase + staticHeapSize)
      ensures one % WORD_BYTES == 0
    {
    }

    /** The static slots hold what an image can hold. */
    ghost predicate OnlyImage()
      reads this
    {
      forall s | s in statics ::
        IsInStaticHeap(s) && (IsSmallInteger(statics[s]) || statics[s] == 0 || IsInStaticHeap(statics[s]))
    }

    lemma StartValid()
      requires heapSize % 8 == 0 && activeHeapBase == ActiveHalf() && activeHeapPointer == activeHeapBase + heapSize / 2
      requires GoodHalves(heapOne, heapTwo, heapSize / 2, staticHeapPointer, staticHeapBase + staticHeapSize)
      requires staticRoots == [] && mem == map[] && externals == []
      requires staticHeapPointer <= staticHeapBase + staticHeapSize
      requires OnlyImage()
      ensures Valid()
    {
      HalvesAligned(heapOne, heapTwo, heapSize, staticHeapPointer, staticHeapBase + staticHeapSize);
      EmptyHeap(State());
      hide Heap.WellFormed;
    }

    function State(): Heap
      reads this
    {
      Heap(mem, activeHeapPointer, activeHeapBase + heapSize / 2,
           statics, staticHeapPointer, staticHeapBase + staticHeapSize, staticRoots, externals)
    }

    function ActiveHalf(): Addr
      reads this
    {
      if activeHeapOne then heapOne else heapTwo
    }

    function InactiveHalf(): Addr
      reads this
    {
      if activeHeapOne then heapTwo else heapOne
    }

    /** The halves are aligned blocks of equal size, apart from each other and from the
        static heap, and the allocation pointer is inside the active one. */
    ghost predicate Layout()
      reads this
    {
      && heapSize % 8 == 0
      && activeHeapBase == ActiveHalf() && activeHeapBase <= activeHeapPointer <= activeHeapBase + heapSize / 2
      && GoodHalves(heapOne, heapTwo, heapSize / 2, staticHeapPointer, staticHeapBase + staticHeapSize)
    }

    /** Bytes taken in the active half. */
    function Used(): int
      reads this
    {
      activeHeapBase + heapSize / 2 - activeHeapPointer
    }

    ghost predicate Valid()
      reads this
    {
      Layout() && State().WellFormed() && State().Barrier()
    }

    method EnterBinary(currentObject: Addr, previousObject: Word,
                       ghost g: Spaces, ghost fwd: Forwarding, ghost stack: seq<Addr>, ghost root: Word)
      returns (next: Word, ghost fwd': Forwarding)
      requires Inv(g, mem, fwd, stack, activeHeapPointer) && Pending(g, mem, stack, root, currentObject)
      requires previousObject == Top(stack)
      requires currentObject in g.from && currentObject !in fwd && currentObject in mem
      requires mem[currentObject] == g.from[currentObject] && mem[currentObject].WellShaped()
      requires mem[currentObject].binary
      modifies `mem, `activeHeapPointer
      ensures currentObject in fwd' && fwd' == fwd[currentObject := fwd'[currentObject]]
      ensures Inv(g, mem, fwd', stack + [currentObject], activeHeapPointer)
      ensures Pending(g, mem, stack + [currentObject], root, next)
    {
      hide Inv, Pending;
      ghost var mem0, ptr := mem, activeHeapPointer;
      EnterRoom(g, mem, fwd, stack, activeHeapPointer, currentObject);
      var dataSize := mem[currentObject].size;
      activeHeapPointer := activeHeapPointer - (HEADER_BYTES + CorrectPadding(dataSize));
      var objectCopy := activeHeapPointer;
      mem := mem[objectCopy := Obj(dataSize, true, false, [0], [])];
      mem := mem[objectCopy := mem[objectCopy].(bytes := mem[currentObject].bytes)];
      mem := mem[currentObject := mem[currentObject].(relocated := true)];
      mem := mem[objectCopy := mem[objectCopy].SetData(0, previousObject)];
      next := mem[currentObject].data[0];
      mem := mem[currentObject := mem[currentObject].SetData(0, objectCopy)];
      ghost var to;
      to, fwd' := Enter(g, mem0, fwd, stack, ptr, root, currentObject, mem[objectCopy], mem);
    }

    method EnterOrdinary(currentObject: Addr, previousObject: Word,
                         ghost g: Spaces, ghost fwd: Forwarding, ghost stack: seq<Addr>, ghost root: Word)
      returns (next: Word, ghost fwd': Forwarding)
      requires Inv(g, mem, fwd, stack, activeHeapPointer) && Pending(g, mem, stack, root, currentObject)
      requires previousObject == Top(stack)
      requires currentObject in g.from && currentObject !in fwd && currentObject in mem
      requires mem[currentObject] == g.from[currentObject] && mem[currentObject].WellShaped()
      requires !mem[currentObject].binary
      modifies `mem, `activeHeapPointer
      ensures currentObject in fwd' && fwd' == fwd[currentObject := fwd'[currentObject]]
      ensures Inv(g, mem, fwd', stack + [currentObject], activeHeapPointer)
      ensures Pending(g, mem, stack + [currentObject], root, next)
    {
      hide Inv, Pending;
      ghost var mem0, ptr := mem, activeHeapPointer;
      EnterRoom(g, mem, fwd, stack, activeHeapPointer, currentObject);
      var fieldsCount := mem[currentObject].size;
      activeHeapPointer := activeHeapPointer - (HEADER_BYTES + fieldsCount * WORD_BYTES);
      var objectCopy := activeHeapPointer;
      mem := mem[objectCopy := Obj(fieldsCount, false, false, seq(fieldsCount + 1, _ => 0), [])];
      mem := mem[currentObject := mem[currentObject].(relocated := true)];
      var lastObjectIndex := fieldsCount;
      mem := mem[objectCopy := mem[objectCopy].SetData(lastObjectIndex, previousObject)];
      next := mem[currentObject].data[lastObjectIndex];
      mem := mem[currentObject := mem[currentObject].SetData(lastObjectIndex, objectCopy)];
      ghost var to;
      to, fwd' := Enter(g, mem0, fwd, stack, ptr, root, currentObject, mem[objectCopy], mem);
    }

    /** The last open slot of the current object, its class, receives its final word. */
    method CloseObject(currentObject: Addr, replacement: Word,
                       ghost g: Spaces, ghost fwd: Forwarding, ghost stack: seq<Addr>,
                       ghost root: Word, ghost value: Word)
      returns (objectCopy: Addr, previousObject: Word)
      requires Inv(g, mem, fwd, stack, activeHeapPointer) && Pending(g, mem, stack, root, value)
      requires stack != [] && currentObject == Top(stack)
      requires TopShape(g, mem, fwd, currentObject, Top(stack[..|stack| - 1]))
      requires Settled(g, fwd, value) && replacement == Forward(fwd, value)
      requires Separated(g, fwd) && fwd[currentObject] != currentObject && Cursor(mem[currentObject]) == 0
      modifies `mem
      ensures Inv(g, mem, fwd, stack[..|stack| - 1], activeHeapPointer)
      ensures Pending(g, mem, stack[..|stack| - 1], root, currentObject) && Settled(g, fwd, currentObject)
      ensures objectCopy == Forward(fwd, currentObject) && previousObject == Top(stack[..|stack| - 1])
      ensures CursorSum(mem, stack[..|stack| - 1]) == old(CursorSum(mem, stack))
    {
      hide Inv, Pending, Settled, Separated, CursorSum;
      ghost var mem0 := mem;
      objectCopy := mem[currentObject].data[0];
      previousObject := mem[objectCopy].data[0];
      mem := mem[objectCopy := mem[objectCopy].SetData(0, replacement)];
      mem := mem[currentObject := mem[currentObject].SetData(0, objectCopy)];
      assert mem0[currentObject].SetData(0, objectCopy) == mem0[currentObject];
      assert mem == mem0[objectCopy := mem0[objectCopy].SetData(0, replacement)];
      Close(g, mem0, fwd, stack, activeHeapPointer, root, value, mem);
    }

    /** Null fields below field k are copied; the result is the next field to open. */
    method CopyNullFields(currentObject: Addr, objectCopy: Addr, k: nat) returns (lastFieldIndex: nat)
      requires currentObject in mem && objectCopy in mem && currentObject != objectCopy
      requires 0 < k < |mem[currentObject].data| == |mem[objectCopy].data|
      modifies `mem
      ensures lastFieldIndex < k && mem.Keys == old(mem).Keys
      ensures forall a | a in mem && a != objectCopy :: mem[a] == old(mem)[a]
      ensures |mem[objectCopy].data| == |old(mem)[objectCopy].data|
      ensures mem[objectCopy] == old(mem)[objectCopy].(data := mem[objectCopy].data)
      ensures forall i | lastFieldIndex < i < k :: mem[currentObject].data[i] == 0 == mem[objectCopy].data[i]
      ensures forall i | k <= i < |mem[objectCopy].data| :: mem[objectCopy].data[i] == old(mem)[objectCopy].data[i]
    {
      lastFieldIndex := k - 1;
      while lastFieldIndex > 0 && mem[currentObject].data[lastFieldIndex] == 0
        invariant lastFieldIndex < k && mem.Keys == old(mem).Keys
        invariant forall a | a in mem && a != objectCopy :: mem[a] == old(mem)[a]
        invariant |mem[objectCopy].data| == |old(mem)[objectCopy].data|
        invariant mem[objectCopy] == old(mem)[objectCopy].(data := mem[objectCopy].data)
        invariant forall i | lastFieldIndex < i < k :: mem[currentObject].data[i] == 0 == mem[objectCopy].data[i]
        invariant forall i | k <= i < |mem[objectCopy].data| :: mem[objectCopy].data[i] == old(mem)[objectCopy].data[i]
      {
        mem := mem[objectCopy := mem[objectCopy].SetData(lastFieldIndex, 0)];
        lastFieldIndex := lastFieldIndex - 1;
      }
    }

    /** The open field of the current object receives its final word; null fields below it
        are copied, and the next field down is opened. */
    method OpenNextField(currentObject: Addr, replacement: Word,
                         ghost g: Spaces, ghost fwd: Forwarding, ghost stack: seq<Addr>,
                         ghost root: Word, ghost value: Word)
      returns (next: Word)
      requires Inv(g, mem, fwd, stack, activeHeapPointer) && Pending(g, mem, stack, root, value)
      requires stack != [] && currentObject == Top(stack)
      requires TopShape(g, mem, fwd, currentObject, Top(stack[..|stack| - 1]))
      requires Settled(g, fwd, value) && replacement == Forward(fwd, value)
      requires Separated(g, fwd) && fwd[currentObject] != currentObject
      requires !mem[currentObject].binary && mem[currentObject].size > 0
      modifies `mem
      ensures Inv(g, mem, fwd, stack, activeHeapPointer)
      ensures Pending(g, mem, stack, root, next)
      ensures CursorSum(mem, stack) < old(CursorSum(mem, stack))
    {
      hide Inv, Settled, Separated, CursorSum, Spaces.ValidWord, Forward, TopShape, Pending, Advances;
      OpenTop(g, mem, fwd, stack, root, value);
      ghost var mem0 := mem;
      var lastFieldIndex := mem[currentObject].size;
      var objectCopy := mem[currentObject].data[lastFieldIndex];
      var previousObject := mem[objectCopy].data[lastFieldIndex];
      mem := mem[objectCopy := mem[objectCopy].SetData(lastFieldIndex, replacement)];
      lastFieldIndex := CopyNullFields(currentObject, objectCopy, lastFieldIndex);
      ghost var mem1 := mem;
      mem := mem[currentObject := mem[currentObject].(size := lastFieldIndex)];
      mem := mem[currentObject := mem[currentObject].(relocated := true)];
      mem := mem[objectCopy := mem[objectCopy].SetData(lastFieldIndex, previousObject)];
      next := mem[currentObject].data[lastFieldIndex];
      mem := mem[currentObject := mem[currentObject].SetData(lastFieldIndex, objectCopy)];
      NullIsSettled(g, mem0, fwd, stack, activeHeapPointer);
      AdvancesBy(g, mem0, fwd, stack, replacement, lastFieldIndex, mem1, mem);
      Advance(g, mem0, fwd, stack, activeHeapPointer, root, replacement, lastFieldIndex, mem);
    }

    /** Stage 1: walk down, entering objects, until a word needs no more work. */
    method WalkDown(word: Word, parent: Word,
                    ghost g: Spaces, ghost fwd0: Forwarding, ghost fwd: Forwarding, ghost stack: seq<Addr>,
                    ghost root: Word)
      returns (replacement: Word, currentObject: Word,
               ghost fwd': Forwarding, ghost stack': seq<Addr>, ghost value: Word)
      requires g.fromLo == inactiveHeapPointer && g.fromHi == inactiveHeapBase + heapSize / 2
      requires Inv(g, mem, fwd, stack, activeHeapPointer) && fwd.Keys <= g.from.Keys
      requires Pending(g, mem, stack, root, word) && parent == Top(stack) && Traced(g, fwd0, fwd, stack, root)
      modifies `mem, `activeHeapPointer
      ensures Inv(g, mem, fwd', stack', activeHeapPointer) && fwd.Keys <= fwd'.Keys <= g.from.Keys
      ensures Pending(g, mem, stack', root, value) && Settled(g, fwd', value) && Traced(g, fwd0, fwd', stack', root)
      ensures replacement == Forward(fwd', value) && currentObject == Top(stack')
      ensures fwd'.Keys == fwd.Keys ==> CursorSum(mem, stack') == old(CursorSum(mem, stack))
    {
      hide Inv, Traced, Separated, CursorSum, Spaces.ValidWord, Forward, TopShape, Settled, Pending;
      var previousObject := parent;
      currentObject := word;
      fwd', stack' := fwd, stack;
      while true
        invariant Inv(g, mem, fwd', stack', activeHeapPointer) && fwd.Keys <= fwd'.Keys <= g.from.Keys
        invariant Pending(g, mem, stack', root, currentObject) && previousObject == Top(stack')
        invariant Traced(g, fwd0, fwd', stack', root)
        invariant fwd.Keys == fwd'.Keys ==> CursorSum(mem, stack') == old(CursorSum(mem, stack))
        decreases |g.from.Keys| - |fwd'.Keys|
      {
        value := currentObject;
        PendingValid(g, mem, stack', root, value);
        if IsSmallInteger(currentObject) {
          UnmovedWord(g, mem, fwd', stack', activeHeapPointer, value);
          return currentObject, previousObject, fwd', stack', value;
        }
        var inOldSpace := currentObject >= inactiveHeapPointer && currentObject < inactiveHeapBase + heapSize / 2;
        if !inOldSpace {
          UnmovedWord(g, mem, fwd', stack', activeHeapPointer, value);
          return currentObject, previousObject, fwd', stack', value;
        }
        InspectWord(g, mem, fwd', stack', activeHeapPointer, value);
        if mem[currentObject].relocated {
          if mem[currentObject].binary {
            replacement := mem[currentObject].data[0];
          } else {
            var index := mem[currentObject].size;
            replacement := mem[currentObject].data[index];
          }
          return replacement, previousObject, fwd', stack', value;
        }
        ghost var mem1, stack1, fwd1 := mem, stack', fwd';
        var next: Word;
        if mem[currentObject].binary {
          next, fwd' := EnterBinary(currentObject, previousObject, g, fwd1, stack1, root);
        } else {
          next, fwd' := EnterOrdinary(currentObject, previousObject, g, fwd1, stack1, root);
        }
        previousObject, currentObject := currentObject, next;
        TraceEnter(g, mem1, fwd0, fwd1, stack1, root, value, fwd');
        Fewer(g.from.Keys, fwd1.Keys, value);
        stack' := stack1 + [value];
      }
    }

    /** Stage 2: move back up, finishing objects, until one has a field left to move. */
    method WalkUp(word: Word, current: Word,
                  ghost g: Spaces, ghost fwd0: Forwarding, ghost fwd: Forwarding, ghost stack: seq<Addr>,
                  ghost root: Word, ghost value0: Word)
      returns (finished: bool, replacement: Word, currentObject: Word, previousObject: Word, ghost stack': seq<Addr>)
      requires Inv(g, mem, fwd, stack, activeHeapPointer)
      requires Pending(g, mem, stack, root, value0) && Settled(g, fwd, value0) && Traced(g, fwd0, fwd, stack, root)
      requires word == Forward(fwd, value0) && current == Top(stack)
      modifies `mem
      ensures Inv(g, mem, fwd, stack', activeHeapPointer) && Traced(g, fwd0, fwd, stack', root)
      ensures finished ==> stack' == [] && Settled(g, fwd, root) && replacement == Forward(fwd, root)
      ensures !finished ==> Pending(g, mem, stack', root, currentObject) && previousObject == Top(stack')
      ensures !finished ==> CursorSum(mem, stack') < old(CursorSum(mem, stack))
    {
      hide Inv, Traced, Separated, CursorSum, Spaces.ValidWord, Forward, TopShape, Settled, Pending;
      ghost var value := value0;
      replacement, currentObject, previousObject, stack' := word, current, 0, stack;
      while true
        invariant Inv(g, mem, fwd, stack', activeHeapPointer)
        invariant Pending(g, mem, stack', root, value) && Settled(g, fwd, value)
        invariant replacement == Forward(fwd, value) && currentObject == Top(stack')
        invariant Traced(g, fwd0, fwd, stack', root)
        invariant CursorSum(mem, stack') == old(CursorSum(mem, stack))
        decreases |stack'|
      {
        if currentObject == 0 {
          FinishAtRoot(g, mem, fwd, stack', activeHeapPointer, root, value);
          return true, replacement, currentObject, previousObject, stack';
        }
        InspectTop(g, mem, fwd, stack', activeHeapPointer);
        if mem[currentObject].binary || mem[currentObject].size == 0 {
          var objectCopy;
          objectCopy, previousObject := CloseObject(currentObject, replacement, g, fwd, stack', root, value);
          TraceShorter(g, fwd0, fwd, stack', root, stack'[..|stack'| - 1]);
          stack', value := stack'[..|stack'| - 1], currentObject;
          replacement := objectCopy;
          currentObject := previousObject;
        } else {
          var next := OpenNextField(currentObject, replacement, g, fwd, stack', root, value);
          return false, replacement, next, currentObject, stack';
        }
      }
    }

    /** Moves everything reachable from `root` that has not been moved yet, and returns the
        word that stands for `root` afterwards. */
    method MoveObject(root: Word, ghost g: Spaces, ghost fwd0: Forwarding)
      returns (replacement: Word, ghost fwd: Forwarding)
      requires g.fromLo == inactiveHeapPointer && g.fromHi == inactiveHeapBase + heapSize / 2
      requires Inv(g, mem, fwd0, [], activeHeapPointer) && g.ValidWord(root) && fwd0.Keys <= g.from.Keys
      modifies `mem, `activeHeapPointer
      ensures Inv(g, mem, fwd, [], activeHeapPointer) && fwd.Keys <= g.from.Keys
      ensures Settled(g, fwd, root) && replacement == Forward(fwd, root)
      ensures Traced(g, fwd0, fwd, [], root)
    {
      hide Inv, Traced, CursorSum, Spaces.ValidWord, Forward, Settled, Pending;
      var currentObject: Word, previousObject: Word := root, 0;
      ghost var stack: seq<Addr> := [];
      fwd := fwd0;
      StartAtRoot(g, mem, fwd, root);
      while true
        invariant Inv(g, mem, fwd, stack, activeHeapPointer) && fwd.Keys <= g.from.Keys
        invariant Pending(g, mem, stack, root, currentObject) && previousObject == Top(stack)
        invariant Traced(g, fwd0, fwd, stack, root)
        decreases |g.from.Keys| - |fwd.Keys|, CursorSum(mem, stack)
      {
        ghost var entered := fwd.Keys;
        ghost var value;
        replacement, currentObject, fwd, stack, value :=
          WalkDown(currentObject, previousObject, g, fwd0, fwd, stack, root);
        var finished;
        finished, replacement, currentObject, previousObject, stack :=
          WalkUp(replacement, currentObject, g, fwd0, fwd, stack, root, value);
        if finished {
          return;
        }
        if entered != fwd.Keys { FewerAll(g.from.Keys, entered, fwd.Keys); }
      }
    }

    /** Updates every root: the registered static slots and the external pointers. */
    method MoveObjects(ghost g: Spaces, ghost words: set<Word>) returns (ghost fwd: Forwarding)
      requires g.fromLo == inactiveHeapPointer && g.fromHi == inactiveHeapBase + heapSize / 2
      requires Inv(g, mem, map[], [], activeHeapPointer) && Ready(g, staticRoots, statics, externals, words)
      modifies `mem, `activeHeapPointer, `statics, `externals
      ensures Inv(g, mem, fwd, [], activeHeapPointer)
      ensures RootsMoved(g, fwd, staticRoots, old(statics), statics, old(externals), externals)
      ensures forall a | a in fwd :: ReachedFromAny(g.from, words, a)
    {
      hide Inv, Settled, Forward, ReachedFromAny, Spaces.ValidWord, Traced, Redirected, Extends;
      fwd := map[];
      var i := 0;
      while i < |staticRoots|
        invariant 0 <= i <= |staticRoots|
        invariant Inv(g, mem, fwd, [], activeHeapPointer) && fwd.Keys <= g.from.Keys
        invariant statics.Keys == old(statics).Keys && externals == old(externals)
        invariant forall j | 0 <= j < i :: Redirected(g, fwd, old(statics)[staticRoots[j]], statics[staticRoots[j]])
        invariant forall s | s in statics && s !in staticRoots[..i] :: statics[s] == old(statics)[s]
        invariant forall a | a in fwd :: ReachedFromAny(g.from, words, a)
      {
        var slot := staticRoots[i];
        assert slot !in staticRoots[..i];
        ghost var fwd0, statics0 := fwd, statics;
        var word;
        word, fwd := MoveObject(statics[slot], g, fwd0);
        TracedToRoots(g, fwd0, fwd, statics0[slot], words);
        assert Redirected(g, fwd, statics0[slot], word) by { RedirectedNow(g, fwd, statics0[slot], word); }
        statics := statics[slot := word];
        forall j | 0 <= j < i
          ensures Redirected(g, fwd, old(statics)[staticRoots[j]], statics[staticRoots[j]])
        {
          assert staticRoots[j] != slot;
          RedirectedExtends(g, fwd0, fwd, old(statics)[staticRoots[j]], statics0[staticRoots[j]]);
        }
        i := i + 1;
      }
      ghost var rootsDone := statics;
      var k := 0;
      while k < |externals|
        invariant 0 <= k <= |externals| == |old(externals)|
        invariant Inv(g, mem, fwd, [], activeHeapPointer) && fwd.Keys <= g.from.Keys
        invariant statics == rootsDone
        invariant forall s | s in staticRoots :: Redirected(g, fwd, old(statics)[s], statics[s])
        invariant forall j | 0 <= j < k :: Redirected(g, fwd, old(externals)[j], externals[j])
        invariant forall j | k <= j < |externals| :: externals[j] == old(externals)[j]
        invariant forall a | a in fwd :: ReachedFromAny(g.from, words, a)
      {
        ghost var fwd0, externals0 := fwd, externals;
        var word;
        word, fwd := MoveObject(externals[k], g, fwd0);
        TracedToRoots(g, fwd0, fwd, externals0[k], words);
        RedirectedNow(g, fwd, externals0[k], word);
        externals := externals[k := word];
        forall s | s in staticRoots
          ensures Redirected(g, fwd, old(statics)[s], statics[s])
        {
          RedirectedExtends(g, fwd0, fwd, old(statics)[s], statics[s]);
        }
        forall j | 0 <= j < k
          ensures Redirected(g, fwd, old(externals)[j], externals[j])
        {
          RedirectedExtends(g, fwd0, fwd, old(externals)[j], externals0[j]);
        }
        k := k + 1;
      }
    }

    lemma TargetReady()
      requires Valid()
      ensures Target(State(), InactiveHalf(), InactiveHalf() + heapSize / 2)
    {
      hide Heap.Barrier, Heap.WellFormed;
      HalvesAligned(heapOne, heapTwo, heapSize, staticHeapPointer, staticHeapBase + staticHeapSize);
    }

    /** The halves change roles; everything in use is now in the inactive one. */
    method SwapHalves()
      requires Layout()
      modifies `activeHeapOne, `activeHeapBase, `activeHeapPointer, `inactiveHeapBase, `inactiveHeapPointer
      ensures activeHeapOne == !old(activeHeapOne)
      ensures activeHeapBase == ActiveHalf() == old(InactiveHalf()) && inactiveHeapBase == old(activeHeapBase)
      ensures inactiveHeapPointer == old(activeHeapPointer) && activeHeapPointer == activeHeapBase + heapSize / 2
    {
      if activeHeapOne {
        activeHeapBase := heapTwo;
        inactiveHeapBase := heapOne;
      } else {
        activeHeapBase := heapOne;
        inactiveHeapBase := heapTwo;
      }
      activeHeapOne := !activeHeapOne;
      inactiveHeapPointer := activeHeapPointer;
      activeHeapPointer := activeHeapBase + heapSize / 2;
    }

    /** Moves everything live into the other half and clears the one it came from. */
    method CollectGarbage(ghost h: Heap) returns (ghost g: Spaces, ghost fwd: Forwarding)
      requires Valid() && h == State()
      modifies `activeHeapOne, `activeHeapBase, `activeHeapPointer, `inactiveHeapBase, `inactiveHeapPointer,
               `mem, `statics, `externals
      ensures Valid() && CollectedTo(h, g, fwd, State())
      ensures activeHeapOne == !old(activeHeapOne)
      ensures SameHeapGraph(h, State()) && fwd.Keys == h.LiveSet()
      ensures Used() == h.LiveBytes() == State().LiveBytes()
    {
      hide SameHeapGraph, Heap.LiveSet, Heap.LiveBytes, CollectedTo, Inv, ReachedFromAny, Heap.WellFormed, Heap.Barrier,
           Ready, RootsMoved, RootWords, Target, GoodHalves;
      TargetReady();
      ActiveBounds();
      SwapHalves();
      g := CollectionOf(h, activeHeapBase, activeHeapBase + heapSize / 2);
      PrepareCollection(h, g);
      fwd := MoveObjects(g, RootWords(h));
      ghost var mem1 := mem;
      mem := map a | a in mem && !(inactiveHeapBase <= a < inactiveHeapBase + heapSize / 2) :: mem[a];
      ClearingFinishes(h, g, fwd, mem1, inactiveHeapBase, inactiveHeapBase + heapSize / 2, statics, externals, State());
    }

    lemma ActiveBounds()
      requires Valid()
      ensures var half := heapSize / 2; InactiveHalf() + half <= ActiveHalf() || ActiveHalf() + half <= InactiveHalf()
    {
      hide Heap.Barrier, Heap.WellFormed;
    }

    /** Bytes left below the allocation pointer. */
    function Free(): int
      reads this
    {
      activeHeapPointer - activeHeapBase
    }

    /** A block of memory from the system: anywhere, as long as it is aligned and apart from
        the block still held and from the static heap. */
    method Realloc(size: nat, other: Addr, otherSize: nat) returns (base: Addr)
      ensures 0 < base && base % WORD_BYTES == 0 && Apart(base, size, other, otherSize)
      ensures base + size <= staticHeapPointer || staticHeapBase + staticHeapSize <= base
    {
      base := WORD_BYTES * (other + otherSize + staticHeapBase + staticHeapSize + 1);
    }

    /** The size asked for, rounded up until half of it is aligned. */
    method GrownSize(requestedSize: nat) returns (newHeapSize: nat)
      ensures GrownTo(requestedSize, heapSize, newHeapSize)
    {
      ghost var least := 2 * requestedSize + heapSize + heapSize / 2;
      newHeapSize := CorrectPadding(2 * requestedSize + heapSize + heapSize / 2);
      PaddingIsLeast(least);
      hide CorrectPadding;
      while newHeapSize / 2 % WORD_BYTES != 0
        invariant newHeapSize % WORD_BYTES == 0
        invariant least <= newHeapSize < least + if newHeapSize % 8 == 0 then 8 else 4
        decreases newHeapSize % 8
      {
        HalfAligned(newHeapSize);
        NextPadding(newHeapSize);
        NextAligned(newHeapSize);
        newHeapSize := CorrectPadding(newHeapSize + 1);
      }
      HalfAligned(newHeapSize);
    }

    ghost predicate GoodBlock(base: Addr, size: nat)
      reads `staticHeapBase, `staticHeapPointer, `staticHeapSize
    {
      && 0 < base && base % WORD_BYTES == 0
      && (base + size <= staticHeapPointer || staticHeapBase + staticHeapSize <= base)
    }

    /** The inactive half becomes a block of `size` bytes, apart from the `held` bytes that
        the block of the active half has. */
    method ReallocInactive(size: nat, held: nat)
      requires Valid() && heapSize / 2 <= size && heapSize / 2 <= held && GoodBlock(ActiveHalf(), held)
      modifies `heapOne, `heapTwo
      ensures Valid() && State() == old(State()) && ActiveHalf() == old(ActiveHalf())
      ensures GoodBlock(InactiveHalf(), size) && Apart(InactiveHalf(), size, ActiveHalf(), held)
    {
      hide Heap.WellFormed, Heap.Barrier;
      if activeHeapOne {
        heapTwo := Realloc(size, heapOne, held);
      } else {
        heapOne := Realloc(size, heapTwo, held);
      }
    }

    /** Both halves already have blocks of the new size. */
    method AdoptSize(newHeapSize: nat)
      requires Valid() && heapSize <= newHeapSize && newHeapSize % 8 == 0
      requires GoodHalves(heapOne, heapTwo, newHeapSize / 2, staticHeapPointer, staticHeapBase + staticHeapSize)
      modifies `heapSize
      ensures Valid() && heapSize == newHeapSize
      ensures SameHeapGraph(old(State()), State()) && State().LiveBytes() == old(State()).LiveBytes()
    {
      hide Heap.WellFormed, Heap.Barrier, SameHeapGraph, Heap.LiveBytes;
      ghost var h := State();
      HalvesAligned(heapOne, heapTwo, newHeapSize, staticHeapPointer, staticHeapBase + staticHeapSize);
      LowAligned(h);
      hide GoodHalves;
      heapSize := newHeapSize;
      Rebounded(h, State());
    }

    lemma BlocksMakeHalves(size: nat)
      requires GoodBlock(InactiveHalf(), size) && GoodBlock(ActiveHalf(), size)
      requires Apart(InactiveHalf(), size, ActiveHalf(), size)
      ensures GoodHalves(heapOne, heapTwo, size, staticHeapPointer, staticHeapBase + staticHeapSize)
    {
    }

    lemma ActiveBlock()
      requires Valid()
      ensures GoodBlock(ActiveHalf(), heapSize / 2)
    {
      hide Heap.WellFormed, Heap.Barrier;
    }

    /** Gives both halves half of the grown size, with two collections under the old one. */
    method GrowHeap(requestedSize: nat, ghost h: Heap)
      requires Valid() && h == State()
      modifies `heapSize, `heapOne, `heapTwo, `activeHeapOne, `activeHeapBase, `activeHeapPointer,
               `inactiveHeapBase, `inactiveHeapPointer, `mem, `statics, `externals
      ensures Valid() && SameHeapGraph(h, State()) && State().LiveBytes() == h.LiveBytes()
      ensures GrownTo(requestedSize, old(heapSize), heapSize) && activeHeapOne == old(activeHeapOne)
      ensures heapSize % 8 == 0
      ensures 2 * requestedSize + old(heapSize) + old(heapSize) / 2 <= heapSize <
              2 * requestedSize + old(heapSize) + old(heapSize) / 2 + 8
      ensures Free() == old(heapSize) / 2 - h.LiveBytes()
    {
      hide SameHeapGraph, Heap.LiveBytes, Heap.LiveSet, CollectedTo, Valid, State, GoodBlock, GoodHalves;
      var newHeapSize := GrownSize(requestedSize);
      GrownLarger(requestedSize, heapSize, newHeapSize);
      ActiveBlock();
      ReallocInactive(newHeapSize / 2, heapSize / 2);
      ghost var g, fwd := CollectGarbage(h);
      ghost var h1 := State();
      ReallocInactive(newHeapSize / 2, newHeapSize / 2);
      g, fwd := CollectGarbage(h1);
      ghost var h2 := State();
      GraphChain(h, h1, h2);
      BlocksMakeHalves(newHeapSize / 2);
      AdoptSize(newHeapSize);
      GraphChain(h, h2, State());
    }

    /** Moves the allocation pointer down over a block that fits. */
    method Bump(requestedSize: nat, ghost h: Heap) returns (result: Addr)
      requires Valid() && h == State() && requestedSize % WORD_BYTES == 0 && requestedSize <= Free()
      modifies `activeHeapPointer
      ensures Valid() && SameHeapGraph(h, State()) && State().LiveBytes() == h.LiveBytes()
      ensures result == activeHeapPointer && GoodBlockAt(result, requestedSize)
    {
      hide SameHeapGraph, Heap.LiveBytes, Heap.WellFormed, Heap.Barrier, GoodHalves;
      LowAligned(h);
      ActiveBase();
      activeHeapPointer := activeHeapPointer - requestedSize;
      result := activeHeapPointer;
      Rebounded(h, State());
      BelowIsFree(h, result, requestedSize);
    }

    lemma ActiveBase()
      requires Valid()
      ensures 0 < activeHeapBase <= activeHeapBase + heapSize / 2 && (activeHeapBase + heapSize / 2) % WORD_BYTES == 0
      ensures activeHeapBase + heapSize / 2 <= staticHeapPointer || staticHeapBase + staticHeapSize <= activeHeapBase
    {
      hide Heap.WellFormed, Heap.Barrier;
      HalvesAligned(heapOne, heapTwo, heapSize, staticHeapPointer, staticHeapBase + staticHeapSize);
    }

    /** An aligned block inside the active half that overlaps no object. */
    ghost predicate GoodBlockAt(at: Addr, size: nat)
      reads this
    {
      && at % WORD_BYTES == 0 && 0 < activeHeapBase <= at && at + size <= activeHeapBase + heapSize / 2
      && forall a | a in mem :: Apart(at, size, a, mem[a].ByteSize())
    }

    lemma LiveInHalf()
      requires Valid()
      ensures State().LiveBytes() <= heapSize / 2 && activeHeapBase > 0
    {
      hide Heap.WellFormed, Heap.Barrier, Heap.LiveBytes, GoodHalves;
      LiveFits(State());
      ActiveBase();
    }

    /** The two attempts.  A heap grown by the first attempt does not help the second: the
        room it gains only appears with the next collection, which is that of the second. */
    method TryAllocate(requestedSize: nat, ghost h: Heap) returns (result: Addr, collected: bool)
      requires Valid() && h == State() && requestedSize % WORD_BYTES == 0
      modifies `heapSize, `heapOne, `heapTwo, `activeHeapOne, `activeHeapBase, `activeHeapPointer,
               `inactiveHeapBase, `inactiveHeapPointer, `mem, `statics, `externals
      ensures Valid() && SameHeapGraph(h, State()) && State().LiveBytes() == h.LiveBytes()
      ensures result != 0 <==> requestedSize <= old(Free()) || requestedSize <= old(heapSize) / 2 - h.LiveBytes()
      ensures result != 0 ==> result == activeHeapPointer && GoodBlockAt(result, requestedSize)
      ensures collected <==> requestedSize > old(Free())
      ensures !collected ==>
                mem == old(mem) && statics == old(statics) && externals == old(externals) && heapSize == old(heapSize)
      ensures result == 0 ==> Refused(requestedSize, old(heapSize), h.LiveBytes())
    {
      hide SameHeapGraph, Heap.LiveBytes, Heap.LiveSet, CollectedTo, Valid, State, GoodBlockAt, GrownTo, LittleGained,
           SizeAfter, Refused;
      LiveInHalf();
      GraphUnchanged(h);
      collected := false;
      ghost var live, size := h.LiveBytes(), heapSize;
      var attempts := 2;
      while attempts > 0
        invariant 0 <= attempts <= 2 && Valid() && SameHeapGraph(h, State()) && State().LiveBytes() == live
        invariant attempts == 2 ==> State() == h && Free() == old(Free()) && heapSize == size
        invariant attempts < 2 ==> requestedSize > old(Free())
        invariant attempts == 1 ==>
                    Free() == size / 2 - live && SizeAfter(requestedSize, size, maxHeapSize, live, heapSize)
        invariant attempts == 0 ==> requestedSize > size / 2 - live && Refused(requestedSize, size, live)
        invariant collected <==> attempts < 2
        invariant !collected ==> mem == old(mem) && statics == old(statics) && externals == old(externals)
      {
        attempts := attempts - 1;
        if activeHeapPointer - requestedSize < activeHeapBase {
          ghost var sizeBefore := heapSize;
          MakeRoom(requestedSize, h, State());
          collected := true;
          if attempts == 0 { RefusedTwice(requestedSize, size, sizeBefore, live); }
          continue;
        }
        LiveInHalf();
        ghost var before := State();
        result := Bump(requestedSize, before);
        GraphChain(h, before, State());
        BlockNotNull(result, requestedSize);
        return result, collected;
      }
      return 0, collected;
    }

    /** What a refusal leaves behind. */
    ghost predicate Refused(requestedSize: nat, size: nat, live: nat)
      reads this
    {
      && requestedSize > size / 2 - live && size <= heapSize
      && (requestedSize <= Free() <==> LittleGained(size, maxHeapSize, live))
      && (!LittleGained(size, maxHeapSize, live) ==> heapSize == size)
    }

    lemma RefusedTwice(requestedSize: nat, size: nat, sizeBefore: nat, live: nat)
      requires SizeAfter(requestedSize, size, maxHeapSize, live, sizeBefore)
      requires SizeAfter(requestedSize, sizeBefore, maxHeapSize, live, heapSize)
      requires requestedSize > size / 2 - live && live <= size / 2 && Free() == sizeBefore / 2 - live
      ensures Refused(requestedSize, size, live)
    {
      RoomAfter(requestedSize, size, maxHeapSize, live, sizeBefore);
      if LittleGained(sizeBefore, maxHeapSize, live) {
        GrownLarger(requestedSize, sizeBefore, heapSize);
      }
    }

    lemma BlockNotNull(at: Addr, size: nat)
      requires GoodBlockAt(at, size)
      ensures at != 0
    {
    }

    /** One failed attempt: collect, and grow the heap if little was gained. */
    method MakeRoom(requestedSize: nat, ghost start: Heap, ghost h: Heap)
      requires Valid() && h == State() && SameHeapGraph(start, h)
      modifies `heapSize, `heapOne, `heapTwo, `activeHeapOne, `activeHeapBase, `activeHeapPointer,
               `inactiveHeapBase, `inactiveHeapPointer, `mem, `statics, `externals
      ensures Valid() && SameHeapGraph(start, State()) && State().LiveBytes() == h.LiveBytes()
      ensures Free() == old(heapSize) / 2 - h.LiveBytes()
      ensures SizeAfter(requestedSize, old(heapSize), maxHeapSize, h.LiveBytes(), heapSize)
    {
      hide SameHeapGraph, Heap.LiveBytes, Heap.LiveSet, CollectedTo, Valid, State, GrownTo;
      ghost var g, fwd := CollectGarbage(h);
      ghost var h1 := State();
      GraphChain(start, h, h1);
      var distance := activeHeapPointer - activeHeapBase;
      if distance < heapSize / 16 && heapSize < maxHeapSize {
        GrowHeap(requestedSize, h1);
        GraphChain(start, h1, State());
      }
    }

    /** Allocation: the result is null exactly when the request cannot be met, and the
        collector has run exactly when `CollectsFor` says so.  So a request of at most half
        the heap that is refused is refused after two collections, any other after none; and
        if the heap was grown in vain, the room for the request is there by now. */
    method Allocate(requestedSize: nat, ghost h: Heap) returns (result: Addr, gcOccured: bool)
      requires Valid() && h == State() && requestedSize == CorrectPadding(requestedSize)
      modifies `heapSize, `heapOne, `heapTwo, `activeHeapOne, `activeHeapBase, `activeHeapPointer,
               `inactiveHeapBase, `inactiveHeapPointer, `mem, `statics, `externals
      ensures Valid() && SameHeapGraph(h, State()) && State().LiveBytes() == h.LiveBytes()
      ensures result != 0 <==> CanAllocate(requestedSize, old(heapSize), maxHeapSize, old(Free()), h.LiveBytes())
      ensures requestedSize <= old(heapSize) / 2 ==>
                && (result != 0 <==> requestedSize <= old(Free()) || requestedSize <= old(heapSize) / 2 - h.LiveBytes())
                && (gcOccured <==> requestedSize > old(Free()))
      ensures requestedSize > old(heapSize) / 2 ==>
                (result != 0 <==> CorrectPadding(2 * requestedSize + old(heapSize) + old(heapSize) / 2) < maxHeapSize)
      ensures result != 0 ==> result == activeHeapPointer && GoodBlockAt(result, requestedSize)
      ensures gcOccured <==> CollectsFor(requestedSize, old(heapSize), maxHeapSize, old(Free()))
      ensures result == 0 ==> (gcOccured <==> requestedSize <= old(heapSize) / 2)
      ensures !gcOccured ==>
                mem == old(mem) && statics == old(statics) && externals == old(externals) && heapSize == old(heapSize)
      ensures result == 0 && gcOccured ==> Refused(requestedSize, old(heapSize), h.LiveBytes())
    {
      PaddingIsLeast(requestedSize);
      hide SameHeapGraph, Heap.LiveBytes, Heap.LiveSet, Valid, State, GoodBlockAt, GrownTo, CanAllocate, CorrectPadding,
           CollectsFor, LittleGained;
      LiveInHalf();
      var grown := false;
      if requestedSize > heapSize / 2 {
        var newHeapSize := CorrectPadding(2 * requestedSize + heapSize + heapSize / 2);
        RequestLarge(requestedSize, heapSize, maxHeapSize, Free(), h.LiveBytes());
        if newHeapSize < maxHeapSize {
          GrowHeap(requestedSize, h);
          GrownFits(requestedSize, old(heapSize), heapSize, h.LiveBytes());
          grown := true;
        } else {
          GraphUnchanged(h);
          return 0, false;
        }
      } else {
        RequestSmall(requestedSize, heapSize, maxHeapSize, Free(), h.LiveBytes());
        GraphUnchanged(h);
      }
      ghost var before := State();
      result, gcOccured := TryAllocate(requestedSize, before);
      GraphChain(h, before, State());
      gcOccured := gcOccured || grown;
    }

    /** A request of at most half the heap that is refused and then repeated: the second call
        is refused too unless the first one has grown the heap. */
    method AllocateAgain(requestedSize: nat, ghost h: Heap) returns (first: Addr, second: Addr)
      requires Valid() && h == State() && requestedSize == CorrectPadding(requestedSize)
      requires requestedSize <= heapSize / 2
      requires !CanAllocate(requestedSize, heapSize, maxHeapSize, Free(), h.LiveBytes())
      modifies `heapSize, `heapOne, `heapTwo, `activeHeapOne, `activeHeapBase, `activeHeapPointer,
               `inactiveHeapBase, `inactiveHeapPointer, `mem, `statics, `externals
      ensures Valid() && SameHeapGraph(h, State())
      ensures first == 0 && (second != 0 <==> LittleGained(old(heapSize), maxHeapSize, h.LiveBytes()))
      ensures second != 0 <==>
              old(heapSize) < maxHeapSize && 16 * (old(heapSize) / 2 - h.LiveBytes()) <= old(heapSize) - 16
    {
      LittleIs(heapSize, maxHeapSize, h.LiveBytes());
      hide SameHeapGraph, Heap.LiveBytes, Heap.LiveSet, Valid, State, GoodBlockAt, CorrectPadding, LittleGained;
      var gcOccured;
      first, gcOccured := Allocate(requestedSize, h);
      ghost var h1 := State();
      second, gcOccured := Allocate(requestedSize, h1);
      GraphChain(h, h1, State());
    }

    // ---- The write barrier and the external pointers.

    predicate IsInStaticHeap(location: Word)
      reads this
    {
      location >= staticHeapPointer && location < staticHeapBase + staticHeapSize
    }

    method AddStaticRoot(slot: Addr)
      modifies `staticRoots
      ensures staticRoots == [slot] + old(staticRoots)
    {
      staticRoots := [slot] + staticRoots;
    }

    method RemoveStaticRoot(slot: Addr)
      modifies `staticRoots
      ensures staticRoots == RemoveFirst(old(staticRoots), slot)
    {
      var i := 0;
      while i < |staticRoots|
        invariant 0 <= i <= |staticRoots| && staticRoots == old(staticRoots)
        invariant slot !in staticRoots[..i]
      {
        if staticRoots[i] == slot {
          RemoveFirstAt(staticRoots, i);
          staticRoots := staticRoots[..i] + staticRoots[i + 1..];
          return;
        }
        i := i + 1;
      }
      RemoveFirstAbsent(staticRoots, slot);
    }

    /** The bookkeeping before `value` is stored into the slot at address `slot`. */
    method CheckRoot(value: Word, slot: Addr) returns (altered: bool)
      requires IsInStaticHeap(slot) ==> slot in statics
      modifies `staticRoots
      ensures staticRoots == Registered(old(State()), slot, value)
      ensures altered <==> IsInStaticHeap(slot) && (IsInStaticHeap(value) <==> !IsInStaticHeap(statics[slot]))
    {
      if IsInStaticHeap(slot) {
        var oldValue := statics[slot];
        var valueIsStatic := IsInStaticHeap(value);
        var oldValueIsStatic := IsInStaticHeap(oldValue);
        if !valueIsStatic {
          if oldValueIsStatic {
            AddStaticRoot(slot);
            return true;
          }
        } else {
          if !oldValueIsStatic {
            RemoveStaticRoot(slot);
            return true;
          }
        }
      }
      return false;
    }

    /** An assignment to a slot of a static object.  The manager stays valid exactly if it is
        not the store that the barrier overlooks. */
    method StoreStatic(slot: Addr, value: Word)
      requires Valid() && slot in statics && State().GoodWord(value)
      modifies `staticRoots, `statics
      ensures State() == Stored(old(State()), slot, value) && statics == old(statics)[slot := value]
      ensures Layout() && State().WellFormed()
      ensures Valid() <==> !Loses(old(State()), slot, value)
    {
      hide Heap.WellFormed, Heap.GoodWord, GoodHalves, Heap.Barrier, Registered;
      ghost var h := State();
      var altered := CheckRoot(value, slot);
      statics := statics[slot := value];
      StoreKeepsBarrier(h, slot, value);
      StoreWellFormed(h, slot, value, staticRoots);
    }

    /** An assignment to a slot of a dynamic object; the barrier has nothing to do. */
    method StoreField(a: Addr, index: nat, value: Word)
      requires Valid() && a in mem && index < |mem[a].data| && State().GoodWord(value)
      modifies `staticRoots, `mem
      ensures Valid() && staticRoots == old(staticRoots) && mem == old(mem)[a := old(mem)[a].SetData(index, value)]
      ensures mem[a] == old(mem)[a].(data := old(mem)[a].data[index := value])
    {
      hide Heap.WellFormed, Heap.GoodWord, GoodHalves, Heap.Barrier;
      ghost var h := State();
      FieldOutside(a, index);
      var altered := CheckRoot(value, a + (index + 1) * WORD_BYTES);
      mem := mem[a := mem[a].SetData(index, value)];
      FieldWellFormed(h, a, index, value);
    }

    /** The slots of a dynamic object are outside the static heap. */
    lemma FieldOutside(a: Addr, index: nat)
      requires Valid() && a in mem && index < |mem[a].data|
      ensures !IsInStaticHeap(a + (index + 1) * WORD_BYTES)
    {
      hide Heap.Barrier, Heap.GoodWord, Apart;
      ActiveBase();
      assert State().ObjectAt(a);
      assert a + (index + 1) * WORD_BYTES < a + mem[a].ByteSize();
    }

    /** A store of a byte of a dynamic object. */
    method StoreByte(a: Addr, index: nat, value: Byte)
      requires Valid() && a in mem && index < |mem[a].bytes|
      modifies `mem
      ensures Valid() && mem == old(mem)[a := old(mem)[a].SetByte(index, value)]
      ensures mem[a] == old(mem)[a].(bytes := old(mem)[a].bytes[index := value])
    {
      hide Heap.WellFormed, GoodHalves, Heap.Barrier;
      ghost var h := State();
      mem := mem[a := mem[a].SetByte(index, value)];
      BytesWellFormed(h, a, index, value);
    }

    method RegisterExternal(value: Word)
      requires Valid() && State().GoodWord(value)
      modifies `externals
      ensures Valid() && externals == [value] + old(externals)
    {
      hide Heap.WellFormed, Heap.GoodWord, GoodHalves, Heap.Barrier;
      ghost var h := State();
      ExternalsGood(h);
      externals := [value] + externals;
      ExternalsWellFormed(h, externals);
    }

    /** Releases the pointer at the head of the chain. */
    method ReleaseExternal()
      requires Valid() && |externals| > 0
      modifies `externals
      ensures Valid() && externals == old(externals)[1..]
    {
      hide Heap.WellFormed, Heap.GoodWord, GoodHalves, Heap.Barrier;
      ghost var h := State();
      ExternalsGood(h);
      externals := externals[1..];
      ExternalsWellFormed(h, externals);
    }

    /** A new object whose class is kept in an external pointer while memory is allocated,
        because the class may move.  `before` is the heap without the new object: nothing in
        it can be told from the heap at the call, and its newest external pointer is what the
        class became.  `collected` is what the caller sees as m_lastGCOccured. */
    method NewOrdinaryObject(klass: Word, fieldsCount: nat, nilObject: Word, ghost h: Heap)
      returns (instance: Word, collected: bool, ghost before: Heap)
      requires Valid() && h == State() && h.GoodWord(klass) && IsInStaticHeap(nilObject)
      modifies `heapSize, `heapOne, `heapTwo, `activeHeapOne, `activeHeapBase, `activeHeapPointer,
               `inactiveHeapBase, `inactiveHeapPointer, `mem, `statics, `externals
      ensures Valid() && SameHeapGraph(h, State())
      ensures instance == nilObject <==>
              !CanAllocate(HEADER_BYTES + fieldsCount * WORD_BYTES, old(heapSize), maxHeapSize, old(Free()),
                           Holding(h, klass).LiveBytes())
      ensures collected <==>
              CollectsFor(HEADER_BYTES + fieldsCount * WORD_BYTES, old(heapSize), maxHeapSize, old(Free()))
      ensures instance == nilObject ==> (collected <==> HEADER_BYTES + fieldsCount * WORD_BYTES <= old(heapSize) / 2)
      ensures BeforeNew(h, klass, before)
      ensures !collected ==> before.mem == old(mem) && heapSize == old(heapSize)
      ensures instance == nilObject ==> State() == before.(externals := before.externals[1..])
      ensures instance != nilObject ==> FreeIn(before, instance)
      ensures instance != nilObject ==>
                State() == After(before, instance, OrdinaryObject(before.externals[0], fieldsCount, nilObject))
      ensures instance != nilObject ==>
        && instance in mem && mem == before.mem[instance := mem[instance]]
        && !mem[instance].binary && !mem[instance].relocated && mem[instance].size == fieldsCount
        && |mem[instance].data| == fieldsCount + 1 && mem[instance].data[0] == before.externals[0]
        && (forall i | 1 <= i <= fieldsCount :: mem[instance].data[i] == nilObject) && mem[instance].bytes == []
    {
      hide SameHeapGraph, Heap.LiveBytes, Valid, Heap.WellFormed, Heap.Barrier, GoodHalves, Layout, CanAllocate,
           GoodBlockAt, CollectsFor, Refused;
      var slotSize := HEADER_BYTES + fieldsCount * WORD_BYTES;
      SlotPadded(fieldsCount);
      var slot;
      slot, collected, before := AllocateHolding(klass, slotSize, h);
      if slot == 0 {
        ReleaseExternal();
        return nilObject, collected, before;
      }
      OrdinarySize(externals[0], fieldsCount, nilObject);
      NilOutside(slot, slotSize, nilObject);
      AddObject(slot, OrdinaryObject(externals[0], fieldsCount, nilObject), nilObject, before);
      instance := slot;
      ReleaseAfter(h, klass, before);
    }

    /** The same for an object that holds bytes.  The free part of a half is all zeros. */
    method NewBinaryObject(klass: Word, dataSize: nat, nilObject: Word, ghost h: Heap)
      returns (instance: Word, collected: bool, ghost before: Heap)
      requires Valid() && h == State() && h.GoodWord(klass) && IsInStaticHeap(nilObject)
      modifies `heapSize, `heapOne, `heapTwo, `activeHeapOne, `activeHeapBase, `activeHeapPointer,
               `inactiveHeapBase, `inactiveHeapPointer, `mem, `statics, `externals
      ensures Valid() && SameHeapGraph(h, State())
      ensures instance == nilObject <==>
              !CanAllocate(CorrectPadding(HEADER_BYTES + dataSize), old(heapSize), maxHeapSize, old(Free()),
                           Holding(h, klass).LiveBytes())
      ensures collected <==>
              CollectsFor(CorrectPadding(HEADER_BYTES + dataSize), old(heapSize), maxHeapSize, old(Free()))
      ensures instance == nilObject ==> (collected <==> CorrectPadding(HEADER_BYTES + dataSize) <= old(heapSize) / 2)
      ensures BeforeNew(h, klass, before)
      ensures !collected ==> before.mem == old(mem) && heapSize == old(heapSize)
      ensures instance == nilObject ==> State() == before.(externals := before.externals[1..])
      ensures instance != nilObject ==> FreeIn(before, instance)
      ensures instance != nilObject ==> State() == After(before, instance, BinaryObject(before.externals[0], dataSize))
      ensures instance != nilObject ==>
        && instance in mem && mem == before.mem[instance := mem[instance]]
        && mem[instance].binary && !mem[instance].relocated && mem[instance].size == dataSize
        && mem[instance].data == [before.externals[0]]
        && |mem[instance].bytes| == dataSize && forall i | 0 <= i < dataSize :: mem[instance].bytes[i] == 0
    {
      hide SameHeapGraph, Heap.LiveBytes, Valid, Heap.WellFormed, Heap.Barrier, GoodHalves, Layout, CanAllocate,
           GoodBlockAt, CollectsFor, Refused;
      BinarySize(0, dataSize);
      hide CorrectPadding;
      var slotSize := CorrectPadding(HEADER_BYTES + dataSize);
      var slot;
      slot, collected, before := AllocateHolding(klass, slotSize, h);
      if slot == 0 {
        ReleaseExternal();
        return nilObject, collected, before;
      }
      BinarySize(externals[0], dataSize);
      NilOutside(slot, slotSize, nilObject);
      AddObject(slot, BinaryObject(externals[0], dataSize), nilObject, before);
      instance := slot;
      ReleaseAfter(h, klass, before);
    }

    /** The block for a new object, with its class in an external pointer. */
    method AllocateHolding(klass: Word, slotSize: nat, ghost h: Heap)
      returns (slot: Addr, collected: bool, ghost before: Heap)
      requires Valid() && h == State() && h.GoodWord(klass) && slotSize == CorrectPadding(slotSize)
      modifies `heapSize, `heapOne, `heapTwo, `activeHeapOne, `activeHeapBase, `activeHeapPointer,
               `inactiveHeapBase, `inactiveHeapPointer, `mem, `statics, `externals
      ensures Valid() && before == State() && BeforeNew(h, klass, before)
      ensures slot != 0 <==>
              CanAllocate(slotSize, old(heapSize), maxHeapSize, old(Free()), Holding(h, klass).LiveBytes())
      ensures slot != 0 ==> slot == activeHeapPointer && GoodBlockAt(slot, slotSize)
      ensures collected <==> CollectsFor(slotSize, old(heapSize), maxHeapSize, old(Free()))
      ensures slot == 0 ==> (collected <==> slotSize <= old(heapSize) / 2)
      ensures SameHeapGraph(h, State().(externals := externals[1..]))
      ensures !collected ==> mem == old(mem) && heapSize == old(heapSize)
    {
      hide SameHeapGraph, Heap.LiveBytes, Valid, Heap.WellFormed, Heap.Barrier, GoodHalves, Layout, CanAllocate,
           GoodBlockAt, CollectsFor, Refused;
      RegisterExternal(klass);
      ghost var h1 := State();
      slot, collected := Allocate(slotSize, h1);
      before := State();
      SameExternals(h1, before);
      DropExternal(h1, before);
      assert h1.(externals := h1.externals[1..]) == h;
      StateWellFormed();
    }

    /** The class is let go again once the object has it. */
    method ReleaseAfter(ghost h: Heap, klass: Word, ghost before: Heap)
      requires Valid() && |externals| > 0 && |before.externals| > 0 && SameHeapGraph(before, State())
      requires SameHeapGraph(h, before.(externals := before.externals[1..]))
      modifies `externals
      ensures Valid() && State() == old(State()).(externals := old(externals)[1..]) && SameHeapGraph(h, State())
    {
      hide SameHeapGraph, Valid, Heap.WellFormed, Heap.Barrier, GoodHalves, Layout;
      ghost var h1 := State();
      ReleaseExternal();
      DropExternal(before, h1);
      GraphChain(h, before.(externals := before.externals[1..]), State());
    }

    lemma StateWellFormed()
      requires Valid()
      ensures State().WellFormed()
    {
    }

    /** The heap in which a new object of the class is about to be placed. */
    static ghost predicate BeforeNew(h: Heap, klass: Word, before: Heap) {
      before.WellFormed() && |before.externals| > 0 && SameHeapGraph(Holding(h, klass), before)
    }

    /** The object is in place and its class is let go. */
    static function After(before: Heap, a: Addr, o: Obj): Heap
      requires |before.externals| > 0
    {
      before.(mem := before.mem[a := o], externals := before.externals[1..])
    }

    static predicate FreeIn(h: Heap, a: Addr) {
      a !in h.mem && h.lo <= a < h.hi && a % WORD_BYTES == 0
    }

    static lemma OrdinarySize(klass: Word, fieldsCount: nat, nilObject: Word)
      ensures var o := OrdinaryObject(klass, fieldsCount, nilObject);
              o.ByteSize() == HEADER_BYTES + fieldsCount * WORD_BYTES && o.WellShaped()
    {
    }

    static lemma BinarySize(klass: Word, dataSize: nat)
      ensures var o := BinaryObject(klass, dataSize);
              o.ByteSize() == CorrectPadding(HEADER_BYTES + dataSize) && o.WellShaped()
      ensures CorrectPadding(HEADER_BYTES + dataSize) == CorrectPadding(CorrectPadding(HEADER_BYTES + dataSize))
    {
    }

    static lemma SlotPadded(fieldsCount: nat)
      ensures HEADER_BYTES + fieldsCount * WORD_BYTES == CorrectPadding(HEADER_BYTES + fieldsCount * WORD_BYTES)
    {
      assert HEADER_BYTES + fieldsCount * WORD_BYTES == (2 + fieldsCount) * WORD_BYTES;
    }

    static lemma SameExternals(h: Heap, h': Heap)
      requires SameHeapGraph(h, h')
      ensures |h.externals| == |h'.externals|
    {
      SameKeys(h, h');
      hide SameHeapGraph, Heap.Roots;
      RootCases(h, External(|h'.externals|));
      RootCases(h', External(|h'.externals|));
      RootCases(h, External(|h.externals|));
      RootCases(h', External(|h.externals|));
    }

    lemma NilOutside(slot: Addr, slotSize: nat, nilObject: Word)
      requires Valid() && GoodBlockAt(slot, slotSize) && slotSize > 0 && IsInStaticHeap(nilObject)
      ensures slot != nilObject && State().GoodWord(nilObject)
    {
      hide Heap.WellFormed, Heap.Barrier;
      ActiveBase();
    }

    lemma NewAddress(slot: Addr, slotSize: nat)
      requires GoodBlockAt(slot, slotSize) && slotSize > 0 && slot == activeHeapPointer
      ensures FreeIn(State(), slot) && slot + slotSize <= State().hi
    {
      if slot in mem { SizeAligned(mem[slot]); }
    }

    /** Initialises the object in the block allocated for it. */
    method AddObject(slot: Addr, o: Obj, nilObject: Word, ghost h: Heap)
      requires Valid() && h == State() && h.GoodWord(nilObject) && |externals| > 0 && o.WellShaped()
      requires slot == activeHeapPointer && GoodBlockAt(slot, o.ByteSize())
      requires |o.data| > 0 && o.data[0] == externals[0] && forall i | 1 <= i < |o.data| :: o.data[i] == nilObject
      modifies `mem
      ensures FreeIn(h, slot) && mem == h.mem[slot := o] && Valid() && SameHeapGraph(h, State())
    {
      hide SameHeapGraph, Heap.WellFormed, Heap.Barrier, GoodHalves, Heap.GoodWord;
      SizeAligned(o);
      NewAddress(slot, o.ByteSize());
      hide Obj.ByteSize, Obj.WellShaped;
      ExternalsGood(h);
      AddWellFormed(h, slot, o);
      AddSameGraph(h, slot, o);
      mem := mem[slot := o];
    }

    // ---- Runs of the program.

    method PerformCollect(nilObject: Word, ghost ideal: Heap)
      requires Valid() && Mirrors(ideal, State())
      modifies `activeHeapOne, `activeHeapBase, `activeHeapPointer, `inactiveHeapBase, `inactiveHeapPointer,
               `mem, `statics, `externals
      ensures Valid() && Mirrors(Meant(ideal, Collect, true, nilObject), State())
      ensures State().Unregistered() == old(State()).Unregistered()
    {
      hide SameHeapGraph, Heap.LiveBytes, Heap.LiveSet, Valid, CollectedTo, Mirrors, Heap.WellFormed, Heap.Unregistered;
      ghost var h := State();
      StateWellFormed();
      ghost var g, fwd := CollectGarbage(h);
      MeantCollect(ideal, h, State());
      StateWellFormed();
      SameUnregistered(h, State());
    }

    /** The new object, or nil, is kept in an external pointer. */
    method PerformCreate(klass: Root, fieldsCount: nat, nilObject: Word, ghost ideal: Heap) returns (made: bool)
      requires Valid() && IsInStaticHeap(nilObject) && Mirrors(ideal, State())
      modifies this
      ensures Valid() && IsInStaticHeap(nilObject)
      ensures Mirrors(Meant(ideal, Create(klass, fieldsCount), made, nilObject), State())
      ensures State().Unregistered() == old(State()).Unregistered()
    {
      hide SameHeapGraph, Heap.LiveBytes, Valid, Mirrors, Heap.WellFormed, Heap.GoodWord, CanAllocate, CollectsFor,
           Names, Named, Heap.Unregistered;
      ghost var h := State();
      StateWellFormed();
      NamesAlike(ideal, h, klass);
      if !Names(statics, externals, klass) {
        return true;
      }
      WordGood(klass);
      var instance, collected;
      ghost var before;
      instance, collected, before := NewOrdinaryObject(Named(statics, externals, klass), fieldsCount, nilObject, h);
      StateWellFormed();
      SameUnregistered(h, State());
      made := instance != nilObject;
      InstanceGood(instance, nilObject);
      ExternalRegistersNone(State(), [instance] + externals);
      RegisterExternal(instance);
      if made {
        MeantMade(ideal, h, klass, OrdinaryObject(Named(ideal.statics, ideal.externals, klass), fieldsCount, nilObject),
                  before, instance, OrdinaryObject(before.externals[0], fieldsCount, nilObject), State(), nilObject);
      } else {
        MeantUnmade(ideal, h, klass, before, State(), nilObject);
      }
    }

    method PerformCreateBytes(klass: Root, dataSize: nat, nilObject: Word, ghost ideal: Heap) returns (made: bool)
      requires Valid() && IsInStaticHeap(nilObject) && Mirrors(ideal, State())
      modifies this
      ensures Valid() && IsInStaticHeap(nilObject)
      ensures Mirrors(Meant(ideal, CreateBytes(klass, dataSize), made, nilObject), State())
      ensures State().Unregistered() == old(State()).Unregistered()
    {
      hide SameHeapGraph, Heap.LiveBytes, Valid, Mirrors, Heap.WellFormed, Heap.GoodWord, CanAllocate, CollectsFor,
           Names, Named, Heap.Unregistered;
      ghost var h := State();
      StateWellFormed();
      NamesAlike(ideal, h, klass);
      if !Names(statics, externals, klass) {
        return true;
      }
      WordGood(klass);
      var instance, collected;
      ghost var before;
      instance, collected, before := NewBinaryObject(Named(statics, externals, klass), dataSize, nilObject, h);
      StateWellFormed();
      SameUnregistered(h, State());
      made := instance != nilObject;
      InstanceGood(instance, nilObject);
      ExternalRegistersNone(State(), [instance] + externals);
      RegisterExternal(instance);
      if made {
        MeantMade(ideal, h, klass, BinaryObject(Named(ideal.statics, ideal.externals, klass), dataSize),
                  before, instance, BinaryObject(before.externals[0], dataSize), State(), nilObject);
      } else {
        MeantUnmade(ideal, h, klass, before, State(), nilObject);
      }
    }

    /** What the externals hold does not matter to the bookkeeping. */
    static lemma ExternalRegistersNone(h: Heap, externals: seq<Word>)
      ensures h.(externals := externals).Unregistered() == h.Unregistered()
    {
    }

    static lemma NamesAlike(ideal: Heap, h: Heap, r: Root)
      requires Mirrors(ideal, h)
      ensures Names(ideal.statics, ideal.externals, r) <==> Names(h.statics, h.externals, r)
    {
      hide SameHeapGraph, Endless;
      NamesAgree(ideal, h, r);
    }

    lemma InstanceGood(instance: Word, nilObject: Word)
      requires IsInStaticHeap(nilObject) && (instance == nilObject || instance in mem)
      ensures State().GoodWord(instance)
    {
    }

    /** An assignment to a static slot; `lost` when it is the one that the barrier overlooks. */
    method PerformAssign(slot: Addr, source: Root, nilObject: Word, ghost ideal: Heap) returns (lost: bool)
      requires Valid() && Mirrors(ideal, State())
      modifies `staticRoots, `statics
      ensures Layout() && State().WellFormed() && (Valid() <==> !lost)
      ensures Mirrors(Meant(ideal, Assign(slot, source), true, nilObject), State())
      ensures lost <==> Overlooked(old(State()), old(State()).Unregistered(), Assign(slot, source))
      ensures State().Unregistered() == Unseen(old(State()), old(State()).Unregistered(), Assign(slot, source))
      ensures lost ==> slot in statics && statics[slot] in mem
      ensures statics ==
        if slot in old(statics) && Names(old(statics), externals, source)
        then old(statics)[slot := Named(old(statics), externals, source)] else old(statics)
    {
      hide SameHeapGraph, Mirrors, Heap.WellFormed, Heap.Barrier, Heap.GoodWord, Layout, Names, Named, Registered,
           Heap.Unregistered;
      ghost var h := State();
      lost := Overlooked(State(), State().Unregistered(), Assign(slot, source));
      UnregisteredThere();
      if slot in statics && Names(statics, externals, source) {
        WordGood(source);
        StoredUnregistered(h, slot, Named(statics, externals, source));
        StoreStatic(slot, Named(statics, externals, source));
      }
      MeantAssign(ideal, h, slot, source, true, nilObject, staticRoots);
    }

    lemma UnregisteredThere()
      requires Valid()
      ensures State().Unregistered() <= statics.Keys && State().Barrier()
    {
    }

    method PerformPut(target: Root, index: nat, source: Root, nilObject: Word, ghost ideal: Heap)
      requires Valid() && Mirrors(ideal, State())
      modifies `staticRoots, `mem
      ensures Valid() && Mirrors(Meant(ideal, Put(target, index, source), true, nilObject), State())
      ensures
        if HasField(old(State()), target, index) && Names(statics, externals, source) then
          var a := Named(statics, externals, target);
          mem == old(mem)[a := old(mem)[a].(data := old(mem)[a].data[index := Named(statics, externals, source)])]
        else mem == old(mem)
      ensures State().Unregistered() == old(State()).Unregistered()
    {
      hide SameHeapGraph, Mirrors, Heap.WellFormed, Heap.Barrier, Heap.GoodWord, Layout, Names, Named;
      ghost var h := State();
      MeantPut(ideal, h, target, index, source, true, nilObject);
      if HasField(State(), target, index) && Names(statics, externals, source) {
        WordGood(source);
        StoreField(Named(statics, externals, target), index, Named(statics, externals, source));
      }
    }

    method PerformPutByte(target: Root, index: nat, value: Byte, nilObject: Word, ghost ideal: Heap)
      requires Valid() && Mirrors(ideal, State())
      modifies `mem
      ensures Valid() && Mirrors(Meant(ideal, PutByte(target, index, value), true, nilObject), State())
      ensures
        if HasByte(old(State()), target, index) then
          var a := Named(statics, externals, target);
          mem == old(mem)[a := old(mem)[a].(bytes := old(mem)[a].bytes[index := value])]
        else mem == old(mem)
      ensures State().Unregistered() == old(State()).Unregistered()
    {
      hide SameHeapGraph, Mirrors, Heap.WellFormed, Heap.Barrier, Layout, Names, Named;
      MeantPutByte(ideal, State(), target, index, value, true, nilObject);
      if HasByte(State(), target, index) {
        StoreByte(Named(statics, externals, target), index, value);
      }
    }

    method PerformFetch(source: Root, index: nat, nilObject: Word, ghost ideal: Heap)
      requires Valid() && Mirrors(ideal, State())
      modifies `externals
      ensures Valid() && Mirrors(Meant(ideal, Fetch(source, index), true, nilObject), State())
      ensures
        if HasField(old(State()), source, index) then
          externals == [mem[Named(statics, old(externals), source)].data[index]] + old(externals)
        else externals == old(externals)
      ensures State().Unregistered() == old(State()).Unregistered()
    {
      hide SameHeapGraph, Mirrors, Heap.WellFormed, Heap.Barrier, Heap.GoodWord, Layout, Names, Named;
      MeantFetch(ideal, State(), source, index, true, nilObject);
      if HasField(State(), source, index) {
        FieldGood(Named(statics, externals, source), index);
        RegisterExternal(mem[Named(statics, externals, source)].data[index]);
      }
    }

    method PerformHold(source: Root, nilObject: Word, ghost ideal: Heap)
      requires Valid() && Mirrors(ideal, State())
      modifies `externals
      ensures Valid() && Mirrors(Meant(ideal, Hold(source), true, nilObject), State())
      ensures
        if Names(statics, old(externals), source) then
          externals == [Named(statics, old(externals), source)] + old(externals)
        else externals == old(externals)
      ensures State().Unregistered() == old(State()).Unregistered()
    {
      hide SameHeapGraph, Mirrors, Heap.WellFormed, Heap.Barrier, Heap.GoodWord, Layout, Names, Named;
      MeantHold(ideal, State(), source, true, nilObject);
      if Names(statics, externals, source) {
        WordGood(source);
        RegisterExternal(Named(statics, externals, source));
      }
    }

    method PerformRelease(nilObject: Word, ghost ideal: Heap)
      requires Valid() && Mirrors(ideal, State())
      modifies `externals
      ensures Valid() && Mirrors(Meant(ideal, Release, true, nilObject), State())
      ensures externals == if old(externals) == [] then [] else old(externals)[1..]
      ensures State().Unregistered() == old(State()).Unregistered()
    {
      hide SameHeapGraph, Mirrors, Heap.WellFormed, Heap.Barrier, Heap.GoodWord, Layout;
      MeantRelease(ideal, State(), true, nilObject);
      if |externals| > 0 {
        ReleaseExternal();
      }
    }

    lemma WordGood(r: Root)
      requires Valid() && Names(statics, externals, r)
      ensures State().GoodWord(Named(statics, externals, r))
    {
      hide Heap.Barrier, Heap.GoodWord, Layout, Heap.ObjectAt, Apart;
    }

    lemma FieldGood(a: Addr, index: nat)
      requires Valid() && a in mem && index < |mem[a].data|
      ensures State().GoodWord(mem[a].data[index])
    {
      hide Heap.Barrier, Heap.GoodWord, Layout, Apart;
      assert State().ObjectAt(a);
    }

    /** One operation: the program cannot tell what the manager does from what it means.
        `made` tells whether a creation succeeded, `lost` whether the barrier overlooked a
        store, which the meaning of the operation tells as well. */
    method Perform(op: Op, nilObject: Word, ghost ideal: Heap) returns (made: bool, lost: bool)
      requires Valid() && IsInStaticHeap(nilObject) && Mirrors(ideal, State())
      modifies this
      ensures IsInStaticHeap(nilObject) && Mirrors(Meant(ideal, op, made, nilObject), State())
      ensures Layout() && State().WellFormed() && (Valid() <==> !lost)
      ensures lost <==> Overlooked(ideal, old(State()).Unregistered(), op)
      ensures State().Unregistered() == Unseen(ideal, old(State()).Unregistered(), op)
      ensures lost ==> op.Assign? && op.slot in statics && statics[op.slot] in mem
    {
      hide SameHeapGraph, Mirrors, Meant, Heap.WellFormed, Heap.Barrier, Layout, State, Heap.Unregistered;
      made, lost := true, false;
      StateWellFormed();
      OverlookedAlike(ideal, State(), State().Unregistered(), op);
      match op
      case Collect => PerformCollect(nilObject, ideal);
      case Create(klass, fieldsCount) => made := PerformCreate(klass, fieldsCount, nilObject, ideal);
      case CreateBytes(klass, dataSize) => made := PerformCreateBytes(klass, dataSize, nilObject, ideal);
      case Assign(slot, source) => lost := PerformAssign(slot, source, nilObject, ideal);
      case Put(target, index, source) => PerformPut(target, index, source, nilObject, ideal);
      case PutByte(target, index, value) => PerformPutByte(target, index, value, nilObject, ideal);
      case Fetch(source, index) => PerformFetch(source, index, nilObject, ideal);
      case Hold(source) => PerformHold(source, nilObject, ideal);
      case Release => PerformRelease(nilObject, ideal);
    }

    /** A dynamic object has gone into a slot that is not registered. */
    predicate StoredUnseen(unregistered: set<Addr>, op: Op)
      reads this
    {
      op.Assign? && op.slot in unregistered && op.slot in statics && statics[op.slot] in mem
    }

    /** Every static slot is registered once if it holds no static address, and not at all otherwise. */
    ghost predicate ExactlyRegistered()
      reads this
    {
      Distinct(staticRoots) && forall s | s in statics :: s in staticRoots <==> !IsInStaticHeap(statics[s])
    }

    /** Over any run of collections, creations, stores, reads, holds and releases the program
        sees what it would see in a heap without end that is never collected, up to and
        including the first store that the barrier overlooks; only there the run stops.  Such
        a store puts a dynamic object into a slot that was not registered at the start and has
        held no static address since.  If there is no such slot at the start, the run is
        completed and leaves each slot registered once exactly if its value is not static. */
    method Run(ops: seq<Op>, nilObject: Word, ghost ideal: Heap) returns (performed: nat, made: seq<bool>)
      requires Valid() && IsInStaticHeap(nilObject) && Mirrors(ideal, State())
      modifies this
      ensures performed <= |ops| && |made| == performed
      ensures Mirrors(Replay(ideal, ops[..performed], made, nilObject), State())
      ensures performed < |ops| ==> !Valid()
      ensures Layout() && State().WellFormed()
      ensures forall k | 0 <= k < performed ::
        OverlookedAt(ideal, old(State().Unregistered()), ops, made, nilObject, k) <==> !Valid() && k == performed - 1
      ensures !Valid() ==> performed > 0 && StoredUnseen(old(State().Unregistered()), ops[performed - 1])
      ensures State().Unregistered() ==
              UnseenAfter(ideal, old(State().Unregistered()), ops[..performed], made, nilObject)
      ensures State().Unregistered() <= old(State().Unregistered())
      ensures old(State().Unregistered()) == {} ==> performed == |ops| && Valid() && ExactlyRegistered()
    {
      hide SameHeapGraph, State, Valid, IsInStaticHeap, Mirrors, Meant, Heap.WellFormed, Layout, Heap.Unregistered,
           ExactlyRegistered, Overlooked, Unseen;
      performed, made := 0, [];
      ghost var unseen := State().Unregistered();
      ValidParts();
      while performed < |ops|
        invariant performed <= |ops| && |made| == performed
        invariant Valid() && IsInStaticHeap(nilObject) && Layout() && State().WellFormed()
        invariant Mirrors(Replay(ideal, ops[..performed], made, nilObject), State())
        invariant State().Unregistered() == UnseenAfter(ideal, unseen, ops[..performed], made, nilObject)
        invariant forall k | 0 <= k < performed :: !OverlookedAt(ideal, unseen, ops, made, nilObject, k)
      {
        ghost var before := Replay(ideal, ops[..performed], made, nilObject);
        var done, lost := Perform(ops[performed], nilObject, before);
        assert ops[..performed + 1][..performed] == ops[..performed] && (made + [done])[..performed] == made;
        UnseenShrinks(ideal, unseen, ops[..performed], made, nilObject);
        OverlookedLater(ideal, unseen, ops, made, done, nilObject);
        if lost {
          OverlookedIn(before, UnseenAfter(ideal, unseen, ops[..performed], made, nilObject), ops[performed]);
        }
        performed, made := performed + 1, made + [done];
        if lost {
          UnseenShrinks(ideal, unseen, ops[..performed], made, nilObject);
          return;
        }
      }
      UnseenShrinks(ideal, unseen, ops[..performed], made, nilObject);
      if unseen == {} { NoneUnregistered(); }
    }

    static lemma OverlookedIn(h: Heap, unseen: set<Addr>, op: Op)
      requires Overlooked(h, unseen, op)
      ensures op.Assign? && op.slot in unseen
    {
    }

    /** Whether an operation is overlooked depends on those before it. */
    static lemma OverlookedLater(h: Heap, unseen: set<Addr>, ops: seq<Op>, made: seq<bool>, done: bool, nilObject: Word)
      requires |made| < |ops|
      ensures forall k | 0 <= k <= |made| ::
        OverlookedAt(h, unseen, ops, made + [done], nilObject, k) <==> OverlookedAt(h, unseen, ops, made, nilObject, k)
    {
      hide Replay, UnseenAfter, Overlooked;
      forall k | 0 <= k <= |made|
        ensures (made + [done])[..k] == made[..k]
      {
      }
    }

    lemma NoneUnregistered()
      requires Valid() && State().Unregistered() == {}
      ensures ExactlyRegistered()
    {
      RegisteredIff(State());
      hide Heap.WellFormed, Heap.Unregistered;
    }

    lemma ValidParts()
      requires Valid()
      ensures Layout() && State().WellFormed()
    {
    }
  }

  lemma OneObjectCovers(h: Heap, a: Addr)
    requires h.WellFormed() && a in h.LiveSet()
    ensures h.LiveBytes() >= h.mem[a].ByteSize() && h.lo <= a && a + h.mem[a].ByteSize() <= h.hi
  {
    MemInside(h, a);
    hide Heap.WellFormed, Heap.Live, Obj.ByteSize;
    var one, all := Covered(h.mem, {} + {a}, h.lo, h.hi), Covered(h.mem, h.LiveSet(), h.lo, h.hi);
    CoveredGrows(h.mem, {}, a, h.lo, h.hi);
    forall x | x in one
      ensures x in all
    {
      var b :| b in {} + {a} && Occupies(h.mem, b, x);
      assert b in h.LiveSet() && Occupies(h.mem, b, x);
    }
    Contained(one, all);
  }

  /** A heap whose halves of 32000 bytes hold one object of 31000. */
  method NearlyFull() returns (m: BakerMemoryManager)
    ensures m.Valid() && m.heapSize == 64000 && m.maxHeapSize == 1000000
    ensures m.Free() < 2000 && m.State().LiveBytes() >= 31008
    ensures fresh(m)
  {
    hide SameHeapGraph, Heap.LiveSet, Heap.LiveBytes, BakerMemoryManager.Valid, Heap.WellFormed, Heap.Barrier,
         BakerMemoryManager.Refused;
    m := new BakerMemoryManager(1000, 1000, 1000, map[]);
    m.InitializeHeap(64000, 1000000, 4000, 44000);
    var instance, collected;
    ghost var before;
    instance, collected, before := m.NewBinaryObject(1000, 31000, 1000, m.State());
    m.InstanceGood(instance, 1000);
    m.RegisterExternal(instance);
    m.StateWellFormed();
    HeldIsLive(m.State());
    OneObjectCovers(m.State(), instance);
  }

  /** A request for 2000 bytes that is refused there, and the same request again. */
  method RefusedThenGranted() returns (first: Addr, second: Addr)
    ensures first == 0 && second != 0
  {
    hide SameHeapGraph, Heap.LiveSet, Heap.LiveBytes, BakerMemoryManager.Valid, Heap.WellFormed, Heap.Barrier;
    var m := NearlyFull();
    first, second := m.AllocateAgain(2000, m.State());
  }

  lemma HeldIsLive(h: Heap)
    requires |h.externals| > 0 && h.externals[0] in h.mem
    ensures h.externals[0] in h.LiveSet()
  {
    var r := External(0);
    RootCases(h, r);
    assert Follow(h.mem, h.Roots()[r], []) == Some(h.externals[0]);
    assert h.Live(h.externals[0]);
  }
}
