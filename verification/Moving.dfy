/** The invariant of a copying collection with pointer reversal, and the four steps
    by which it advances.  `from` is the old half as it was when the collection began;
    `fwd` says where each object that has been entered was copied to; `stack` is the
    path of objects whose copies are under construction, innermost last. */
module Moving {
  import opened Memory

  datatype Spaces = Spaces(from: Mem, fromLo: Addr, fromHi: Addr, toLo: Addr, toHi: Addr) {
    predicate InOldSpace(v: Word) {
      fromLo <= v < fromHi
    }

    predicate InNewSpace(v: Word) {
      toLo <= v < toHi
    }

    /** A word the collector may meet: a SmallInteger, an object of the old half, or an
        address outside both halves. */
    predicate ValidWord(v: Word) {
      IsSmallInteger(v) || v in from || (!InOldSpace(v) && !InNewSpace(v))
    }

    ghost predicate ObjectAt(a: Addr)
      requires a in from
    {
      && a % WORD_BYTES == 0 && fromLo <= a && a + from[a].ByteSize() <= fromHi
      && from[a].WellShaped()
      && forall i | 0 <= i < |from[a].data| :: ValidWord(from[a].data[i])
    }

    ghost predicate Valid() {
      && (forall a | a in from :: ObjectAt(a))
      && (forall a, b | a in from && b in from && a != b ::
            Apart(a, from[a].ByteSize(), b, from[b].ByteSize()))
      && 0 < fromLo && 0 < toLo && toHi % WORD_BYTES == 0
      && (fromHi <= toLo || toHi <= fromLo)
      && fromLo <= fromHi && fromHi - fromLo <= toHi - toLo
    }
  }

  type Forwarding = map<Addr, Addr>

  /** Where a word of the old graph is found in the new one. */
  function Forward(fwd: Forwarding, v: Word): Word {
    if v in fwd then fwd[v] else v
  }

  /** The word needs no more work: it is not an object of the old half, or its copy exists. */
  predicate Settled(g: Spaces, fwd: Forwarding, v: Word) {
    g.ValidWord(v) && (v in g.from ==> v in fwd)
  }

  /** The slot of an entered object that holds its forwarding pointer. */
  function Cursor(o: Obj): nat {
    if o.binary then 0 else o.size
  }

  /** The parent under construction, or null at the root. */
  function Top(stack: seq<Addr>): Word {
    if stack == [] then 0 else stack[|stack| - 1]
  }

  /** Untouched objects are as they were; entered ones hold their copy's address in the
      slot under the cursor, and their slots below it are as they were. */
  ghost predicate OldHalf(g: Spaces, mem: Mem, fwd: Forwarding) {
    && fwd.Keys <= g.from.Keys <= mem.Keys
    && (forall a | a in g.from && a !in fwd :: mem[a] == g.from[a])
    && (forall a | a in fwd :: Entered(g, mem, fwd, a))
  }

  ghost predicate Entered(g: Spaces, mem: Mem, fwd: Forwarding, a: Addr)
    requires a in fwd && a in g.from && a in mem
  {
    var o := mem[a];
    && o.relocated && o.binary == g.from[a].binary && |o.data| == |g.from[a].data|
    && Cursor(o) < |o.data|
    && o.data[Cursor(o)] == fwd[a]
    && forall i | 0 <= i < Cursor(o) :: o.data[i] == g.from[a].data[i]
  }

  /** Every copy has the shape of its original, and its slots above the cursor are final. */
  ghost predicate NewHalf(g: Spaces, mem: Mem, fwd: Forwarding) {
    forall a | a in fwd :: fwd[a] in mem && a in mem && a in g.from && Copied(g, mem, fwd, a)
  }

  ghost predicate Copied(g: Spaces, mem: Mem, fwd: Forwarding, a: Addr)
    requires a in fwd && a in g.from && a in mem && fwd[a] in mem
  {
    var o, c := g.from[a], mem[fwd[a]];
    && c.size == o.size && c.binary == o.binary && !c.relocated
    && |c.data| == |o.data| && c.bytes == o.bytes
    && forall i | Cursor(mem[a]) < i < |o.data| ::
         Settled(g, fwd, o.data[i]) && c.data[i] == Forward(fwd, o.data[i])
  }

  /** An object that is no longer under construction has its class slot final as well. */
  ghost predicate Finished(g: Spaces, mem: Mem, fwd: Forwarding, stack: seq<Addr>) {
    forall a | a in fwd && a !in stack ::
      a in mem && a in g.from && fwd[a] in mem && ClassFinal(g, mem, fwd, a)
  }

  ghost predicate ClassFinal(g: Spaces, mem: Mem, fwd: Forwarding, a: Addr)
    requires a in fwd && a in g.from && a in mem && fwd[a] in mem
  {
    && Cursor(mem[a]) == 0
    && |g.from[a].data| > 0 && |mem[fwd[a]].data| > 0
    && Settled(g, fwd, g.from[a].data[0])
    && mem[fwd[a]].data[0] == Forward(fwd, g.from[a].data[0])
  }

  /** The back pointers through the half-built copies spell the path to the root, and
      each object on the path is the original content of the open slot of its parent. */
  ghost predicate Threaded(g: Spaces, mem: Mem, fwd: Forwarding, stack: seq<Addr>) {
    && (forall j | 0 <= j < |stack| :: stack[j] in fwd)
    && (forall i, j | 0 <= i < j < |stack| :: stack[i] != stack[j])
    && (forall j | 0 <= j < |stack| :: Linked(g, mem, fwd, stack, j))
  }

  ghost predicate Linked(g: Spaces, mem: Mem, fwd: Forwarding, stack: seq<Addr>, j: nat)
    requires j < |stack|
  {
    && BackPointer(g, mem, fwd, stack[j], if j == 0 then 0 else stack[j - 1])
    && (j + 1 < |stack| ==> OpenSlot(g, mem, stack[j], stack[j + 1]))
  }

  ghost predicate BackPointer(g: Spaces, mem: Mem, fwd: Forwarding, a: Addr, parent: Word) {
    && a in fwd && a in mem && fwd[a] in mem && Cursor(mem[a]) < |mem[fwd[a]].data|
    && mem[fwd[a]].data[Cursor(mem[a])] == parent
  }

  ghost predicate OpenSlot(g: Spaces, mem: Mem, a: Addr, v: Word) {
    a in mem && a in g.from && Cursor(mem[a]) < |g.from[a].data| && g.from[a].data[Cursor(mem[a])] == v
  }

  /** Copies lie apart from each other between the allocation pointer and the end of the
      copied half. */
  ghost predicate Placed(g: Spaces, fwd: Forwarding, ptr: Addr) {
    && fwd.Keys <= g.from.Keys
    && g.toLo <= ptr && ptr % WORD_BYTES == 0
    && (forall a | a in fwd ::
          ptr <= fwd[a] && fwd[a] + g.from[a].ByteSize() <= g.toHi && fwd[a] % WORD_BYTES == 0)
    && (forall a, b | a in fwd && b in fwd && a != b ::
          Apart(fwd[a], g.from[a].ByteSize(), fwd[b], g.from[b].ByteSize()))
  }

  /** The bytes taken in the new half are exactly the bytes of the objects entered so far,
      and memory holds the old objects and their copies only. */
  ghost predicate Counted(g: Spaces, mem: Mem, fwd: Forwarding, ptr: Addr) {
    && ptr + |Covered(g.from, fwd.Keys, g.fromLo, g.fromHi)| == g.toHi
    && mem.Keys == g.from.Keys + fwd.Values
  }

  /** The copies leave no gap above the allocation pointer. */
  ghost predicate Tiled(g: Spaces, fwd: Forwarding, ptr: Addr) {
    forall x | ptr <= x < g.toHi :: InCopy(g, fwd, x)
  }

  ghost predicate InCopy(g: Spaces, fwd: Forwarding, x: Addr) {
    exists a :: a in fwd && a in g.from && fwd[a] <= x < fwd[a] + g.from[a].ByteSize()
  }

  ghost predicate Inv(g: Spaces, mem: Mem, fwd: Forwarding, stack: seq<Addr>, ptr: Addr) {
    && g.Valid()
    && OldHalf(g, mem, fwd)
    && NewHalf(g, mem, fwd)
    && Finished(g, mem, fwd, stack)
    && Threaded(g, mem, fwd, stack)
    && Placed(g, fwd, ptr)
    && Counted(g, mem, fwd, ptr)
    && Tiled(g, fwd, ptr)
  }

  /** `v` is what the open slot of the innermost object held, or the root itself. */
  ghost predicate Pending(g: Spaces, mem: Mem, stack: seq<Addr>, root: Word, v: Word) {
    && g.ValidWord(v)
    && if stack == [] then v == root else stack[0] == root && OpenSlot(g, mem, Top(stack), v)
  }

  ghost predicate Extends(fwd: Forwarding, fwd': Forwarding) {
    fwd.Keys <= fwd'.Keys && forall a | a in fwd :: fwd'[a] == fwd[a]
  }

  // ---- Entering an object: its copy is allocated and becomes the innermost one.

  function EnteredObject(o: Obj, copy: Addr): Obj
    requires o.WellShaped()
  {
    o.(relocated := true, data := o.data[Cursor(o) := copy])
  }

  predicate FreshCopy(c: Obj, o: Obj, parent: Word)
    requires o.WellShaped()
  {
    && c.size == o.size && c.binary == o.binary && !c.relocated
    && |c.data| == |o.data| && c.bytes == o.bytes
    && c.data[Cursor(o)] == parent
  }

  ghost predicate Enters(g: Spaces, mem: Mem, fwd: Forwarding, v: Addr, copy: Obj, to: Addr, mem': Mem,
                         fwd': Forwarding) {
    && v in g.from && g.from[v].WellShaped() && v !in fwd && v != to
    && to !in mem && to !in g.from && to !in fwd.Values
    && fwd' == fwd[v := to]
    && mem' == mem[to := copy][v := EnteredObject(g.from[v], to)]
    && (forall a | a in fwd :: fwd[a] !in g.from)
  }

  lemma Enter(g: Spaces, mem: Mem, fwd: Forwarding, stack: seq<Addr>, ptr: Addr, root: Word, v: Addr, copy: Obj,
              mem': Mem)
    returns (to: Addr, fwd': Forwarding)
    requires Inv(g, mem, fwd, stack, ptr) && Pending(g, mem, stack, root, v)
    requires v in g.from && v !in fwd && g.from[v].WellShaped() && FreshCopy(copy, g.from[v], Top(stack))
    requires ptr - g.from[v].ByteSize() >= 0
    requires mem' == mem[ptr - g.from[v].ByteSize() := copy][v := EnteredObject(g.from[v], ptr - g.from[v].ByteSize())]
    ensures to == ptr - g.from[v].ByteSize() && fwd' == fwd[v := to]
    ensures Inv(g, mem', fwd', stack + [v], to)
    ensures Pending(g, mem', stack + [v], root, g.from[v].data[Cursor(g.from[v])])
  {
    hide OldHalf, NewHalf, Finished, Threaded, Placed, Counted, Tiled, Spaces.Valid, Pending, Obj.ByteSize,
         Obj.WellShaped, EnteredObject;
    to := ptr - g.from[v].ByteSize();
    fwd' := fwd[v := to];
    EnterSpace(g, mem, fwd, ptr, v);
    EnterFresh(g, mem, fwd, ptr, v, copy, to, mem', fwd');
    EnterOld(g, mem, fwd, v, copy, to, mem', fwd');
    EnterNew(g, mem, fwd, v, copy, to, mem', fwd', Top(stack));
    EnterFinished(g, mem, fwd, v, copy, to, mem', fwd', stack);
    EnterThreaded(g, mem, fwd, v, copy, to, mem', fwd', stack, root);
    EnterPlaced(g, mem, fwd, ptr, v, copy, to, mem', fwd');
    EnterCounted(g, mem, fwd, ptr, v, copy, to, mem', fwd');
    EnterTiled(g, mem, fwd, ptr, v, copy, to, mem', fwd');
    EnterPending(g, mem, fwd, stack, root, v, to, mem');
  }

  lemma EnterTiled(g: Spaces, mem: Mem, fwd: Forwarding, ptr: Addr, v: Addr, copy: Obj, to: Addr, mem': Mem,
                   fwd': Forwarding)
    requires Tiled(g, fwd, ptr) && Enters(g, mem, fwd, v, copy, to, mem', fwd')
    requires to == ptr - g.from[v].ByteSize()
    ensures Tiled(g, fwd', to)
  {
    hide Obj.ByteSize, Obj.WellShaped, EnteredObject;
    forall x | to <= x < g.toHi
      ensures InCopy(g, fwd', x)
    {
      if x < ptr {
        assert fwd'[v] <= x < fwd'[v] + g.from[v].ByteSize();
      } else {
        assert InCopy(g, fwd, x);
        var a :| a in fwd && a in g.from && fwd[a] <= x < fwd[a] + g.from[a].ByteSize();
        assert fwd'[a] == fwd[a];
      }
    }
  }

  lemma EnterPending(g: Spaces, mem: Mem, fwd: Forwarding, stack: seq<Addr>, root: Word, v: Addr, to: Addr, mem': Mem)
    requires g.Valid() && Pending(g, mem, stack, root, v) && v in g.from && g.from[v].WellShaped()
    requires v in mem' && mem'[v] == EnteredObject(g.from[v], to)
    ensures Pending(g, mem', stack + [v], root, g.from[v].data[Cursor(g.from[v])])
  {
    assert g.ObjectAt(v);
    assert (stack + [v])[0] == root;
  }

  lemma EnterOld(g: Spaces, mem: Mem, fwd: Forwarding, v: Addr, copy: Obj, to: Addr, mem': Mem, fwd': Forwarding)
    requires Enters(g, mem, fwd, v, copy, to, mem', fwd') && OldHalf(g, mem, fwd)
    ensures OldHalf(g, mem', fwd')
  {
    forall a | a in fwd'
      ensures Entered(g, mem', fwd', a)
    {
      if a != v { assert Entered(g, mem, fwd, a); }
    }
  }

  lemma EnterNew(g: Spaces, mem: Mem, fwd: Forwarding, v: Addr, copy: Obj, to: Addr, mem': Mem, fwd': Forwarding,
                 parent: Word)
    requires Enters(g, mem, fwd, v, copy, to, mem', fwd') && NewHalf(g, mem, fwd)
    requires FreshCopy(copy, g.from[v], parent)
    ensures NewHalf(g, mem', fwd')
  {
    forall a | a in fwd'
      ensures fwd'[a] in mem' && a in mem' && a in g.from && Copied(g, mem', fwd', a)
    {
      if a != v { assert Copied(g, mem, fwd, a); }
    }
  }

  lemma EnterFinished(g: Spaces, mem: Mem, fwd: Forwarding, v: Addr, copy: Obj, to: Addr, mem': Mem, fwd': Forwarding,
                      stack: seq<Addr>)
    requires Enters(g, mem, fwd, v, copy, to, mem', fwd') && Finished(g, mem, fwd, stack)
    ensures Finished(g, mem', fwd', stack + [v])
  {
    forall a | a in fwd' && a !in stack + [v]
      ensures a in mem' && a in g.from && fwd'[a] in mem' && ClassFinal(g, mem', fwd', a)
    {
      assert v in stack + [v];
      assert a !in stack;
      assert ClassFinal(g, mem, fwd, a);
    }
  }

  lemma EnterThreaded(g: Spaces, mem: Mem, fwd: Forwarding, v: Addr, copy: Obj, to: Addr, mem': Mem, fwd': Forwarding,
                      stack: seq<Addr>, root: Word)
    requires Enters(g, mem, fwd, v, copy, to, mem', fwd') && Threaded(g, mem, fwd, stack)
    requires Pending(g, mem, stack, root, v) && FreshCopy(copy, g.from[v], Top(stack))
    ensures Threaded(g, mem', fwd', stack + [v])
  {
    hide OldHalf, Entered;
    var stack' := stack + [v];
    forall j | 0 <= j < |stack'|
      ensures Linked(g, mem', fwd', stack', j)
    {
      if j < |stack| { assert Linked(g, mem, fwd, stack, j); }
    }
  }

  lemma SizeAligned(o: Obj)
    ensures o.ByteSize() % WORD_BYTES == 0 && o.ByteSize() >= HEADER_BYTES
  {
  }

  lemma EnterSpace(g: Spaces, mem: Mem, fwd: Forwarding, ptr: Addr, v: Addr)
    requires g.Valid() && Placed(g, fwd, ptr) && Counted(g, mem, fwd, ptr) && v in g.from && v !in fwd
    ensures g.toLo <= ptr - g.from[v].ByteSize() && ptr <= g.toHi
    ensures (ptr - g.from[v].ByteSize()) % WORD_BYTES == 0
    ensures |Covered(g.from, fwd.Keys + {v}, g.fromLo, g.fromHi)| ==
            |Covered(g.from, fwd.Keys, g.fromLo, g.fromHi)| + g.from[v].ByteSize()
  {
    hide Obj.ByteSize, Covered, Obj.WellShaped, Spaces.ValidWord, Apart;
    assert g.ObjectAt(v);
    CoveredGrows(g.from, fwd.Keys, v, g.fromLo, g.fromHi);
    AlignedDifference(ptr, g.from[v]);
  }

  lemma AlignedDifference(ptr: Addr, o: Obj)
    requires ptr % WORD_BYTES == 0
    ensures (ptr - o.ByteSize()) % WORD_BYTES == 0
  {
    SizeAligned(o);
  }

  /** The copy's address is new, and no copy lies in the old half. */
  lemma EnterFresh(g: Spaces, mem: Mem, fwd: Forwarding, ptr: Addr, v: Addr, copy: Obj, to: Addr, mem': Mem,
                   fwd': Forwarding)
    requires g.Valid() && Placed(g, fwd, ptr) && Counted(g, mem, fwd, ptr) && v in g.from && v !in fwd
    requires g.from[v].WellShaped()
    requires to == ptr - g.from[v].ByteSize() && g.toLo <= to
    requires fwd' == fwd[v := to] && mem' == mem[to := copy][v := EnteredObject(g.from[v], to)]
    ensures Enters(g, mem, fwd, v, copy, to, mem', fwd')
  {
    hide Obj.ByteSize, Covered, Obj.WellShaped, Spaces.ValidWord, EnteredObject;
    SizeAligned(g.from[v]);
    forall a | a in g.from
      ensures g.fromLo <= a < g.fromHi
    {
      assert g.ObjectAt(a);
      SizeAligned(g.from[a]);
    }
    forall a | a in fwd
      ensures to < fwd[a] < g.toHi
    {
      SizeAligned(g.from[a]);
    }
    assert to < g.toHi;
  }

  lemma EnterPlaced(g: Spaces, mem: Mem, fwd: Forwarding, ptr: Addr, v: Addr, copy: Obj, to: Addr, mem': Mem,
                    fwd': Forwarding)
    requires Placed(g, fwd, ptr) && Enters(g, mem, fwd, v, copy, to, mem', fwd')
    requires to == ptr - g.from[v].ByteSize() && g.toLo <= to && to % WORD_BYTES == 0 && ptr <= g.toHi
    ensures Placed(g, fwd', to)
  {
    hide Obj.ByteSize, Obj.WellShaped, EnteredObject;
  }

  lemma EnterCounted(g: Spaces, mem: Mem, fwd: Forwarding, ptr: Addr, v: Addr, copy: Obj, to: Addr, mem': Mem,
                     fwd': Forwarding)
    requires Counted(g, mem, fwd, ptr) && Enters(g, mem, fwd, v, copy, to, mem', fwd')
    requires to == ptr - g.from[v].ByteSize()
    requires |Covered(g.from, fwd.Keys + {v}, g.fromLo, g.fromHi)| ==
             |Covered(g.from, fwd.Keys, g.fromLo, g.fromHi)| + g.from[v].ByteSize()
    ensures Counted(g, mem', fwd', to)
  {
    hide Obj.ByteSize, Covered, Obj.WellShaped, EnteredObject;
    assert fwd'.Keys == fwd.Keys + {v};
    NewValue(fwd, v, to);
  }

  lemma NewValue<K, V>(m: map<K, V>, k: K, v: V)
    requires k !in m
    ensures m[k := v].Values == m.Values + {v}
  {
    var m' := m[k := v];
    assert m'[k] == v;
    forall x | x in m.Values
      ensures x in m'.Values
    {
      var y :| y in m && m[y] == x;
      assert m'[y] == x;
    }
  }

  // ---- Leaving a slot: the innermost object's open slot receives its final value, and
  // ---- either the object is finished or the next slot down that is not null is opened.

  ghost predicate Separated(g: Spaces, fwd: Forwarding) {
    && (forall a | a in fwd :: fwd[a] !in g.from)
    && (forall a, b | a in fwd && b in fwd && a != b :: fwd[a] != fwd[b])
  }

  lemma Separate(g: Spaces, fwd: Forwarding, ptr: Addr)
    requires g.Valid() && Placed(g, fwd, ptr)
    ensures Separated(g, fwd)
  {
    hide Obj.ByteSize, Obj.WellShaped, Spaces.ValidWord;
    forall a | a in g.from
      ensures g.fromLo <= a < g.fromHi && g.from[a].ByteSize() >= HEADER_BYTES
    {
      assert g.ObjectAt(a);
      SizeAligned(g.from[a]);
    }
  }

  /** Only the innermost object and its copy change. */
  ghost predicate Touches(g: Spaces, mem: Mem, fwd: Forwarding, stack: seq<Addr>, mem': Mem) {
    && Separated(g, fwd)
    && stack != [] && Top(stack) in fwd && Top(stack) in g.from && Top(stack) in mem && fwd[Top(stack)] in mem
    && mem'.Keys == mem.Keys
    && forall a | a in mem && a != Top(stack) && a != fwd[Top(stack)] :: mem'[a] == mem[a]
  }

  ghost predicate Closes(g: Spaces, mem: Mem, fwd: Forwarding, stack: seq<Addr>, repl: Word, mem': Mem) {
    && Touches(g, mem, fwd, stack, mem')
    && var top := Top(stack); var c := fwd[top];
    && Cursor(mem[top]) == 0 && |g.from[top].data| > 0 && |mem[c].data| > 0
    && Settled(g, fwd, g.from[top].data[0]) && repl == Forward(fwd, g.from[top].data[0])
    && mem'[top] == mem[top] && mem'[c] == mem[c].SetData(0, repl)
  }

  lemma CloseOld(g: Spaces, mem: Mem, fwd: Forwarding, stack: seq<Addr>, repl: Word, mem': Mem)
    requires Closes(g, mem, fwd, stack, repl, mem') && OldHalf(g, mem, fwd)
    ensures OldHalf(g, mem', fwd)
  {
    forall a | a in fwd
      ensures Entered(g, mem', fwd, a)
    {
      assert Entered(g, mem, fwd, a);
      assert mem'[a] == mem[a];
    }
  }

  lemma CloseNew(g: Spaces, mem: Mem, fwd: Forwarding, stack: seq<Addr>, repl: Word, mem': Mem)
    requires Closes(g, mem, fwd, stack, repl, mem') && NewHalf(g, mem, fwd)
    ensures NewHalf(g, mem', fwd)
  {
    forall a | a in fwd
      ensures fwd[a] in mem' && a in mem' && a in g.from && Copied(g, mem', fwd, a)
    {
      assert Copied(g, mem, fwd, a);
      assert mem'[a] == mem[a];
    }
  }

  lemma CloseFinished(g: Spaces, mem: Mem, fwd: Forwarding, stack: seq<Addr>, repl: Word, mem': Mem)
    requires Closes(g, mem, fwd, stack, repl, mem') && Finished(g, mem, fwd, stack)
    ensures Finished(g, mem', fwd, stack[..|stack| - 1])
  {
    forall a | a in fwd && a !in stack[..|stack| - 1]
      ensures a in mem' && a in g.from && fwd[a] in mem' && ClassFinal(g, mem', fwd, a)
    {
      if a != Top(stack) {
        assert a !in stack;
        assert ClassFinal(g, mem, fwd, a);
        assert mem'[a] == mem[a];
      }
    }
  }

  lemma KeepLink(g: Spaces, mem: Mem, fwd: Forwarding, stack: seq<Addr>, mem': Mem, a: Addr, parent: Word, child: Word)
    requires Touches(g, mem, fwd, stack, mem') && fwd.Keys <= g.from.Keys && a != Top(stack)
    requires BackPointer(g, mem, fwd, a, parent) && OpenSlot(g, mem, a, child)
    ensures BackPointer(g, mem', fwd, a, parent) && OpenSlot(g, mem', a, child)
  {
  }

  lemma CloseThreaded(g: Spaces, mem: Mem, fwd: Forwarding, stack: seq<Addr>, mem': Mem)
    requires Touches(g, mem, fwd, stack, mem') && Threaded(g, mem, fwd, stack) && fwd.Keys <= g.from.Keys
    ensures Threaded(g, mem', fwd, stack[..|stack| - 1])
    ensures |stack| > 1 ==> OpenSlot(g, mem', Top(stack[..|stack| - 1]), Top(stack))
  {
    assert stack != [];
    hide Touches, BackPointer, OpenSlot;
    var stack' := stack[..|stack| - 1];
    forall j | 0 <= j < |stack'|
      ensures Linked(g, mem', fwd, stack', j) && OpenSlot(g, mem', stack[j], stack[j + 1])
    {
      assert Linked(g, mem, fwd, stack, j);
      KeepLink(g, mem, fwd, stack, mem', stack[j], if j == 0 then 0 else stack[j - 1], stack[j + 1]);
    }
  }

  lemma KeysOld(g: Spaces, fwd: Forwarding, ptr: Addr)
    requires Placed(g, fwd, ptr)
    ensures fwd.Keys <= g.from.Keys
  {
  }

  lemma Close(g: Spaces, mem: Mem, fwd: Forwarding, stack: seq<Addr>, ptr: Addr, root: Word, v: Word, mem': Mem)
    requires Inv(g, mem, fwd, stack, ptr) && Pending(g, mem, stack, root, v) && stack != []
    requires Settled(g, fwd, v)
    requires Top(stack) in mem && Cursor(mem[Top(stack)]) == 0
    requires Top(stack) in fwd && fwd[Top(stack)] in mem && |mem[fwd[Top(stack)]].data| > 0
    requires mem' == mem[fwd[Top(stack)] := mem[fwd[Top(stack)]].SetData(0, Forward(fwd, v))]
    ensures Inv(g, mem', fwd, stack[..|stack| - 1], ptr)
    ensures Pending(g, mem', stack[..|stack| - 1], root, Top(stack)) && Settled(g, fwd, Top(stack))
    ensures CursorSum(mem', stack[..|stack| - 1]) == CursorSum(mem, stack)
  {
    hide OldHalf, NewHalf, Finished, Threaded, Placed, Counted, Tiled, Spaces.Valid, Obj.ByteSize, Obj.WellShaped;
    Separate(g, fwd, ptr);
    var repl := Forward(fwd, v);
    KeysOld(g, fwd, ptr);
    assert Closes(g, mem, fwd, stack, repl, mem');
    CloseOld(g, mem, fwd, stack, repl, mem');
    CloseNew(g, mem, fwd, stack, repl, mem');
    CloseFinished(g, mem, fwd, stack, repl, mem');
    CloseThreaded(g, mem, fwd, stack, mem');
    CloseMeasure(g, mem, fwd, stack, mem');
    KeepCounted(g, mem, fwd, ptr, mem');
  }

  lemma KeepCounted(g: Spaces, mem: Mem, fwd: Forwarding, ptr: Addr, mem': Mem)
    requires Counted(g, mem, fwd, ptr) && mem'.Keys == mem.Keys
    ensures Counted(g, mem', fwd, ptr)
  {
  }

  /** The open slot k of the innermost object takes its final word, the null slots below it
      are copied, and slot n is opened next. */
  ghost predicate Advances(g: Spaces, mem: Mem, fwd: Forwarding, stack: seq<Addr>, repl: Word, n: nat, mem': Mem) {
    && Touches(g, mem, fwd, stack, mem')
    && var top := Top(stack); var c := fwd[top]; var k := Cursor(mem[top]); var o := g.from[top];
    && !mem[top].binary && n < k < |o.data| && |mem[top].data| == |o.data| == |mem[c].data|
    && |mem'[c].data| == |o.data| && mem'[c] == mem[c].(data := mem'[c].data)
    && repl == Forward(fwd, o.data[k])
    && (forall i | n < i <= k :: Settled(g, fwd, o.data[i]) && mem'[c].data[i] == Forward(fwd, o.data[i]))
    && mem'[top] == mem[top].(size := n, data := mem[top].data[n := c])
    && (forall i | k < i < |o.data| :: mem'[c].data[i] == mem[c].data[i])
    && mem'[c].data[n] == Top(stack[..|stack| - 1])
  }

  lemma AdvanceOld(g: Spaces, mem: Mem, fwd: Forwarding, stack: seq<Addr>, repl: Word, n: nat, mem': Mem)
    requires Advances(g, mem, fwd, stack, repl, n, mem') && OldHalf(g, mem, fwd)
    ensures OldHalf(g, mem', fwd)
    ensures mem[Top(stack)].data[n] == g.from[Top(stack)].data[n]
  {
    assert Entered(g, mem, fwd, Top(stack));
    forall a | a in fwd
      ensures Entered(g, mem', fwd, a)
    {
      assert Entered(g, mem, fwd, a);
      if a != Top(stack) { assert mem'[a] == mem[a]; }
    }
  }

  lemma AdvanceNew(g: Spaces, mem: Mem, fwd: Forwarding, stack: seq<Addr>, repl: Word, n: nat, mem': Mem)
    requires Advances(g, mem, fwd, stack, repl, n, mem') && NewHalf(g, mem, fwd)
    ensures NewHalf(g, mem', fwd)
  {
    assert Copied(g, mem, fwd, Top(stack));
    forall a | a in fwd
      ensures fwd[a] in mem' && a in mem' && a in g.from && Copied(g, mem', fwd, a)
    {
      assert Copied(g, mem, fwd, a);
      if a != Top(stack) { assert mem'[a] == mem[a]; }
    }
  }

  lemma AdvanceFinished(g: Spaces, mem: Mem, fwd: Forwarding, stack: seq<Addr>, mem': Mem)
    requires Touches(g, mem, fwd, stack, mem') && Finished(g, mem, fwd, stack)
    ensures Finished(g, mem', fwd, stack)
  {
    assert Top(stack) in stack;
    forall a | a in fwd && a !in stack
      ensures a in mem' && a in g.from && fwd[a] in mem' && ClassFinal(g, mem', fwd, a)
    {
      assert ClassFinal(g, mem, fwd, a);
      assert mem'[a] == mem[a];
    }
  }

  lemma AdvanceThreaded(g: Spaces, mem: Mem, fwd: Forwarding, stack: seq<Addr>, repl: Word, n: nat, mem': Mem)
    requires Advances(g, mem, fwd, stack, repl, n, mem') && Threaded(g, mem, fwd, stack) && fwd.Keys <= g.from.Keys
    ensures Threaded(g, mem', fwd, stack)
  {
    CloseThreaded(g, mem, fwd, stack, mem');
    assert BackPointer(g, mem', fwd, Top(stack), Top(stack[..|stack| - 1]));
    hide Touches, BackPointer, OpenSlot, Advances;
    var stack' := stack[..|stack| - 1];
    forall j | 0 <= j < |stack|
      ensures Linked(g, mem', fwd, stack, j)
    {
      if j < |stack'| { assert Linked(g, mem', fwd, stack', j); }
    }
  }

  lemma Advance(g: Spaces, mem: Mem, fwd: Forwarding, stack: seq<Addr>, ptr: Addr, root: Word, repl: Word, n: nat,
                mem': Mem)
    requires Inv(g, mem, fwd, stack, ptr) && stack != [] && stack[0] == root
    requires Advances(g, mem, fwd, stack, repl, n, mem')
    ensures Inv(g, mem', fwd, stack, ptr)
    ensures Pending(g, mem', stack, root, mem[Top(stack)].data[n])
    ensures CursorSum(mem', stack) < CursorSum(mem, stack)
  {
    hide OldHalf, NewHalf, Finished, Threaded, Placed, Counted, Tiled, Obj.ByteSize, Obj.WellShaped, Apart;
    Separate(g, fwd, ptr);
    KeysOld(g, fwd, ptr);
    AdvanceOld(g, mem, fwd, stack, repl, n, mem');
    AdvanceNew(g, mem, fwd, stack, repl, n, mem');
    AdvanceFinished(g, mem, fwd, stack, mem');
    AdvanceThreaded(g, mem, fwd, stack, repl, n, mem');
    CloseMeasure(g, mem, fwd, stack, mem');
    KeepCounted(g, mem, fwd, ptr, mem');
    assert g.ObjectAt(Top(stack));
  }

  // ---- Only what a root reaches is entered.

  ghost predicate Traced(g: Spaces, fwd0: Forwarding, fwd: Forwarding, stack: seq<Addr>, root: Word) {
    && Extends(fwd0, fwd)
    && (forall a | a in fwd && a !in fwd0 :: Reaches(g.from, root, a))
    && (forall j | 0 <= j < |stack| :: Reaches(g.from, root, stack[j]))
  }

  lemma TraceEnter(g: Spaces, mem: Mem, fwd0: Forwarding, fwd: Forwarding, stack: seq<Addr>, root: Word, v: Addr,
                   fwd': Forwarding)
    requires Traced(g, fwd0, fwd, stack, root) && Pending(g, mem, stack, root, v)
    requires v in g.from && v !in fwd && v in fwd' && fwd' == fwd[v := fwd'[v]]
    ensures Traced(g, fwd0, fwd', stack + [v], root)
  {
    if stack == [] {
      assert Follow(g.from, root, []) == Some(v);
    } else {
      ReachesStep(g.from, root, stack[|stack| - 1], Cursor(mem[stack[|stack| - 1]]));
    }
    assert Reaches(g.from, root, v);
    hide Reaches;
  }

  // ---- What the collector finds when it looks at a word.

  /** A SmallInteger or an address outside the old half stays as it is. */
  lemma Unmoved(g: Spaces, fwd: Forwarding, ptr: Addr, v: Word)
    requires g.Valid() && Placed(g, fwd, ptr) && g.ValidWord(v) && (IsSmallInteger(v) || !g.InOldSpace(v))
    ensures Settled(g, fwd, v) && Forward(fwd, v) == v
  {
    hide Obj.ByteSize, Obj.WellShaped, Apart;
    if v in g.from {
      assert g.ObjectAt(v);
      SizeAligned(g.from[v]);
      assert false;
    }
  }

  /** The relocated flag tells whether an object of the old half has been entered, and if
      so its slot under the cursor is its forwarding pointer, finished or not. */
  lemma Inspect(g: Spaces, mem: Mem, fwd: Forwarding, v: Addr)
    requires g.Valid() && OldHalf(g, mem, fwd) && v in g.from
    ensures v in mem && (mem[v].relocated <==> v in fwd)
    ensures if v in fwd then Cursor(mem[v]) < |mem[v].data| && mem[v].data[Cursor(mem[v])] ==
            fwd[v] && Settled(g, fwd, v)
            else mem[v] == g.from[v] && mem[v].WellShaped() && v != 0
  {
    hide Obj.ByteSize, Apart;
    assert g.ObjectAt(v);
    if v in fwd { assert Entered(g, mem, fwd, v); }
  }

  /** There is room for the copy, and its address is not in use. */
  lemma EnterRoom(g: Spaces, mem: Mem, fwd: Forwarding, stack: seq<Addr>, ptr: Addr, v: Addr)
    requires Inv(g, mem, fwd, stack, ptr) && v in g.from && v !in fwd && g.from[v].WellShaped()
    ensures ptr - g.from[v].ByteSize() >= 0 && ptr - g.from[v].ByteSize() != v
    ensures ptr - g.from[v].ByteSize() !in mem
  {
    hide OldHalf, NewHalf, Finished, Threaded, Obj.ByteSize, Obj.WellShaped, Apart, Spaces.Valid, Placed, EnteredObject;
    EnterSpace(g, mem, fwd, ptr, v);
    var to := ptr - g.from[v].ByteSize();
    EnterFresh(g, mem, fwd, ptr, v, g.from[v], to, mem[to := g.from[v]][v := EnteredObject(g.from[v], to)],
               fwd[v := to]);
  }

  /** The innermost object holds its copy under the cursor, and the copy holds the back
      pointer at the same place. */
  ghost predicate TopShape(g: Spaces, mem: Mem, fwd: Forwarding, top: Addr, parent: Word) {
    && top in fwd && top in mem && top in g.from && mem[top].relocated && fwd[top] in mem
    && Cursor(mem[top]) < |mem[top].data| == |mem[fwd[top]].data| == |g.from[top].data|
    && mem[top].data[Cursor(mem[top])] == fwd[top]
    && mem[fwd[top]].data[Cursor(mem[top])] == parent
    && (forall i | 0 <= i < Cursor(mem[top]) :: mem[top].data[i] == g.from[top].data[i])
  }

  lemma InspectTop(g: Spaces, mem: Mem, fwd: Forwarding, stack: seq<Addr>, ptr: Addr)
    requires Inv(g, mem, fwd, stack, ptr) && stack != []
    ensures TopShape(g, mem, fwd, Top(stack), Top(stack[..|stack| - 1]))
    ensures Top(stack) in mem && Top(stack) in fwd && Top(stack) != 0 && fwd[Top(stack)] != Top(stack)
    ensures Separated(g, fwd)
  {
    hide Spaces.Valid, Finished, Obj.ByteSize, Apart, Placed, Counted, Tiled, Obj.WellShaped;
    var top := Top(stack);
    assert Linked(g, mem, fwd, stack, |stack| - 1);
    assert Entered(g, mem, fwd, top) && Copied(g, mem, fwd, top) &&
      TopShape(g, mem, fwd, Top(stack), Top(stack[..|stack| - 1]));
    hide OldHalf, NewHalf, Threaded, Entered, Copied, Linked, TopShape;
    KeysOld(g, fwd, ptr);
    Separate(g, fwd, ptr);
    NotNull(g, top);
  }

  lemma NotNull(g: Spaces, a: Addr)
    requires g.Valid() && a in g.from
    ensures a != 0
  {
    hide Obj.ByteSize, Apart;
    assert g.ObjectAt(a);
  }

  /** The remaining slots of the objects under construction. */
  ghost function CursorSum(mem: Mem, stack: seq<Addr>): nat {
    if stack == [] then 0
    else CursorSum(mem, stack[..|stack| - 1]) + if Top(stack) in mem then Cursor(mem[Top(stack)]) else 0
  }

  lemma {:induction false} CursorSumSame(mem: Mem, mem': Mem, stack: seq<Addr>)
    requires forall a | a in stack :: a in mem && a in mem' && Cursor(mem[a]) == Cursor(mem'[a])
    ensures CursorSum(mem, stack) == CursorSum(mem', stack)
  {
    if stack != [] { CursorSumSame(mem, mem', stack[..|stack| - 1]); }
  }

  lemma CloseMeasure(g: Spaces, mem: Mem, fwd: Forwarding, stack: seq<Addr>, mem': Mem)
    requires Touches(g, mem, fwd, stack, mem') && Threaded(g, mem, fwd, stack) && fwd.Keys <= g.from.Keys
    ensures CursorSum(mem', stack[..|stack| - 1]) == CursorSum(mem, stack[..|stack| - 1])
  {
    var stack' := stack[..|stack| - 1];
    forall a | a in stack'
      ensures a in mem && a in mem' && Cursor(mem[a]) == Cursor(mem'[a])
    {
      var j :| 0 <= j < |stack'| && stack'[j] == a;
      assert Linked(g, mem, fwd, stack, j);
      assert stack[j] != Top(stack);
      assert fwd[Top(stack)] != a;
    }
    CursorSumSame(mem, mem', stack');
  }

  lemma NullSettled(g: Spaces, fwd: Forwarding, ptr: Addr)
    requires g.Valid() && Placed(g, fwd, ptr)
    ensures Settled(g, fwd, 0) && Forward(fwd, 0) == 0
  {
    assert g.ValidWord(0) && !g.InOldSpace(0) by { hide Obj.ByteSize, Obj.WellShaped, Apart; }
    Unmoved(g, fwd, ptr, 0);
  }

  lemma NullIsSettled(g: Spaces, mem: Mem, fwd: Forwarding, stack: seq<Addr>, ptr: Addr)
    requires Inv(g, mem, fwd, stack, ptr)
    ensures Settled(g, fwd, 0) && Forward(fwd, 0) == 0
  {
    hide OldHalf, NewHalf, Finished, Threaded, Counted, Tiled, Spaces.Valid, Placed, Settled, Forward;
    NullSettled(g, fwd, ptr);
  }

  lemma OpenTop(g: Spaces, mem: Mem, fwd: Forwarding, stack: seq<Addr>, root: Word, value: Word)
    requires Pending(g, mem, stack, root, value) && stack != []
    requires TopShape(g, mem, fwd, Top(stack), Top(stack[..|stack| - 1]))
    ensures OpenSlot(g, mem, Top(stack), value) && stack[0] == root
    ensures fwd[Top(stack)] in mem && mem[Top(stack)].relocated
    ensures Cursor(mem[Top(stack)]) < |mem[Top(stack)].data| == |mem[fwd[Top(stack)]].data|
    ensures mem[Top(stack)].data[Cursor(mem[Top(stack)])] == fwd[Top(stack)]
    ensures mem[fwd[Top(stack)]].data[Cursor(mem[Top(stack)])] == Top(stack[..|stack| - 1])
  {
  }

  /** The stores made while a slot is left are those of Advances. */
  lemma AdvancesBy(g: Spaces, mem: Mem, fwd: Forwarding, stack: seq<Addr>, repl: Word, n: nat, mem1: Mem, mem': Mem)
    requires stack != [] && TopShape(g, mem, fwd, Top(stack), Top(stack[..|stack| - 1]))
    requires Separated(g, fwd) && fwd[Top(stack)] != Top(stack) && !mem[Top(stack)].binary
    requires Settled(g, fwd, 0) && Forward(fwd, 0) == 0
    requires var top := Top(stack); var c := fwd[top]; var k := Cursor(mem[top]);
             && Settled(g, fwd, g.from[top].data[k]) && repl == Forward(fwd, g.from[top].data[k])
             && mem1.Keys == mem.Keys && n < k
             && (forall a | a in mem && a != c :: mem1[a] == mem[a])
             && |mem1[c].data| == |mem[c].data| && mem1[c] == mem[c].(data := mem1[c].data)
             && (forall i | n < i < k :: mem[top].data[i] == 0 == mem1[c].data[i])
             && mem1[c].data[k] == repl
             && (forall i | k < i < |mem[c].data| :: mem1[c].data[i] == mem[c].data[i])
             && mem' == mem1[top := mem[top].(size := n, data := mem[top].data[n := c])]
                            [c := mem1[c].SetData(n, Top(stack[..|stack| - 1]))]
    ensures Advances(g, mem, fwd, stack, repl, n, mem')
  {
    hide Settled, Separated, Forward;
  }

  lemma StartAtRoot(g: Spaces, mem: Mem, fwd: Forwarding, root: Word)
    requires g.ValidWord(root)
    ensures Pending(g, mem, [], root, root) && Traced(g, fwd, fwd, [], root)
  {
  }

  lemma FinishAtRoot(g: Spaces, mem: Mem, fwd: Forwarding, stack: seq<Addr>, ptr: Addr, root: Word, value: Word)
    requires Inv(g, mem, fwd, stack, ptr) && Pending(g, mem, stack, root, value) && Top(stack) == 0
    ensures stack == [] && value == root
  {
    hide Inv;
    if stack != [] {
      InspectTop(g, mem, fwd, stack, ptr);
      assert false;
    }
  }

  lemma PendingValid(g: Spaces, mem: Mem, stack: seq<Addr>, root: Word, v: Word)
    requires Pending(g, mem, stack, root, v)
    ensures g.ValidWord(v)
  {
  }

  lemma UnmovedWord(g: Spaces, mem: Mem, fwd: Forwarding, stack: seq<Addr>, ptr: Addr, v: Word)
    requires Inv(g, mem, fwd, stack, ptr) && g.ValidWord(v) && (IsSmallInteger(v) || !g.InOldSpace(v))
    ensures Settled(g, fwd, v) && Forward(fwd, v) == v
  {
    hide OldHalf, NewHalf, Finished, Threaded, Counted, Tiled, Spaces.Valid, Placed, Settled, Forward;
    Unmoved(g, fwd, ptr, v);
  }

  lemma InspectWord(g: Spaces, mem: Mem, fwd: Forwarding, stack: seq<Addr>, ptr: Addr, v: Addr)
    requires Inv(g, mem, fwd, stack, ptr) && g.ValidWord(v) && !IsSmallInteger(v) && g.InOldSpace(v)
    ensures v in mem && v in g.from && (mem[v].relocated <==> v in fwd) && fwd.Keys <= g.from.Keys
    ensures if v in fwd then Cursor(mem[v]) < |mem[v].data| && mem[v].data[Cursor(mem[v])] ==
            Forward(fwd, v) && Settled(g, fwd, v)
            else mem[v] == g.from[v] && mem[v].WellShaped()
  {
    hide OldHalf, NewHalf, Finished, Threaded, Counted, Tiled, Spaces.Valid, Placed;
    KeysOld(g, fwd, ptr);
    Inspect(g, mem, fwd, v);
  }

  lemma TraceShorter(g: Spaces, fwd0: Forwarding, fwd: Forwarding, stack: seq<Addr>, root: Word, stack': seq<Addr>)
    requires Traced(g, fwd0, fwd, stack, root) && stack' <= stack
    ensures Traced(g, fwd0, fwd, stack', root)
  {
  }

  lemma Fewer<T>(all: set<T>, some: set<T>, x: T)
    requires some <= all && x in all && x !in some
    ensures |all| - |some + {x}| < |all| - |some| && some + {x} <= all && 0 <= |all| - |some + {x}|
  {
    Contained(some + {x}, all);
  }

  lemma FewerAll<T>(all: set<T>, some: set<T>, more: set<T>)
    requires some < more <= all
    ensures 0 <= |all| - |more| < |all| - |some|
  {
    var x :| x in more && x !in some;
    Contained(some + {x}, more);
    Contained(more, all);
  }

  // ---- What the collection has achieved once no object is under construction.

  ghost predicate IsCopy(g: Spaces, fwd: Forwarding, o: Obj, c: Obj) {
    && c.size == o.size && c.binary == o.binary && !c.relocated && c.bytes == o.bytes
    && |c.data| == |o.data|
    && forall i | 0 <= i < |o.data| :: Settled(g, fwd, o.data[i]) && c.data[i] == Forward(fwd, o.data[i])
  }

  /** `copied` consists of exactly one copy of each entered object, with every slot forwarded. */
  ghost predicate Moved(g: Spaces, fwd: Forwarding, copied: Mem) {
    && fwd.Keys <= g.from.Keys && copied.Keys == fwd.Values
    && (forall a | a in fwd :: fwd[a] in copied && IsCopy(g, fwd, g.from[a], copied[fwd[a]]))
    && (forall a | a in fwd :: g.InNewSpace(fwd[a]) && fwd[a] % WORD_BYTES == 0)
    && (forall a, b | a in fwd && b in fwd && a != b :: fwd[a] != fwd[b])
  }

  lemma CopyAtRest(g: Spaces, mem: Mem, fwd: Forwarding, a: Addr)
    requires NewHalf(g, mem, fwd) && Finished(g, mem, fwd, []) && a in fwd
    ensures fwd[a] in mem && a in g.from && IsCopy(g, fwd, g.from[a], mem[fwd[a]])
  {
    assert Copied(g, mem, fwd, a);
    assert a !in [];
    assert ClassFinal(g, mem, fwd, a);
  }

  lemma MovedAtRest(g: Spaces, mem: Mem, fwd: Forwarding, ptr: Addr)
    requires Inv(g, mem, fwd, [], ptr)
    ensures Moved(g, fwd, map a | a in mem && a !in g.from :: mem[a])
  {
    hide OldHalf, NewHalf, Finished, Threaded, Spaces.Valid, Obj.ByteSize, Placed, Counted, Tiled, IsCopy;
    var copied := map a | a in mem && a !in g.from :: mem[a];
    AtRestKeys(g, mem, fwd, ptr);
    assert copied.Keys == fwd.Values;
    forall a | a in fwd
      ensures fwd[a] in copied && IsCopy(g, fwd, g.from[a], copied[fwd[a]])
    {
      CopyAtRest(g, mem, fwd, a);
    }
  }

  lemma AtRestKeys(g: Spaces, mem: Mem, fwd: Forwarding, ptr: Addr)
    requires g.Valid() && Placed(g, fwd, ptr) && Counted(g, mem, fwd, ptr)
    ensures Separated(g, fwd) && fwd.Keys <= g.from.Keys
    ensures (set a | a in mem && a !in g.from) == fwd.Values
    ensures forall a | a in fwd :: g.InNewSpace(fwd[a]) && fwd[a] % WORD_BYTES == 0
    ensures forall a | a in g.from :: !g.InNewSpace(a)
  {
    Separate(g, fwd, ptr);
    hide Obj.ByteSize, Obj.WellShaped, Spaces.ValidWord, Covered, Apart;
    forall a | a in g.from
      ensures g.fromLo <= a < g.fromHi
    {
      assert g.ObjectAt(a);
      SizeAligned(g.from[a]);
    }
    forall a | a in fwd
      ensures fwd[a] < g.toHi
    {
      SizeAligned(g.from[a]);
    }
  }

  /** A path followed in the new memory leads to the forwarded end of the same path in the
      old one. */
  lemma {:induction false} FollowMoved(g: Spaces, fwd: Forwarding, copied: Mem, v: Word, path: seq<nat>)
    requires Moved(g, fwd, copied) && Settled(g, fwd, v)
    ensures match Follow(g.from, v, path)
            case None => Follow(copied, Forward(fwd, v), path) == None
            case Some(w) => Settled(g, fwd, w) && Follow(copied, Forward(fwd, v), path) == Some(Forward(fwd, w))
    decreases |path|
  {
    if path != [] {
      if v in g.from {
        assert IsCopy(g, fwd, g.from[v], copied[fwd[v]]);
        if path[0] < |g.from[v].data| {
          FollowMoved(g, fwd, copied, g.from[v].data[path[0]], path[1..]);
        }
      } else {
        SettledOutside(g, fwd, copied, v);
      }
    }
  }

  lemma SettledOutside(g: Spaces, fwd: Forwarding, copied: Mem, v: Word)
    requires Moved(g, fwd, copied) && Settled(g, fwd, v) && v !in g.from
    ensures Forward(fwd, v) == v && v !in copied
  {
  }

  lemma ForwardInjective(g: Spaces, fwd: Forwarding, copied: Mem, v: Word, w: Word)
    requires Moved(g, fwd, copied) && Settled(g, fwd, v) && Settled(g, fwd, w)
    ensures Forward(fwd, v) == Forward(fwd, w) <==> v == w
  {
    if v !in g.from { SettledOutside(g, fwd, copied, v); }
    if w !in g.from { SettledOutside(g, fwd, copied, w); }
    if v in g.from && w !in g.from { assert fwd[v] in copied; }
    if w in g.from && v !in g.from { assert fwd[w] in copied; }
  }

  lemma LookMoved(g: Spaces, fwd: Forwarding, copied: Mem, v: Word)
    requires Moved(g, fwd, copied) && Settled(g, fwd, v)
    ensures Look(g.from, Some(v)) == Look(copied, Some(Forward(fwd, v)))
  {
    if v in g.from {
      assert IsCopy(g, fwd, g.from[v], copied[fwd[v]]);
    } else {
      SettledOutside(g, fwd, copied, v);
    }
  }

  /** A finished collection cannot be noticed from the roots. */
  lemma MovedSameGraph(g: Spaces, fwd: Forwarding, copied: Mem, roots: Roots, roots': Roots)
    requires Moved(g, fwd, copied) && roots'.Keys == roots.Keys
    requires forall r | r in roots :: Settled(g, fwd, roots[r]) && roots'[r] == Forward(fwd, roots[r])
    ensures SameGraph(g.from, roots, copied, roots')
  {
    hide Moved, Settled, Forward;
    forall r, p | r in roots
      ensures Look(g.from, Walk(g.from, roots, r, p)) == Look(copied, Walk(copied, roots', r, p))
    {
      FollowMoved(g, fwd, copied, roots[r], p);
      match Follow(g.from, roots[r], p)
      case None =>
      case Some(w) => LookMoved(g, fwd, copied, w);
    }
    forall r, p, s, q | r in roots && s in roots
      ensures Walk(g.from, roots, r, p) == Walk(g.from, roots, s, q) <==>
              Walk(copied, roots', r, p) == Walk(copied, roots', s, q)
    {
      FollowMoved(g, fwd, copied, roots[r], p);
      FollowMoved(g, fwd, copied, roots[s], q);
      match (Follow(g.from, roots[r], p), Follow(g.from, roots[s], q))
      case (Some(v), Some(w)) => ForwardInjective(g, fwd, copied, v, w);
      case _ =>
    }
  }

  /** Everything a settled word reaches has been copied. */
  lemma ReachedIsMoved(g: Spaces, fwd: Forwarding, copied: Mem, v: Word, a: Addr)
    requires Moved(g, fwd, copied) && Settled(g, fwd, v) && Reaches(g.from, v, a)
    ensures a in fwd
  {
    var path :| Follow(g.from, v, path) == Some(a);
    FollowMoved(g, fwd, copied, v, path);
  }

  // ---- Roots.

  /** A root slot has been updated. */
  predicate Redirected(g: Spaces, fwd: Forwarding, before: Word, after: Word) {
    Settled(g, fwd, before) && after == Forward(fwd, before)
  }

  lemma RedirectedNow(g: Spaces, fwd: Forwarding, before: Word, after: Word)
    requires Settled(g, fwd, before) && after == Forward(fwd, before)
    ensures Redirected(g, fwd, before, after)
  {
  }

  lemma RedirectedExtends(g: Spaces, fwd: Forwarding, fwd': Forwarding, before: Word, after: Word)
    requires Redirected(g, fwd, before, after) && Extends(fwd, fwd') && fwd'.Keys <= g.from.Keys
    ensures Redirected(g, fwd', before, after)
  {
  }

  ghost predicate ReachedFromAny(m: Mem, words: set<Word>, a: Addr) {
    exists w :: w in words && Reaches(m, w, a)
  }

  lemma TracedToRoots(g: Spaces, fwd0: Forwarding, fwd: Forwarding, root: Word, words: set<Word>)
    requires Traced(g, fwd0, fwd, [], root) && root in words
    requires forall a | a in fwd0 :: ReachedFromAny(g.from, words, a)
    ensures Extends(fwd0, fwd) && forall a | a in fwd :: ReachedFromAny(g.from, words, a)
  {
    hide Reaches;
  }

  /** Before any object has been entered. */
  lemma StartCollection(g: Spaces)
    requires g.Valid()
    ensures Inv(g, g.from, map[], [], g.toHi)
  {
    hide Spaces.Valid, Obj.ByteSize;
    assert Covered(g.from, {}, g.fromLo, g.fromHi) == {};
    assert g.toLo <= g.toHi && g.toHi % WORD_BYTES == 0 by { ToSpace(g); }
  }

  lemma ToSpace(g: Spaces)
    requires g.Valid()
    ensures g.toLo <= g.toHi && g.toHi % WORD_BYTES == 0
  {
  }

  /** The copies never need more room than the old half had in use. */
  lemma RoomLeft(g: Spaces, mem: Mem, fwd: Forwarding, ptr: Addr)
    requires Counted(g, mem, fwd, ptr) && g.fromLo <= g.fromHi
    ensures g.toHi - ptr <= g.fromHi - g.fromLo
  {
    hide Covered;
    CoveredWithin(g.from, fwd.Keys, g.fromLo, g.fromHi);
    IntervalSize(g.fromLo, g.fromHi);
    Contained(Covered(g.from, fwd.Keys, g.fromLo, g.fromHi), Interval(g.fromLo, g.fromHi));
  }

  /** After a collection the objects fill the used part of their half without a gap. */
  lemma CopiesFill(g: Spaces, mem: Mem, fwd: Forwarding, ptr: Addr, copied: Mem)
    requires Tiled(g, fwd, ptr) && Moved(g, fwd, copied)
    ensures ptr <= g.toHi ==> |Covered(copied, copied.Keys, ptr, g.toHi)| == g.toHi - ptr
  {
    if ptr <= g.toHi {
      var all := Covered(copied, copied.Keys, ptr, g.toHi);
      forall x: Addr | Within(x, ptr, g.toHi)
        ensures x in all
      {
        assert InCopy(g, fwd, x);
        CopyOccupies(g, fwd, copied, x);
      }
      CoveredWithin(copied, copied.Keys, ptr, g.toHi);
      assert forall x: int | x in Interval(ptr, g.toHi) :: Within(x, ptr, g.toHi);
      assert all == Interval(ptr, g.toHi);
      IntervalSize(ptr, g.toHi);
    }
  }

  lemma CopyOccupies(g: Spaces, fwd: Forwarding, copied: Mem, x: Addr)
    requires InCopy(g, fwd, x) && Moved(g, fwd, copied)
    ensures exists a :: a in copied.Keys && Occupies(copied, a, x)
  {
    var a :| a in fwd && a in g.from && fwd[a] <= x < fwd[a] + g.from[a].ByteSize();
    assert IsCopy(g, fwd, g.from[a], copied[fwd[a]]);
    assert Occupies(copied, fwd[a], x);
  }
}
