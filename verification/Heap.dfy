/** The heap between collections: what is well formed, what is live, and what a
    finished collection means for it. */
module Heaps {
  import opened Memory
  import opened Moving

  /** `mem` holds the dynamic objects, all inside the used part lo..hi of the active half;
      `statics` holds the pointer slots of the static heap; `externals` are the pointers
      held outside the heap, most recently registered first. */
  datatype Heap = Heap(
    mem: Mem, lo: Addr, hi: Addr,
    statics: map<Addr, Word>, staticLo: Addr, staticHi: Addr,
    staticRoots: seq<Addr>, externals: seq<Word>)
  {
    predicate InStatic(v: Word) {
      staticLo <= v < staticHi
    }

    /** What a slot may hold: a SmallInteger, null, a static address or a dynamic object. */
    predicate GoodWord(v: Word) {
      IsSmallInteger(v) || v == 0 || InStatic(v) || v in mem
    }

    ghost predicate ObjectAt(a: Addr)
      requires a in mem
    {
      && a % WORD_BYTES == 0 && lo <= a && a + mem[a].ByteSize() <= hi && mem[a].WellShaped()
      && forall i | 0 <= i < |mem[a].data| :: GoodWord(mem[a].data[i])
    }

    ghost predicate WellFormed() {
      && 0 < lo <= hi && lo % WORD_BYTES == 0 && hi % WORD_BYTES == 0
      && staticLo <= staticHi && (hi <= staticLo || staticHi <= lo)
      && (forall a | a in mem :: ObjectAt(a))
      && (forall a, b | a in mem && b in mem && a != b :: Apart(a, mem[a].ByteSize(), b, mem[b].ByteSize()))
      && (forall s | s in statics :: GoodWord(statics[s]))
      && (forall i | 0 <= i < |externals| :: GoodWord(externals[i]))
    }

    /** The write barrier's bookkeeping: every registered slot is a static slot without a
        static address, no slot is registered twice, and no dynamic object hangs from a slot
        that is not registered. */
    ghost predicate Barrier() {
      && (forall s | s in statics :: InStatic(s))
      && (forall i, j | 0 <= i < j < |staticRoots| :: staticRoots[i] != staticRoots[j])
      && (forall s | s in staticRoots :: s in statics && !InStatic(statics[s]))
      && (forall s | s in statics && statics[s] in mem :: s in staticRoots)
    }

    /** The slots that the bookkeeping does not know of: without a static address, and not
        registered.  An image fills them with SmallIntegers or null. */
    function Unregistered(): set<Addr> {
      set s | s in statics && s !in staticRoots && !InStatic(statics[s])
    }

    ghost function Roots(): Roots {
      (map s | s in statics :: StaticSlot(s) := statics[s])
      + (map i: nat | i < |externals| :: External(i) := externals[i])
    }

    ghost predicate Live(a: Addr) {
      a in mem && exists r :: r in Roots() && Reaches(mem, Roots()[r], a)
    }

    ghost function LiveSet(): set<Addr> {
      set a | a in mem && Live(a)
    }

    ghost function LiveBytes(): nat {
      |Covered(mem, LiveSet(), lo, hi)|
    }
  }

  ghost predicate SameHeapGraph(h: Heap, h': Heap) {
    SameGraph(h.mem, h.Roots(), h'.mem, h'.Roots())
  }

  /** The words the collector starts from. */
  ghost function RootWords(h: Heap): set<Word> {
    (set s | s in h.staticRoots && s in h.statics :: h.statics[s]) + (set w | w in h.externals)
  }

  /** Collecting from the used part of the active half into the other half. */
  function CollectionOf(h: Heap, toLo: Addr, toHi: Addr): Spaces {
    Spaces(h.mem, h.lo, h.hi, toLo, toHi)
  }

  predicate Target(h: Heap, toLo: Addr, toHi: Addr) {
    && 0 < toLo <= toHi && toHi % WORD_BYTES == 0 && h.hi - h.lo <= toHi - toLo
    && (h.hi <= toLo || toHi <= h.lo)
    && (h.staticHi <= toLo || toHi <= h.staticLo)
  }

  lemma MemInside(h: Heap, a: Addr)
    requires h.WellFormed() && a in h.mem
    ensures h.lo <= a < h.hi && a % WORD_BYTES == 0 && a + h.mem[a].ByteSize() <= h.hi
  {
    hide Obj.ByteSize, Apart, Obj.WellShaped, Heap.GoodWord;
    assert h.ObjectAt(a);
    SizeAligned(h.mem[a]);
  }

  lemma GoodIsValid(h: Heap, toLo: Addr, toHi: Addr, v: Word)
    requires h.WellFormed() && Target(h, toLo, toHi) && h.GoodWord(v)
    ensures CollectionOf(h, toLo, toHi).ValidWord(v)
  {
    hide Obj.ByteSize, Apart, Obj.WellShaped;
  }

  lemma CollectionValid(h: Heap, toLo: Addr, toHi: Addr)
    requires h.WellFormed() && Target(h, toLo, toHi)
    ensures CollectionOf(h, toLo, toHi).Valid()
  {
    hide Obj.ByteSize, Apart, Obj.WellShaped, Heap.GoodWord, Spaces.ValidWord;
    var g := CollectionOf(h, toLo, toHi);
    forall a | a in h.mem
      ensures g.ObjectAt(a)
    {
      assert h.ObjectAt(a);
      forall i | 0 <= i < |h.mem[a].data|
        ensures g.ValidWord(h.mem[a].data[i])
      {
        GoodIsValid(h, toLo, toHi, h.mem[a].data[i]);
      }
    }
  }

  /** The heap h' is what the collection g with forwarding fwd made of h. */
  ghost predicate CollectedTo(h: Heap, g: Spaces, fwd: Forwarding, h': Heap) {
    && g == CollectionOf(h, g.toLo, g.toHi)
    && Target(h, g.toLo, g.toHi)
    && Moved(g, fwd, h'.mem)
    && h'.hi == g.toHi && g.toLo <= h'.lo
    && h'.staticLo == h.staticLo && h'.staticHi == h.staticHi && h'.staticRoots == h.staticRoots
    && h'.statics.Keys == h.statics.Keys && |h'.externals| == |h.externals|
    && (forall s | s in h.statics :: Redirected(g, fwd, h.statics[s], h'.statics[s]))
    && (forall i | 0 <= i < |h.externals| :: Redirected(g, fwd, h.externals[i], h'.externals[i]))
    && (forall a | a in fwd :: ReachedFromAny(g.from, RootWords(h), a))
  }

  lemma CollectedSameGraph(h: Heap, g: Spaces, fwd: Forwarding, h': Heap)
    requires CollectedTo(h, g, fwd, h')
    ensures SameHeapGraph(h, h')
  {
    hide Moved, SameGraph, Settled, Forward, ReachedFromAny;
    forall r | r in h.Roots()
      ensures r in h'.Roots() && Redirected(g, fwd, h.Roots()[r], h'.Roots()[r])
    {
    }
    assert h.Roots().Keys == h'.Roots().Keys;
    MovedSameGraph(g, fwd, h'.mem, h.Roots(), h'.Roots());
  }

  /** Exactly the live objects are copied. */
  lemma CollectedLive(h: Heap, g: Spaces, fwd: Forwarding, h': Heap)
    requires CollectedTo(h, g, fwd, h')
    ensures fwd.Keys == h.LiveSet()
  {
    hide CollectedTo, Heap.LiveSet, Moved;
    forall a
      ensures a in fwd <==> a in h.LiveSet()
    {
      if a in fwd { MovedIsLive(h, g, fwd, h', a); }
      if a in h.LiveSet() { LiveIsMoved(h, g, fwd, h', a); }
    }
  }

  lemma LiveIsMoved(h: Heap, g: Spaces, fwd: Forwarding, h': Heap, a: Addr)
    requires CollectedTo(h, g, fwd, h') && a in h.LiveSet()
    ensures a in fwd
  {
    hide Moved, Reaches, Forward, Settled, ReachedFromAny, Heap.Roots;
    var r :| r in h.Roots() && Reaches(h.mem, h.Roots()[r], a);
    RootCases(h, r);
    RootCases(h', r);
    assert Redirected(g, fwd, h.Roots()[r], h'.Roots()[r]);
    ReachedIsMoved(g, fwd, h'.mem, h.Roots()[r], a);
  }

  lemma MovedIsLive(h: Heap, g: Spaces, fwd: Forwarding, h': Heap, a: Addr)
    requires CollectedTo(h, g, fwd, h') && a in fwd
    ensures a in h.LiveSet()
  {
    hide Moved, Reaches, Forward, Settled, Redirected, RootWords, Heap.Roots;
    var w :| w in RootWords(h) && Reaches(h.mem, w, a);
    RootWordIsRoot(h, w);
    InMem(h.mem, w, a);
  }

  lemma InMem(m: Mem, v: Word, a: Addr)
    requires Reaches(m, v, a)
    ensures a in m
  {
  }

  lemma RootWordIsRoot(h: Heap, w: Word)
    requires w in RootWords(h)
    ensures exists r :: r in h.Roots() && h.Roots()[r] == w
  {
    if s :| s in h.staticRoots && s in h.statics && h.statics[s] == w {
      assert StaticSlot(s) in h.Roots();
    } else {
      var i :| 0 <= i < |h.externals| && h.externals[i] == w;
      assert External(i) in h.Roots() && h.Roots()[External(i)] == w;
    }
  }

  lemma ForwardGood(h: Heap, g: Spaces, fwd: Forwarding, h': Heap, v: Word)
    requires CollectedTo(h, g, fwd, h') && h.GoodWord(v) && Settled(g, fwd, v)
    ensures h'.GoodWord(Forward(fwd, v))
  {
    if v in fwd { assert fwd[v] in h'.mem; }
  }

  lemma ObjectOfCopy(h: Heap, g: Spaces, fwd: Forwarding, h': Heap, c: Addr) returns (a: Addr)
    requires CollectedTo(h, g, fwd, h') && c in h'.mem
    ensures a in fwd && fwd[a] == c && a in h.mem && IsCopy(g, fwd, h.mem[a], h'.mem[c])
  {
    a :| a in fwd && fwd[a] == c;
  }

  lemma CopySize(g: Spaces, fwd: Forwarding, o: Obj, c: Obj)
    requires IsCopy(g, fwd, o, c)
    ensures c.ByteSize() == o.ByteSize() && (o.WellShaped() ==> c.WellShaped())
  {
  }

  lemma CopyWellFormed(h: Heap, g: Spaces, fwd: Forwarding, h': Heap, c: Addr)
    requires h.WellFormed() && CollectedTo(h, g, fwd, h') && Placed(g, fwd, h'.lo) && c in h'.mem
    ensures h'.ObjectAt(c)
  {
    hide Apart;
    var a := ObjectOfCopy(h, g, fwd, h', c);
    assert h.ObjectAt(a);
    CopySize(g, fwd, h.mem[a], h'.mem[c]);
    hide Obj.ByteSize, Obj.WellShaped, Heap.GoodWord, CollectedTo, Heap.WellFormed;
    forall i | 0 <= i < |h'.mem[c].data|
      ensures h'.GoodWord(h'.mem[c].data[i])
    {
      ForwardGood(h, g, fwd, h', h.mem[a].data[i]);
    }
    assert fwd[a] % WORD_BYTES == 0 && h'.lo <= fwd[a] && fwd[a] + g.from[a].ByteSize() <= g.toHi;
    assert g.from == h.mem && h'.hi == g.toHi by { FromIsMem(h, g, fwd, h'); }
  }

  lemma FromIsMem(h: Heap, g: Spaces, fwd: Forwarding, h': Heap)
    requires CollectedTo(h, g, fwd, h')
    ensures g.from == h.mem && h'.hi == g.toHi && h.statics.Keys == h'.statics.Keys && |h'.externals| == |h.externals|
    ensures h'.staticLo == h.staticLo && h'.staticHi == h.staticHi && h'.staticRoots == h.staticRoots
    ensures 0 < g.toLo <= g.toHi && g.toHi % WORD_BYTES == 0 && g.toLo <= h'.lo
    ensures h.staticHi <= g.toLo || g.toHi <= h.staticLo
  {
  }

  lemma CopiesApart(h: Heap, g: Spaces, fwd: Forwarding, h': Heap, c: Addr, d: Addr)
    requires CollectedTo(h, g, fwd, h') && Placed(g, fwd, h'.lo) && c in h'.mem && d in h'.mem && c != d
    ensures Apart(c, h'.mem[c].ByteSize(), d, h'.mem[d].ByteSize())
  {
    var a := ObjectOfCopy(h, g, fwd, h', c);
    var b := ObjectOfCopy(h, g, fwd, h', d);
    CopySize(g, fwd, h.mem[a], h'.mem[c]);
    CopySize(g, fwd, h.mem[b], h'.mem[d]);
    FromIsMem(h, g, fwd, h');
    hide Obj.ByteSize, Obj.WellShaped, CollectedTo;
  }

  lemma PlacedBelow(g: Spaces, fwd: Forwarding, ptr: Addr)
    requires Placed(g, fwd, ptr)
    ensures ptr % WORD_BYTES == 0
  {
  }

  lemma CollectedWellFormed(h: Heap, g: Spaces, fwd: Forwarding, h': Heap)
    requires h.WellFormed() && CollectedTo(h, g, fwd, h') && Placed(g, fwd, h'.lo) && h'.lo <= h'.hi
    ensures h'.WellFormed()
  {
    hide Placed, Moved, Apart, Obj.ByteSize, Obj.WellShaped, Heap.GoodWord, Heap.ObjectAt, ReachedFromAny, Settled,
         Forward;
    FromIsMem(h, g, fwd, h');
    PlacedBelow(g, fwd, h'.lo);
    forall c | c in h'.mem ensures h'.ObjectAt(c) { CopyWellFormed(h, g, fwd, h', c); }
    forall c, d | c in h'.mem && d in h'.mem && c != d
      ensures Apart(c, h'.mem[c].ByteSize(), d, h'.mem[d].ByteSize())
    {
      CopiesApart(h, g, fwd, h', c, d);
    }
    forall s | s in h'.statics ensures h'.GoodWord(h'.statics[s])
    {
      assert Redirected(g, fwd, h.statics[s], h'.statics[s]);
      ForwardGood(h, g, fwd, h', h.statics[s]);
    }
    forall i | 0 <= i < |h'.externals| ensures h'.GoodWord(h'.externals[i])
    {
      assert Redirected(g, fwd, h.externals[i], h'.externals[i]);
      ForwardGood(h, g, fwd, h', h.externals[i]);
    }
  }

  /** A collection neither turns a slot static nor makes one dynamic that was not, and the
      slots that are not registered keep their words. */
  lemma CollectedBarrier(h: Heap, g: Spaces, fwd: Forwarding, h': Heap)
    requires h.WellFormed() && h.Barrier() && CollectedTo(h, g, fwd, h')
    ensures h'.Barrier() && h'.Unregistered() == h.Unregistered()
    ensures forall s | s in h.Unregistered() :: s in h'.statics && h'.statics[s] == h.statics[s]
  {
    hide Obj.ByteSize, Obj.WellShaped, Heap.ObjectAt, ReachedFromAny, IsCopy, Apart;
    forall s | s in h.statics
      ensures h'.InStatic(h'.statics[s]) <==> h.InStatic(h.statics[s])
      ensures h'.statics[s] in h'.mem ==> h.statics[s] in h.mem
      ensures h.statics[s] !in h.mem ==> h'.statics[s] == h.statics[s]
    {
      assert Redirected(g, fwd, h.statics[s], h'.statics[s]);
      var v := h.statics[s];
      if v in h.mem {
        MemInside(h, v);
        assert g.InNewSpace(fwd[v]);
      } else {
        NotACopy(g, fwd, h'.mem, v);
      }
    }
  }

  /** A word that was no object of the old half is none of the new half either. */
  lemma NotACopy(g: Spaces, fwd: Forwarding, copied: Mem, v: Word)
    requires Moved(g, fwd, copied) && g.ValidWord(v) && v !in g.from
    ensures v !in copied
  {
    hide Moved;
    if v in copied { CopyAddress(g, fwd, copied, v); }
  }

  lemma CopyAddress(g: Spaces, fwd: Forwarding, copied: Mem, c: Addr)
    requires Moved(g, fwd, copied) && c in copied
    ensures g.InNewSpace(c) && c % WORD_BYTES == 0
  {
    hide IsCopy, Spaces.InNewSpace;
    var a :| a in fwd && fwd[a] == c;
  }

  /** After a collection the used part of the half is exactly the live bytes. */
  lemma CollectedLiveBytes(h: Heap, g: Spaces, fwd: Forwarding, h': Heap, mem1: Mem)
    requires CollectedTo(h, g, fwd, h') && h'.lo <= h'.hi
    requires Counted(g, mem1, fwd, h'.lo) && Tiled(g, fwd, h'.lo)
    ensures h'.hi - h'.lo == h.LiveBytes() == h'.LiveBytes()
  {
    CollectedLive(h, g, fwd, h');
    CopiesFill(g, mem1, fwd, h'.lo, h'.mem);
    CopiesLive(h, g, fwd, h');
    hide Covered, Heap.LiveSet, Moved, Redirected, ReachedFromAny, Tiled;
  }

  lemma CopiesLive(h: Heap, g: Spaces, fwd: Forwarding, h': Heap)
    requires CollectedTo(h, g, fwd, h')
    ensures h'.LiveSet() == h'.mem.Keys
  {
    CollectedLive(h, g, fwd, h');
    forall c | c in h'.mem
      ensures h'.Live(c)
    {
      var a := ObjectOfCopy(h, g, fwd, h', c);
      CopyIsLive(h, g, fwd, h', a);
    }
  }

  lemma CopyIsLive(h: Heap, g: Spaces, fwd: Forwarding, h': Heap, a: Addr)
    requires CollectedTo(h, g, fwd, h') && a in h.LiveSet() && a in fwd && fwd[a] in h'.mem
    ensures h'.Live(fwd[a])
  {
    hide Moved, Settled, ReachedFromAny;
    var r :| r in h.Roots() && Reaches(h.mem, h.Roots()[r], a);
    assert r in h'.Roots() && Redirected(g, fwd, h.Roots()[r], h'.Roots()[r]);
    var path :| Follow(h.mem, h.Roots()[r], path) == Some(a);
    FollowMoved(g, fwd, h'.mem, h.Roots()[r], path);
    assert Follow(h'.mem, h'.Roots()[r], path) == Some(fwd[a]);
  }

  /** What the traversal of the roots needs. */
  ghost predicate Ready(g: Spaces, staticRoots: seq<Addr>, statics: map<Addr, Word>, externals: seq<Word>,
                        words: set<Word>) {
    && (forall i, j | 0 <= i < j < |staticRoots| :: staticRoots[i] != staticRoots[j])
    && (forall i | 0 <= i < |staticRoots| ::
          staticRoots[i] in statics && g.ValidWord(statics[staticRoots[i]]) && statics[staticRoots[i]] in words)
    && (forall i | 0 <= i < |externals| :: g.ValidWord(externals[i]) && externals[i] in words)
  }

  /** The registered static slots and the external pointers have been updated; no other
      static slot has. */
  ghost predicate RootsMoved(g: Spaces, fwd: Forwarding, staticRoots: seq<Addr>,
                             statics: map<Addr, Word>, statics': map<Addr, Word>,
                             externals: seq<Word>, externals': seq<Word>) {
    && statics'.Keys == statics.Keys && |externals'| == |externals|
    && (forall s | s in staticRoots :: s in statics && Redirected(g, fwd, statics[s], statics'[s]))
    && (forall s | s in statics && s !in staticRoots :: statics'[s] == statics[s])
    && (forall i | 0 <= i < |externals| :: Redirected(g, fwd, externals[i], externals'[i]))
  }

  /** The start of a collection: nothing is entered, and every root is a valid word. */
  lemma PrepareCollection(h: Heap, g: Spaces)
    requires h.WellFormed() && h.Barrier() && g == CollectionOf(h, g.toLo, g.toHi) && Target(h, g.toLo, g.toHi)
    ensures Inv(g, h.mem, map[], [], g.toHi)
    ensures Ready(g, h.staticRoots, h.statics, h.externals, RootWords(h))
  {
    CollectionValid(h, g.toLo, g.toHi);
    StartCollection(g);
    hide Obj.ByteSize, Obj.WellShaped, Apart, Spaces.ValidWord, Inv, Heap.ObjectAt, Heap.GoodWord, Target;
    forall i | 0 <= i < |h.staticRoots|
      ensures h.staticRoots[i] in h.statics && g.ValidWord(h.statics[h.staticRoots[i]])
    {
      assert h.staticRoots[i] in h.staticRoots;
      GoodIsValid(h, g.toLo, g.toHi, h.statics[h.staticRoots[i]]);
    }
    forall i | 0 <= i < |h.externals|
      ensures g.ValidWord(h.externals[i])
    {
      GoodIsValid(h, g.toLo, g.toHi, h.externals[i]);
    }
  }

  /** A slot that is not registered holds no object and needs no update. */
  lemma StaticsMoved(h: Heap, g: Spaces, fwd: Forwarding, statics': map<Addr, Word>, externals': seq<Word>, s: Addr)
    requires h.WellFormed() && h.Barrier() && g == CollectionOf(h, g.toLo, g.toHi) && Target(h, g.toLo, g.toHi)
    requires RootsMoved(g, fwd, h.staticRoots, h.statics, statics', h.externals, externals') && fwd.Keys <= h.mem.Keys
    requires s in h.statics
    ensures Redirected(g, fwd, h.statics[s], statics'[s])
  {
    if s !in h.staticRoots {
      assert h.statics[s] !in h.mem;
      GoodIsValid(h, g.toLo, g.toHi, h.statics[s]);
    }
  }

  lemma FinishCollection(h: Heap, g: Spaces, fwd: Forwarding, mem1: Mem, statics': map<Addr, Word>,
                         externals': seq<Word>, h': Heap)
    requires h.WellFormed() && h.Barrier() && g == CollectionOf(h, g.toLo, g.toHi) && Target(h, g.toLo, g.toHi)
    requires Inv(g, mem1, fwd, [], h'.lo)
    requires RootsMoved(g, fwd, h.staticRoots, h.statics, statics', h.externals, externals')
    requires forall a | a in fwd :: ReachedFromAny(g.from, RootWords(h), a)
    requires h' == h.(mem := map a | a in mem1 && a !in g.from :: mem1[a], lo := h'.lo, hi := g.toHi,
                      statics := statics', externals := externals')
    ensures CollectedTo(h, g, fwd, h') && SameHeapGraph(h, h') && fwd.Keys == h.LiveSet()
    ensures h'.WellFormed() && h'.Barrier() && g.toLo <= h'.lo <= g.toHi
    ensures h'.hi - h'.lo == h.LiveBytes() == h'.LiveBytes()
  {
    MovedAtRest(g, mem1, fwd, h'.lo);
    AtRest(g, mem1, fwd, h'.lo);
    assert CollectedTo(h, g, fwd, h') by {
      hide Moved, Heap.WellFormed, Heap.Barrier, Inv, Redirected, ReachedFromAny, Placed, Counted, Tiled;
      forall s | s in h.statics
        ensures Redirected(g, fwd, h.statics[s], statics'[s])
      {
        StaticsMoved(h, g, fwd, statics', externals', s);
      }
    }
    hide *;
    CollectedSameGraph(h, g, fwd, h');
    CollectedLive(h, g, fwd, h');
    CollectedWellFormed(h, g, fwd, h');
    CollectedBarrier(h, g, fwd, h');
    CollectedLiveBytes(h, g, fwd, h', mem1);
  }

  lemma AtRest(g: Spaces, mem: Mem, fwd: Forwarding, ptr: Addr)
    requires Inv(g, mem, fwd, [], ptr)
    ensures Placed(g, fwd, ptr) && Counted(g, mem, fwd, ptr) && Tiled(g, fwd, ptr)
    ensures fwd.Keys <= g.from.Keys && g.toLo <= ptr <= g.toHi
  {
  }

  lemma NewHalfAddress(g: Spaces, mem: Mem, fwd: Forwarding, ptr: Addr, a: Addr)
    requires Inv(g, mem, fwd, [], ptr) && a in mem && a !in g.from
    ensures g.InNewSpace(a)
  {
    hide OldHalf, NewHalf, Finished, Threaded, Placed, Spaces.Valid, Spaces.InNewSpace;
    AtRestKeys(g, mem, fwd, ptr);
  }

  /** Clearing the old half leaves exactly the copies. */
  lemma OldHalfCleared(h: Heap, g: Spaces, fwd: Forwarding, mem1: Mem, ptr: Addr, base: Addr, top: Addr)
    requires h.WellFormed() && g == CollectionOf(h, g.toLo, g.toHi) && Inv(g, mem1, fwd, [], ptr)
    requires base <= h.lo && h.hi == top && (g.toHi <= base || top <= g.toLo)
    ensures (map a | a in mem1 && !(base <= a < top) :: mem1[a]) == (map a | a in mem1 && a !in g.from :: mem1[a])
  {
    hide Inv, Heap.WellFormed;
    forall a | a in mem1
      ensures a in g.from <==> base <= a < top
    {
      if a in g.from {
        MemInside(h, a);
      } else {
        NewHalfAddress(g, mem1, fwd, ptr, a);
      }
    }
  }

  /** Clearing the half that everything live has left finishes the collection. */
  lemma ClearingFinishes(h: Heap, g: Spaces, fwd: Forwarding, mem1: Mem, base: Addr, top: Addr,
                         statics': map<Addr, Word>, externals': seq<Word>, h': Heap)
    requires h.WellFormed() && h.Barrier() && g == CollectionOf(h, g.toLo, g.toHi) && Target(h, g.toLo, g.toHi)
    requires Inv(g, mem1, fwd, [], h'.lo)
    requires RootsMoved(g, fwd, h.staticRoots, h.statics, statics', h.externals, externals')
    requires forall a | a in fwd :: ReachedFromAny(g.from, RootWords(h), a)
    requires base <= h.lo && h.hi == top && (g.toHi <= base || top <= g.toLo)
    requires h' == h.(mem := map a | a in mem1 && !(base <= a < top) :: mem1[a], lo := h'.lo, hi := g.toHi,
                      statics := statics', externals := externals')
    ensures CollectedTo(h, g, fwd, h') && SameHeapGraph(h, h') && fwd.Keys == h.LiveSet()
    ensures h'.WellFormed() && h'.Barrier() && g.toLo <= h'.lo <= g.toHi
    ensures h'.hi - h'.lo == h.LiveBytes() == h'.LiveBytes()
  {
    hide *;
    OldHalfCleared(h, g, fwd, mem1, h'.lo, base, top);
    FinishCollection(h, g, fwd, mem1, statics', externals', h');
  }

  lemma GraphUnchanged(h: Heap)
    ensures SameHeapGraph(h, h)
  {
  }

  lemma GraphChain(h: Heap, h': Heap, h'': Heap)
    requires SameHeapGraph(h, h') && SameHeapGraph(h', h'')
    ensures SameHeapGraph(h, h'')
  {
    SameGraphTransitive(h.mem, h.Roots(), h'.mem, h'.Roots(), h''.mem, h''.Roots());
  }

  /** Moving the bounds of the used part around the same objects changes nothing. */
  lemma Rebounded(h: Heap, h': Heap)
    requires h.WellFormed() && h' == h.(lo := h'.lo, hi := h'.hi)
    requires 0 < h'.lo <= h.lo && h.hi <= h'.hi && h'.lo % WORD_BYTES == 0 && h'.hi % WORD_BYTES == 0
    requires h'.hi <= h.staticLo || h.staticHi <= h'.lo
    ensures h'.WellFormed() && (h.Barrier() ==> h'.Barrier()) && SameHeapGraph(h, h')
    ensures h'.LiveBytes() == h.LiveBytes()
  {
    ReboundedWellFormed(h, h');
    LiveRebounded(h, h');
    ReboundedRoots(h, h');
    hide Heap.WellFormed, Heap.LiveSet, Covered, SameHeapGraph, Heap.Barrier;
  }

  lemma ReboundedRoots(h: Heap, h': Heap)
    requires h' == h.(lo := h'.lo, hi := h'.hi)
    ensures SameHeapGraph(h, h') && (h.Barrier() ==> h'.Barrier())
  {
    assert h'.Roots() == h.Roots();
  }

  lemma ReboundedWellFormed(h: Heap, h': Heap)
    requires h.WellFormed() && h' == h.(lo := h'.lo, hi := h'.hi)
    requires 0 < h'.lo <= h.lo && h.hi <= h'.hi && h'.lo % WORD_BYTES == 0 && h'.hi % WORD_BYTES == 0
    requires h'.hi <= h.staticLo || h.staticHi <= h'.lo
    ensures h'.WellFormed()
  {
    hide Obj.ByteSize, Obj.WellShaped, Apart;
    forall a | a in h'.mem ensures h'.ObjectAt(a) { assert h.ObjectAt(a); }
  }

  lemma LiveRebounded(h: Heap, h': Heap)
    requires h.WellFormed() && h' == h.(lo := h'.lo, hi := h'.hi) && h'.lo <= h.lo && h.hi <= h'.hi
    ensures h'.LiveSet() == h.LiveSet()
    ensures Covered(h.mem, h.LiveSet(), h.lo, h.hi) == Covered(h'.mem, h'.LiveSet(), h'.lo, h'.hi)
  {
    hide Heap.LiveSet, Obj.ByteSize, Heap.WellFormed;
    SameLive(h, h');
    var live := h.LiveSet();
    forall x, a | a in live && Occupies(h.mem, a, x)
      ensures h.lo <= x < h.hi
    {
      MemInside(h, a);
    }
    forall x
      ensures x in Covered(h.mem, live, h.lo, h.hi) <==> x in Covered(h.mem, live, h'.lo, h'.hi)
    {
      assert Within(x, h.lo, h.hi) ==> Within(x, h'.lo, h'.hi);
    }
  }

  lemma SameLive(h: Heap, h': Heap)
    requires h' == h.(lo := h'.lo, hi := h'.hi)
    ensures h'.LiveSet() == h.LiveSet()
  {
    hide Heap.Roots, Reaches;
    RootsOfFields(h, h');
    assert forall a :: h.Live(a) <==> h'.Live(a);
  }

  /** A block below the used part overlaps no object. */
  lemma BelowIsFree(h: Heap, at: Addr, size: nat)
    requires h.WellFormed() && at + size <= h.lo
    ensures forall a | a in h.mem :: Apart(at, size, a, h.mem[a].ByteSize())
  {
    hide Obj.ByteSize;
    forall a | a in h.mem
      ensures Apart(at, size, a, h.mem[a].ByteSize())
    {
      MemInside(h, a);
    }
  }

  lemma LiveFits(h: Heap)
    requires h.WellFormed()
    ensures h.LiveBytes() <= h.hi - h.lo
  {
    hide Heap.WellFormed, Covered, Heap.LiveSet;
    assert h.lo <= h.hi by { Bounds(h); }
    CoveredWithin(h.mem, h.LiveSet(), h.lo, h.hi);
    IntervalSize(h.lo, h.hi);
    Contained(Covered(h.mem, h.LiveSet(), h.lo, h.hi), Interval(h.lo, h.hi));
  }

  lemma Bounds(h: Heap)
    requires h.WellFormed()
    ensures 0 < h.lo <= h.hi
  {
  }

  // ---- Changing roots and adding objects.

  function RemoveFirst(s: seq<Addr>, x: Addr): seq<Addr> {
    if s == [] then [] else if s[0] == x then s[1..] else [s[0]] + RemoveFirst(s[1..], x)
  }

  ghost predicate Distinct(s: seq<Addr>) {
    forall i, j | 0 <= i < j < |s| :: s[i] != s[j]
  }

  lemma {:induction false} RemoveFirstAt(s: seq<Addr>, k: nat)
    requires k < |s| && s[k] !in s[..k]
    ensures RemoveFirst(s, s[k]) == s[..k] + s[k + 1..]
  {
    if k == 0 {
    } else {
      assert s[0] in s[..k];
      assert s[1..][k - 1] == s[k] && s[1..][..k - 1] == s[..k][1..];
      RemoveFirstAt(s[1..], k - 1);
      assert [s[0]] + (s[1..][..k - 1] + s[1..][k..]) == s[..k] + s[k + 1..];
    }
  }

  lemma {:induction false} RemoveFirstAbsent(s: seq<Addr>, x: Addr)
    requires x !in s
    ensures RemoveFirst(s, x) == s
  {
    if s != [] { RemoveFirstAbsent(s[1..], x); }
  }

  /** In a list without repetitions exactly the one member goes. */
  lemma {:induction false} RemoveFirstMembers(s: seq<Addr>, x: Addr)
    requires Distinct(s)
    ensures Distinct(RemoveFirst(s, x))
    ensures forall y :: y in RemoveFirst(s, x) <==> y in s && y != x
  {
    if s != [] {
      RemoveFirstMembers(s[1..], x);
      if s[0] == x {
        assert s == [x] + s[1..];
      } else {
        var rest := RemoveFirst(s[1..], x);
        assert s[0] !in s[1..];
        forall j | 0 <= j < |rest|
          ensures rest[j] != s[0]
        {
          assert rest[j] in s[1..];
        }
      }
    }
  }

  /** What the write barrier makes of the registered slots before `value` goes into `slot`. */
  function Registered(h: Heap, slot: Addr, value: Word): seq<Addr> {
    if !h.InStatic(slot) || slot !in h.statics then h.staticRoots
    else if !h.InStatic(value) && h.InStatic(h.statics[slot]) then [slot] + h.staticRoots
    else if h.InStatic(value) && !h.InStatic(h.statics[slot]) then RemoveFirst(h.staticRoots, slot)
    else h.staticRoots
  }

  /** The store that the barrier overlooks: the slot holds the SmallInteger or the null that
      an image put there, so it was never registered, and now gets a dynamic object. */
  predicate Loses(h: Heap, slot: Addr, value: Word) {
    slot in h.Unregistered() && value in h.mem
  }

  /** The heap after a barriered store into a static slot. */
  function Stored(h: Heap, slot: Addr, value: Word): Heap {
    h.(staticRoots := Registered(h, slot, value), statics := h.statics[slot := value])
  }

  /** A barriered store into a static slot keeps every object of a static slot registered
      exactly if it is not the store that the barrier overlooks. */
  lemma StoreKeepsBarrier(h: Heap, slot: Addr, value: Word)
    requires h.WellFormed() && h.Barrier() && slot in h.statics
    ensures Stored(h, slot, value).Barrier() <==> !Loses(h, slot, value)
  {
    NoneStatic(h, value);
    RegisteredMembers(h, slot, value);
    hide Heap.WellFormed, Registered;
    var h' := Stored(h, slot, value);
    if Loses(h, slot, value) {
      assert h'.statics[slot] in h'.mem && slot !in h'.staticRoots;
    }
  }

  /** A slot that is not registered stays so until a static address goes there; no store
      makes another slot unregistered. */
  lemma StoredUnregistered(h: Heap, slot: Addr, value: Word)
    requires h.Barrier() && slot in h.statics
    ensures Stored(h, slot, value).Unregistered() ==
            if h.InStatic(value) then h.Unregistered() - {slot} else h.Unregistered()
  {
    RegisteredMembers(h, slot, value);
    hide Registered;
  }

  /** The bookkeeping knows exactly the slots without a static address when it misses none. */
  lemma RegisteredIff(h: Heap)
    requires h.Barrier()
    ensures Distinct(h.staticRoots)
    ensures h.Unregistered() == {} <==>
            forall s | s in h.statics :: s in h.staticRoots <==> !h.InStatic(h.statics[s])
  {
    forall s | s in h.statics
      ensures s in h.Unregistered() <==> !(s in h.staticRoots <==> !h.InStatic(h.statics[s]))
    {
    }
  }

  /** Heaps that look alike and register the same slots miss the same slots. */
  lemma SameUnregistered(h: Heap, h': Heap)
    requires SameHeapGraph(h, h') && h.WellFormed() && h'.WellFormed()
    requires h'.staticLo == h.staticLo && h'.staticHi == h.staticHi && h'.staticRoots == h.staticRoots
    ensures h'.Unregistered() == h.Unregistered()
  {
    SameKeys(h, h');
    hide SameHeapGraph, Heap.WellFormed, Heap.Roots;
    forall s
      ensures s in h.Unregistered() <==> s in h'.Unregistered()
    {
      RootCases(h, StaticSlot(s));
      RootCases(h', StaticSlot(s));
      if s in h.statics { StaticAlike(h, h', StaticSlot(s)); }
    }
  }

  /** What a root holds in two heaps that look alike: objects on both sides, or the same word. */
  lemma StaticAlike(h: Heap, h': Heap, r: Root)
    requires SameHeapGraph(h, h') && r in h.Roots() && h.WellFormed() && h'.WellFormed()
    requires h'.staticLo == h.staticLo && h'.staticHi == h.staticHi
    ensures r in h'.Roots() && (h.InStatic(h.Roots()[r]) <==> h'.InStatic(h'.Roots()[r]))
  {
    WordAlike(h, h', r);
    NoneStatic(h, h.Roots()[r]);
    NoneStatic(h', h'.Roots()[r]);
    hide SameHeapGraph, Heap.WellFormed, Heap.Roots;
  }

  lemma WordAlike(h: Heap, h': Heap, r: Root)
    requires SameHeapGraph(h, h') && r in h.Roots()
    ensures r in h'.Roots() && (h.Roots()[r] in h.mem <==> h'.Roots()[r] in h'.mem)
    ensures h.Roots()[r] !in h.mem ==> h.Roots()[r] == h'.Roots()[r]
  {
    hide Heap.Roots;
    assert Look(h.mem, Walk(h.mem, h.Roots(), r, [])) == Look(h'.mem, Walk(h'.mem, h'.Roots(), r, []));
  }

  lemma RegisteredMembers(h: Heap, slot: Addr, value: Word)
    requires h.Barrier() && slot in h.statics
    ensures Distinct(Registered(h, slot, value))
    ensures forall s :: s != slot ==> (s in Registered(h, slot, value) <==> s in h.staticRoots)
    ensures slot in Registered(h, slot, value) <==>
            !h.InStatic(value) && (h.InStatic(h.statics[slot]) || slot in h.staticRoots)
  {
    RemoveFirstMembers(h.staticRoots, slot);
    hide RemoveFirst;
  }

  lemma NoneStatic(h: Heap, v: Word)
    requires h.WellFormed()
    ensures h.InStatic(v) ==> v !in h.mem
  {
    hide Obj.ByteSize, Obj.WellShaped, Heap.ObjectAt, Apart, Heap.GoodWord;
    if v in h.mem { MemInside(h, v); }
  }

  /** A slot that is not registered keeps its word through a collection while the object
      behind it moves or goes: no slot may be overlooked, or the graph is lost. */
  lemma OverlookedIsLost(h: Heap, g: Spaces, fwd: Forwarding, mem1: Mem, h': Heap, s: Addr)
    requires h.WellFormed() && g == CollectionOf(h, g.toLo, g.toHi) && Inv(g, mem1, fwd, [], h'.lo)
    requires RootsMoved(g, fwd, h.staticRoots, h.statics, h'.statics, h.externals, h'.externals)
    requires h'.mem == map a | a in mem1 && a !in g.from :: mem1[a]
    requires s in h.statics && s !in h.staticRoots && h.statics[s] in h.mem
    ensures h'.statics[s] == h.statics[s] && !SameHeapGraph(h, h')
  {
    hide Inv, Heap.WellFormed, Redirected;
    var r := StaticSlot(s);
    RootCases(h, r);
    RootCases(h', r);
    hide Heap.Roots;
    assert Look(h.mem, Walk(h.mem, h.Roots(), r, [])) != Look(h'.mem, Walk(h'.mem, h'.Roots(), r, []));
  }

  /** A heap in which that happens: the static slot 1000 holds the SmallInteger 5, and an
      object is stored there and then released.  It is live, but the collector, which starts
      from nothing, does not find it. */
  lemma StoreLosesObject() returns (h: Heap)
    ensures h.WellFormed() && h.Barrier() && h.externals == [4000] && Loses(h, 1000, 4000)
    ensures var after := Stored(h, 1000, 4000).(externals := []); 4000 in after.LiveSet() && RootWords(after) == {}
  {
    hide Heap.Live, Heap.LiveSet, Heap.WellFormed;
    h := OneObject();
    OneObjectGood();
    SlotMakesLive(Stored(h, 1000, 4000).(externals := []), 1000);
  }

  function OneObject(): Heap {
    Heap(map[4000 := Obj(0, false, false, [0], [])], 4000, 4008, map[1000 := 5], 1000, 2000, [], [4000])
  }

  lemma OneObjectGood()
    ensures OneObject().WellFormed()
  {
    assert OneObject().ObjectAt(4000);
  }

  lemma SlotMakesLive(h: Heap, s: Addr)
    requires s in h.statics && h.statics[s] in h.mem
    ensures h.statics[s] in h.LiveSet()
  {
    var r := StaticSlot(s);
    RootCases(h, r);
    assert Follow(h.mem, h.Roots()[r], []) == Some(h.statics[s]);
    assert h.Live(h.statics[s]);
  }

  lemma StoreWellFormed(h: Heap, slot: Addr, value: Word, roots: seq<Addr>)
    requires h.WellFormed() && h.GoodWord(value)
    ensures h.(staticRoots := roots, statics := h.statics[slot := value]).WellFormed()
  {
    hide Obj.ByteSize, Obj.WellShaped, Apart;
    var h' := h.(staticRoots := roots, statics := h.statics[slot := value]);
    forall a | a in h'.mem ensures h'.ObjectAt(a) { assert h.ObjectAt(a); }
  }

  lemma ExternalsWellFormed(h: Heap, externals: seq<Word>)
    requires h.WellFormed() && forall i | 0 <= i < |externals| :: h.GoodWord(externals[i])
    ensures h.(externals := externals).WellFormed() && (h.Barrier() ==> h.(externals := externals).Barrier())
  {
    hide Obj.ByteSize, Obj.WellShaped, Apart;
    var h' := h.(externals := externals);
    forall a | a in h'.mem ensures h'.ObjectAt(a) { assert h.ObjectAt(a); }
  }

  lemma ExternalsGood(h: Heap)
    requires h.WellFormed()
    ensures forall i | 0 <= i < |h.externals| :: h.GoodWord(h.externals[i])
  {
  }

  lemma SetDataShape(o: Obj, i: nat, value: Word)
    requires i < |o.data|
    ensures o.SetData(i, value).ByteSize() == o.ByteSize() && (o.SetData(i, value).WellShaped() <==> o.WellShaped())
  {
  }

  lemma FieldWellFormed(h: Heap, a: Addr, i: nat, value: Word)
    requires h.WellFormed() && h.GoodWord(value) && a in h.mem && i < |h.mem[a].data|
    ensures h.(mem := h.mem[a := h.mem[a].SetData(i, value)]).WellFormed()
    ensures h.Barrier() ==> h.(mem := h.mem[a := h.mem[a].SetData(i, value)]).Barrier()
  {
    hide Obj.ByteSize, Apart, Obj.WellShaped;
    var h' := h.(mem := h.mem[a := h.mem[a].SetData(i, value)]);
    SetDataShape(h.mem[a], i, value);
    forall b | b in h'.mem ensures h'.ObjectAt(b) { assert h.ObjectAt(b); }
  }

  lemma BytesWellFormed(h: Heap, a: Addr, i: nat, value: Byte)
    requires h.WellFormed() && a in h.mem && i < |h.mem[a].bytes|
    ensures h.(mem := h.mem[a := h.mem[a].SetByte(i, value)]).WellFormed()
    ensures h.Barrier() ==> h.(mem := h.mem[a := h.mem[a].SetByte(i, value)]).Barrier()
  {
    hide Apart;
    var h' := h.(mem := h.mem[a := h.mem[a].SetByte(i, value)]);
    assert h.mem[a].SetByte(i, value).ByteSize() == h.mem[a].ByteSize();
    forall b | b in h'.mem ensures h'.ObjectAt(b) { assert h.ObjectAt(b); }
  }

  /** A new object in a free block. */
  lemma AddWellFormed(h: Heap, a: Addr, o: Obj)
    requires h.WellFormed() && a !in h.mem && o.WellShaped() && a % WORD_BYTES == 0
    requires h.lo <= a && a + o.ByteSize() <= h.hi
    requires forall b | b in h.mem :: Apart(a, o.ByteSize(), b, h.mem[b].ByteSize())
    requires forall i | 0 <= i < |o.data| :: h.GoodWord(o.data[i])
    ensures h.(mem := h.mem[a := o]).WellFormed() && (h.Barrier() ==> h.(mem := h.mem[a := o]).Barrier())
  {
    hide Obj.ByteSize, Obj.WellShaped, Heap.Barrier, Apart, Heap.ObjectAt, Heap.GoodWord;
    var h' := h.(mem := h.mem[a := o]);
    if h.Barrier() { AddKeepsBarrier(h, a, o); }
    AddedItself(h, a, o);
    forall b | b in h'.mem ensures h'.ObjectAt(b) { if b != a { AddedObject(h, a, o, b); } }
    forall s | s in h'.statics ensures h'.GoodWord(h'.statics[s]) { AddedGood(h, a, o, h.statics[s]); }
    forall i | 0 <= i < |h'.externals| ensures h'.GoodWord(h'.externals[i]) { AddedGood(h, a, o, h.externals[i]); }
    forall b | b in h.mem
      ensures Apart(b, h.mem[b].ByteSize(), a, o.ByteSize())
    {
      ApartBoth(a, o.ByteSize(), b, h.mem[b].ByteSize());
    }
  }

  lemma ApartBoth(a: Addr, n: nat, b: Addr, m: nat)
    requires Apart(a, n, b, m)
    ensures Apart(b, m, a, n)
  {
  }

  lemma AddedGood(h: Heap, a: Addr, o: Obj, v: Word)
    requires h.GoodWord(v)
    ensures h.(mem := h.mem[a := o]).GoodWord(v)
  {
  }

  lemma AddedItself(h: Heap, a: Addr, o: Obj)
    requires o.WellShaped() && a % WORD_BYTES == 0 && h.lo <= a && a + o.ByteSize() <= h.hi
    requires forall i | 0 <= i < |o.data| :: h.GoodWord(o.data[i])
    ensures h.(mem := h.mem[a := o]).ObjectAt(a)
  {
    hide Obj.ByteSize, Obj.WellShaped;
  }

  lemma AddedObject(h: Heap, a: Addr, o: Obj, b: Addr)
    requires h.WellFormed() && b in h.mem && a != b
    ensures h.(mem := h.mem[a := o]).ObjectAt(b)
  {
    hide Obj.ByteSize, Obj.WellShaped, Apart;
    assert h.ObjectAt(b);
  }

  lemma AddKeepsBarrier(h: Heap, a: Addr, o: Obj)
    requires h.WellFormed() && h.Barrier() && a !in h.mem && a % WORD_BYTES == 0
    requires h.lo <= a && a + o.ByteSize() <= h.hi
    ensures h.(mem := h.mem[a := o]).Barrier()
  {
    assert a < a + o.ByteSize();
    forall s | s in h.statics
      ensures h.statics[s] != a
    {
      StaticGood(h, s);
      NotNew(h, a, h.statics[s]);
    }
    hide Heap.WellFormed;
  }

  lemma StaticGood(h: Heap, s: Addr)
    requires h.WellFormed() && s in h.statics
    ensures h.GoodWord(h.statics[s])
  {
    hide Obj.ByteSize, Obj.WellShaped, Apart, Heap.ObjectAt, Heap.GoodWord;
  }

  /** Nothing that was there before leads to a new object. */
  lemma {:induction false} FollowPastNew(h: Heap, a: Addr, o: Obj, v: Word, path: seq<nat>)
    requires h.WellFormed() && a !in h.mem && h.lo <= a < h.hi && a % WORD_BYTES == 0 && h.GoodWord(v)
    ensures Follow(h.mem[a := o], v, path) == Follow(h.mem, v, path)
    ensures Follow(h.mem, v, path).Some? ==> Follow(h.mem, v, path).value != a
    decreases |path|
  {
    assert v != a by { NotNew(h, a, v); }
    hide Obj.ByteSize, Obj.WellShaped, Apart, Heap.GoodWord;
    if path != [] && v in h.mem && path[0] < |h.mem[v].data| {
      assert h.ObjectAt(v);
      FollowPastNew(h, a, o, h.mem[v].data[path[0]], path[1..]);
    }
  }

  lemma NotNew(h: Heap, a: Addr, v: Word)
    requires h.WellFormed() && a !in h.mem && h.lo <= a < h.hi && a % WORD_BYTES == 0 && h.GoodWord(v)
    ensures v != a
  {
    hide Obj.ByteSize, Obj.WellShaped, Apart, Heap.ObjectAt;
  }

  lemma AddSameGraph(h: Heap, a: Addr, o: Obj)
    requires h.WellFormed() && a !in h.mem && h.lo <= a < h.hi && a % WORD_BYTES == 0
    ensures SameHeapGraph(h, h.(mem := h.mem[a := o]))
  {
    hide Heap.WellFormed, Heap.Roots, Look;
    var h' := h.(mem := h.mem[a := o]);
    RootsOfFields(h, h');
    forall r, p | r in h.Roots()
      ensures Walk(h'.mem, h'.Roots(), r, p) == Walk(h.mem, h.Roots(), r, p)
      ensures Look(h'.mem, Walk(h'.mem, h'.Roots(), r, p)) == Look(h.mem, Walk(h.mem, h.Roots(), r, p))
    {
      RootGood(h, r);
      FollowPastNew(h, a, o, h.Roots()[r], p);
      LookPastNew(h.mem, a, o, Walk(h.mem, h.Roots(), r, p));
    }
  }

  lemma RootsOfFields(h: Heap, h': Heap)
    requires h'.statics == h.statics && h'.externals == h.externals
    ensures h'.Roots() == h.Roots()
  {
  }

  lemma LookPastNew(m: Mem, a: Addr, o: Obj, w: Option<Word>)
    requires w != Some(a)
    ensures Look(m[a := o], w) == Look(m, w)
  {
  }

  lemma RootGood(h: Heap, r: Root)
    requires h.WellFormed() && r in h.Roots()
    ensures h.GoodWord(h.Roots()[r])
  {
    hide Heap.WellFormed, Heap.Roots, Heap.GoodWord;
    RootCases(h, r);
    if r.StaticSlot? { StaticGood(h, r.slot); } else { ExternalsGood(h); }
  }

  lemma SameKeys(h: Heap, h': Heap)
    requires SameHeapGraph(h, h')
    ensures h.Roots().Keys == h'.Roots().Keys
  {
  }

  lemma RootCases(h: Heap, r: Root)
    ensures r in h.Roots() <==> if r.StaticSlot? then r.slot in h.statics else r.index < |h.externals|
    ensures r in h.Roots() ==> h.Roots()[r] == if r.StaticSlot? then h.statics[r.slot] else h.externals[r.index]
  {
  }
}
