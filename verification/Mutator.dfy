/** What the running program does with the heap, and the heap it believes it works on: one
    that is never collected, never moves anything and never runs out of addresses. */
module Mutators {
  import opened Memory
  import opened Heaps

  /** One request of the running program; it names roots, since addresses do not last. */
  datatype Op =
    | Collect
    | Create(klass: Root, fieldsCount: nat)
    | CreateBytes(klass: Root, dataSize: nat)
    | Assign(slot: Addr, source: Root)
    | Put(target: Root, index: nat, source: Root)
    | PutByte(target: Root, index: nat, value: Byte)
    | Fetch(source: Root, index: nat)
    | Hold(source: Root)
    | Release

  predicate Names(statics: map<Addr, Word>, externals: seq<Word>, r: Root) {
    if r.StaticSlot? then r.slot in statics else r.index < |externals|
  }

  function Named(statics: map<Addr, Word>, externals: seq<Word>, r: Root): Word
    requires Names(statics, externals, r)
  {
    if r.StaticSlot? then statics[r.slot] else externals[r.index]
  }

  /** The operation is a store that the barrier overlooks: a dynamic object goes into one of
      the slots that it does not know of. */
  predicate Overlooked(h: Heap, unseen: set<Addr>, op: Op) {
    && op.Assign? && op.slot in unseen && Names(h.statics, h.externals, op.source)
    && Named(h.statics, h.externals, op.source) in h.mem
  }

  /** The slots it does not know of after the operation: one that gets a static address is seen from then on. */
  function Unseen(h: Heap, unseen: set<Addr>, op: Op): set<Addr> {
    if op.Assign? && op.slot in h.statics && Names(h.statics, h.externals, op.source)
       && h.InStatic(Named(h.statics, h.externals, op.source))
    then unseen - {op.slot}
    else unseen
  }

  function OrdinaryObject(klass: Word, fieldsCount: nat, nilObject: Word): Obj {
    Obj(fieldsCount, false, false, [klass] + seq(fieldsCount, _ => nilObject), [])
  }

  function BinaryObject(klass: Word, dataSize: nat): Obj {
    Obj(dataSize, true, false, [klass], seq(dataSize, _ => 0))
  }

  /** The heap with one more external pointer. */
  function Holding(h: Heap, w: Word): Heap {
    h.(externals := [w] + h.externals)
  }

  /** The field named by a root and an index. */
  predicate HasField(h: Heap, target: Root, index: nat) {
    && Names(h.statics, h.externals, target)
    && Named(h.statics, h.externals, target) in h.mem
    && index < |h.mem[Named(h.statics, h.externals, target)].data|
  }

  /** The byte named by a root and an index. */
  predicate HasByte(h: Heap, target: Root, index: nat) {
    && Names(h.statics, h.externals, target)
    && Named(h.statics, h.externals, target) in h.mem
    && index < |h.mem[Named(h.statics, h.externals, target)].bytes|
  }

  function WithByte(h: Heap, a: Addr, index: nat, value: Byte): Heap
    requires a in h.mem && index < |h.mem[a].bytes|
  {
    h.(mem := h.mem[a := h.mem[a].SetByte(index, value)])
  }

  function WithField(h: Heap, a: Addr, index: nat, value: Word): Heap
    requires a in h.mem && index < |h.mem[a].data|
  {
    h.(mem := h.mem[a := h.mem[a].SetData(index, value)])
  }

  /** In the heap without end a new object comes right above all others. */
  function Created(h: Heap, o: Obj): Heap {
    h.(mem := h.mem[h.hi := o], externals := [h.hi] + h.externals, hi := h.hi + WORD_BYTES)
  }

  /** What the program means by an operation.  `made` tells whether a creation succeeds;
      a collection means nothing. */
  function Meant(h: Heap, op: Op, made: bool, nilObject: Word): Heap {
    match op
    case Collect => h
    case Create(klass, fieldsCount) =>
      if !Names(h.statics, h.externals, klass) then h
      else if made then Created(h, OrdinaryObject(Named(h.statics, h.externals, klass), fieldsCount, nilObject))
      else Holding(h, nilObject)
    case CreateBytes(klass, dataSize) =>
      if !Names(h.statics, h.externals, klass) then h
      else if made then Created(h, BinaryObject(Named(h.statics, h.externals, klass), dataSize))
      else Holding(h, nilObject)
    case Assign(slot, source) =>
      if slot in h.statics && Names(h.statics, h.externals, source)
      then h.(statics := h.statics[slot := Named(h.statics, h.externals, source)])
      else h
    case Put(target, index, source) =>
      if HasField(h, target, index) && Names(h.statics, h.externals, source)
      then WithField(h, Named(h.statics, h.externals, target), index, Named(h.statics, h.externals, source))
      else h
    case PutByte(target, index, value) =>
      if HasByte(h, target, index) then WithByte(h, Named(h.statics, h.externals, target), index, value) else h
    case Fetch(source, index) =>
      if HasField(h, source, index)
      then Holding(h, h.mem[Named(h.statics, h.externals, source)].data[index])
      else h
    case Hold(source) =>
      if Names(h.statics, h.externals, source) then Holding(h, Named(h.statics, h.externals, source)) else h
    case Release => if h.externals != [] then h.(externals := h.externals[1..]) else h
  }

  function Replay(h: Heap, ops: seq<Op>, made: seq<bool>, nilObject: Word): Heap
    requires |ops| == |made|
  {
    if ops == [] then h
    else Meant(Replay(h, ops[..|ops| - 1], made[..|made| - 1], nilObject), ops[|ops| - 1], made[|made| - 1], nilObject)
  }

  /** What the barrier does not know of after a run. */
  function UnseenAfter(h: Heap, unseen: set<Addr>, ops: seq<Op>, made: seq<bool>, nilObject: Word): set<Addr>
    requires |ops| == |made|
  {
    if ops == [] then unseen
    else
      var n := |ops| - 1;
      Unseen(Replay(h, ops[..n], made[..n], nilObject), UnseenAfter(h, unseen, ops[..n], made[..n], nilObject), ops[n])
  }

  /** The k-th operation of a run is overlooked. */
  predicate OverlookedAt(h: Heap, unseen: set<Addr>, ops: seq<Op>, made: seq<bool>, nilObject: Word, k: nat)
    requires k < |ops| && k <= |made|
  {
    Overlooked(Replay(h, ops[..k], made[..k], nilObject), UnseenAfter(h, unseen, ops[..k], made[..k], nilObject),
               ops[k])
  }

  lemma {:induction false} UnseenShrinks(h: Heap, unseen: set<Addr>, ops: seq<Op>, made: seq<bool>, nilObject: Word)
    requires |ops| == |made|
    ensures UnseenAfter(h, unseen, ops, made, nilObject) <= unseen
  {
    if ops != [] { UnseenShrinks(h, unseen, ops[..|ops| - 1], made[..|ops| - 1], nilObject); }
  }

  // ---- Paths and renamed roots.

  lemma {:induction false} FollowConcat(m: Mem, v: Word, q: seq<nat>, p: seq<nat>)
    ensures Follow(m, v, q + p) ==
            (match Follow(m, v, q) case None => None case Some(w) => Follow(m, w, p))
    decreases |q|
  {
    if q == [] {
      assert q + p == p;
    } else {
      assert (q + p)[0] == q[0] && (q + p)[1..] == q[1..] + p;
      if v in m && q[0] < |m[v].data| { FollowConcat(m, m[v].data[q[0]], q[1..], p); }
    }
  }

  function Field(m: Mem, w: Option<Word>, i: nat): Option<Word> {
    if w.Some? && w.value in m && i < |m[w.value].data| then Some(m[w.value].data[i]) else None
  }

  lemma FollowSnoc(m: Mem, v: Word, q: seq<nat>, i: nat)
    ensures Follow(m, v, q + [i]) == Field(m, Follow(m, v, q), i)
  {
    FollowConcat(m, v, q, [i]);
    match Follow(m, v, q)
    case None =>
    case Some(w) =>
      assert [i][1..] == [];
  }

  type Renaming = map<Root, (Root, seq<nat>)>

  /** The roots d are words that the roots r lead to. */
  ghost predicate Renames(m: Mem, r: Roots, d: Roots, names: Renaming) {
    && d.Keys == names.Keys
    && forall k | k in names :: names[k].0 in r && Follow(m, r[names[k].0], names[k].1) == Some(d[k])
  }

  lemma RenamedWalk(m: Mem, r: Roots, d: Roots, names: Renaming, k: Root, p: seq<nat>)
    requires Renames(m, r, d, names) && k in names
    ensures names[k].0 in r && Walk(m, d, k, p) == Walk(m, r, names[k].0, names[k].1 + p)
  {
    FollowConcat(m, r[names[k].0], names[k].1, p);
  }

  lemma RenamedSame(m: Mem, r: Roots, m': Mem, r': Roots, d: Roots, d': Roots, names: Renaming)
    requires SameGraph(m, r, m', r') && Renames(m, r, d, names) && Renames(m', r', d', names)
    ensures SameGraph(m, d, m', d')
  {
    forall k, p | k in d
      ensures names[k].0 in r && names[k].0 in r'
      ensures Walk(m, d, k, p) == Walk(m, r, names[k].0, names[k].1 + p)
      ensures Walk(m', d', k, p) == Walk(m', r', names[k].0, names[k].1 + p)
    {
      RenamedWalk(m, r, d, names, k, p);
      RenamedWalk(m', r', d', names, k, p);
    }
    hide Walk, Look, Renames;
  }

  // ---- A store into a field.

  /** A path of the changed memory is a path of the memory before: where it passes through
      the stored field it goes on from the stored word. */
  lemma {:induction false} PutPath(m: Mem, r: Roots, m': Mem, r': Roots, target: Root, source: Root, j: nat, k: Root,
                                   p: seq<nat>)
    returns (s: Root, q: seq<nat>)
    requires SameGraph(m, r, m', r') && target in r && source in r && k in r
    requires r[target] in m && j < |m[r[target]].data| && r'[target] in m' && j < |m'[r'[target]].data|
    ensures s in r && s in r'
    ensures Walk(m[r[target] := m[r[target]].SetData(j, r[source])], r, k, p) == Walk(m, r, s, q)
    ensures Walk(m'[r'[target] := m'[r'[target]].SetData(j, r'[source])], r', k, p) == Walk(m', r', s, q)
    decreases |p|
  {
    if p == [] {
      s, q := k, p;
    } else {
      var n := |p| - 1;
      var s0, q0 := PutPath(m, r, m', r', target, source, j, k, p[..n]);
      assert p == p[..n] + [p[n]];
      s, q := PutStep(m, r, m', r', target, source, j, s0, q0, p[n]);
      FollowSnoc(m[r[target] := m[r[target]].SetData(j, r[source])], r[k], p[..n], p[n]);
      FollowSnoc(m'[r'[target] := m'[r'[target]].SetData(j, r'[source])], r'[k], p[..n], p[n]);
    }
  }

  lemma PutStep(m: Mem, r: Roots, m': Mem, r': Roots, target: Root, source: Root, j: nat, s: Root, q: seq<nat>, i: nat)
    returns (t: Root, q': seq<nat>)
    requires SameGraph(m, r, m', r') && target in r && source in r && s in r
    requires r[target] in m && j < |m[r[target]].data| && r'[target] in m' && j < |m'[r'[target]].data|
    ensures t in r && t in r'
    ensures Field(m[r[target] := m[r[target]].SetData(j, r[source])], Walk(m, r, s, q), i) == Walk(m, r, t, q')
    ensures Field(m'[r'[target] := m'[r'[target]].SetData(j, r'[source])], Walk(m', r', s, q), i) == Walk(m', r', t, q')
  {
    FollowSnoc(m, r[s], q, i);
    FollowSnoc(m', r'[s], q, i);
    assert Walk(m, r, target, []) == Some(r[target]) && Walk(m', r', target, []) == Some(r'[target]);
    assert Walk(m, r, s, q) == Walk(m, r, target, []) <==> Walk(m', r', s, q) == Walk(m', r', target, []);
    if Walk(m, r, s, q) == Some(r[target]) && i == j {
      t, q' := source, [];
    } else {
      t, q' := s, q + [i];
    }
  }

  /** The same store on both sides keeps the graphs the same. */
  lemma PutSame(m: Mem, r: Roots, m': Mem, r': Roots, target: Root, source: Root, j: nat)
    requires SameGraph(m, r, m', r') && target in r && source in r
    requires r[target] in m && j < |m[r[target]].data| && r'[target] in m' && j < |m'[r'[target]].data|
    ensures SameGraph(m[r[target] := m[r[target]].SetData(j, r[source])], r,
                      m'[r'[target] := m'[r'[target]].SetData(j, r'[source])], r')
  {
    var m1 := m[r[target] := m[r[target]].SetData(j, r[source])];
    var m2 := m'[r'[target] := m'[r'[target]].SetData(j, r'[source])];
    forall w
      ensures Look(m1, w) == Look(m, w) && Look(m2, w) == Look(m', w)
    {
    }
    hide Walk, Look;
    forall k, p | k in r
      ensures Look(m1, Walk(m1, r, k, p)) == Look(m2, Walk(m2, r', k, p))
    {
      var s, q := PutPath(m, r, m', r', target, source, j, k, p);
    }
    forall k, p, l, o | k in r && l in r
      ensures Walk(m1, r, k, p) == Walk(m1, r, l, o) <==> Walk(m2, r', k, p) == Walk(m2, r', l, o)
    {
      var s, q := PutPath(m, r, m', r', target, source, j, k, p);
      var t, u := PutPath(m, r, m', r', target, source, j, l, o);
    }
  }

  // ---- A store into a byte.

  /** No path leads through bytes. */
  lemma {:induction false} BytePath(m: Mem, a: Addr, i: nat, value: Byte, v: Word, p: seq<nat>)
    requires a in m && i < |m[a].bytes|
    ensures Follow(m[a := m[a].SetByte(i, value)], v, p) == Follow(m, v, p)
    decreases |p|
  {
    if p != [] && v in m && p[0] < |m[v].data| { BytePath(m, a, i, value, m[v].data[p[0]], p[1..]); }
  }

  lemma ByteSame(m: Mem, r: Roots, m': Mem, r': Roots, target: Root, i: nat, value: Byte)
    requires SameGraph(m, r, m', r') && target in r
    requires r[target] in m && i < |m[r[target]].bytes| && r'[target] in m' && i < |m'[r'[target]].bytes|
    ensures SameGraph(m[r[target] := m[r[target]].SetByte(i, value)], r,
                      m'[r'[target] := m'[r'[target]].SetByte(i, value)], r')
  {
    var m1 := m[r[target] := m[r[target]].SetByte(i, value)];
    var m2 := m'[r'[target] := m'[r'[target]].SetByte(i, value)];
    var w0, w0' := Walk(m, r, target, []), Walk(m', r', target, []);
    assert w0 == Some(r[target]) && w0' == Some(r'[target]);
    forall w | w != w0 ensures Look(m1, w) == Look(m, w) {}
    forall w | w != w0' ensures Look(m2, w) == Look(m', w) {}
    assert Look(m, w0) == Look(m', w0');
    assert Look(m1, w0) == Look(m2, w0');
    forall k, p | k in r
      ensures Walk(m1, r, k, p) == Walk(m, r, k, p) && Walk(m2, r', k, p) == Walk(m', r', k, p)
    {
      BytePath(m, r[target], i, value, r[k], p);
      BytePath(m', r'[target], i, value, r'[k], p);
    }
    hide Walk, Look;
    forall k, p | k in r
      ensures Look(m1, Walk(m1, r, k, p)) == Look(m2, Walk(m2, r', k, p))
    {
      assert Walk(m, r, k, p) == w0 <==> Walk(m', r', k, p) == w0';
      assert Look(m, Walk(m, r, k, p)) == Look(m', Walk(m', r', k, p));
    }
  }

  // ---- A new object.

  /** Where a walk in a memory with a new object leads: along an old walk, to the new target,
      or to a word that is the same on both sides. */
  datatype Way = Along(root: Root, path: seq<nat>) | Fresh | Same(word: Option<Word>)

  /** The root `key` now leads to the new target, whose first slot holds what `key` led to
      and whose n - 1 fields hold nil. */
  function WayOf(key: Root, n: nat, nilObject: Word, k: Root, p: seq<nat>): Way {
    if k != key then Along(k, p)
    else if p == [] then Fresh
    else if p[0] == 0 then Along(key, p[1..])
    else if p[0] < n && |p| == 1 then Same(Some(nilObject))
    else Same(None)
  }

  ghost function Resolve(m: Mem, r: Roots, a: Addr, way: Way): Option<Word>
    requires way.Along? ==> way.root in r
  {
    match way
    case Along(s, q) => Walk(m, r, s, q)
    case Fresh => Some(a)
    case Same(w) => w
  }

  /** No walk leads to the address. */
  ghost predicate Unreached(m: Mem, r: Roots, a: Addr) {
    a !in m && forall s, q | s in r :: Walk(m, r, s, q) != Some(a)
  }

  /** The shape of a new object: its first slot holds `klass`, its fields nil, which is no object. */
  ghost predicate NewShape(m: Mem, a: Addr, o: Obj, klass: Word, nilObject: Word) {
    && |o.data| > 0 && o.data[0] == klass && nilObject !in m && nilObject != a
    && forall i | 1 <= i < |o.data| :: o.data[i] == nilObject
  }

  lemma {:induction false} FollowPast(m: Mem, a: Addr, o: Obj, v: Word, p: seq<nat>)
    requires forall q :: Follow(m, v, q) != Some(a)
    ensures Follow(m[a := o], v, p) == Follow(m, v, p)
    decreases |p|
  {
    assert Follow(m, v, []) != Some(a);
    if p != [] && v in m && p[0] < |m[v].data| {
      forall q
        ensures Follow(m, m[v].data[p[0]], q) != Some(a)
      {
        assert ([p[0]] + q)[1..] == q;
        assert Follow(m, v, [p[0]] + q) != Some(a);
      }
      FollowPast(m, a, o, m[v].data[p[0]], p[1..]);
    }
  }

  lemma WalkPast(m: Mem, r: Roots, a: Addr, o: Obj, s: Root, q: seq<nat>)
    requires Unreached(m, r, a) && s in r
    ensures Follow(m[a := o], r[s], q) == Walk(m, r, s, q)
  {
    forall p
      ensures Follow(m, r[s], p) != Some(a)
    {
      assert Walk(m, r, s, p) != Some(a);
    }
    FollowPast(m, a, o, r[s], q);
  }

  lemma WayIs(m: Mem, r: Roots, a: Addr, o: Obj, key: Root, nilObject: Word, k: Root, p: seq<nat>)
    requires Unreached(m, r, a) && key in r && k in r && NewShape(m, a, o, r[key], nilObject)
    ensures Walk(m[a := o], r[key := a], k, p) == Resolve(m, r, a, WayOf(key, |o.data|, nilObject, k, p))
  {
    hide Unreached;
    if k != key {
      WalkPast(m, r, a, o, k, p);
    } else if p != [] && p[0] < |o.data| {
      assert Follow(m[a := o], a, p) == Follow(m[a := o], o.data[p[0]], p[1..]);
      if p[0] == 0 {
        WalkPast(m, r, a, o, key, p[1..]);
      } else {
        assert o.data[p[0]] == nilObject;
      }
    }
  }

  lemma ResolveSame(m: Mem, r: Roots, a: Addr, m': Mem, r': Roots, a': Addr, nilObject: Word, v: Way, w: Way)
    requires SameGraph(m, r, m', r') && Unreached(m, r, a) && Unreached(m', r', a')
    requires nilObject !in m && nilObject !in m' && nilObject != a && nilObject != a'
    requires (v.Along? ==> v.root in r) && (w.Along? ==> w.root in r)
    requires (v.Same? ==> v.word == None || v.word == Some(nilObject))
    requires (w.Same? ==> w.word == None || w.word == Some(nilObject))
    ensures Resolve(m, r, a, v) == Resolve(m, r, a, w) <==> Resolve(m', r', a', v) == Resolve(m', r', a', w)
  {
    hide Walk;
    if v.Along? && w.Same? { WalkToWord(m, r, m', r', v.root, v.path, w.word); }
    if w.Along? && v.Same? { WalkToWord(m, r, m', r', w.root, w.path, v.word); }
  }

  lemma WalkToWord(m: Mem, r: Roots, m': Mem, r': Roots, s: Root, q: seq<nat>, word: Option<Word>)
    requires SameGraph(m, r, m', r') && s in r && (word.Some? ==> word.value !in m && word.value !in m')
    ensures s in r' && (Walk(m, r, s, q) == word <==> Walk(m', r', s, q) == word)
  {
    hide Walk;
    assert Look(m, Walk(m, r, s, q)) == Look(m', Walk(m', r', s, q));
  }

  ghost predicate SameShape(o: Obj, o': Obj) {
    o.size == o'.size && o.binary == o'.binary && |o.data| == |o'.data| && o.bytes == o'.bytes
  }

  lemma ResolveLook(m: Mem, r: Roots, a: Addr, o: Obj, m': Mem, r': Roots, a': Addr, o': Obj, nilObject: Word, v: Way)
    requires SameGraph(m, r, m', r') && Unreached(m, r, a) && Unreached(m', r', a') && SameShape(o, o')
    requires nilObject !in m && nilObject !in m' && nilObject != a && nilObject != a'
    requires (v.Along? ==> v.root in r) && (v.Same? ==> v.word == None || v.word == Some(nilObject))
    ensures v.Along? ==> v.root in r'
    ensures Look(m[a := o], Resolve(m, r, a, v)) == Look(m'[a' := o'], Resolve(m', r', a', v))
  {
    hide Walk;
    if v.Along? {
      assert Walk(m, r, v.root, v.path) != Some(a) && Walk(m', r', v.root, v.path) != Some(a');
      assert Look(m, Walk(m, r, v.root, v.path)) == Look(m', Walk(m', r', v.root, v.path));
    }
  }

  /** The same new object on both sides, in place of a root that led to its class. */
  lemma AddSame(m: Mem, r: Roots, a: Addr, o: Obj, m': Mem, r': Roots, a': Addr, o': Obj, key: Root, nilObject: Word)
    requires SameGraph(m, r, m', r') && key in r && key in r' && SameShape(o, o')
    requires Unreached(m, r, a) && Unreached(m', r', a')
    requires NewShape(m, a, o, r[key], nilObject) && NewShape(m', a', o', r'[key], nilObject)
    ensures SameGraph(m[a := o], r[key := a], m'[a' := o'], r'[key := a'])
  {
    hide Walk, Look, Resolve, Unreached;
    var n, m1, m2, r1, r2 := |o.data|, m[a := o], m'[a' := o'], r[key := a], r'[key := a'];
    assert r.Keys == r'.Keys && r1.Keys == r.Keys;
    forall k, p | k in r1
      ensures Look(m1, Walk(m1, r1, k, p)) == Look(m2, Walk(m2, r2, k, p))
    {
      WayIs(m, r, a, o, key, nilObject, k, p);
      WayIs(m', r', a', o', key, nilObject, k, p);
      ResolveLook(m, r, a, o, m', r', a', o', nilObject, WayOf(key, n, nilObject, k, p));
    }
    forall k, p, l, q | k in r1 && l in r1
      ensures Walk(m1, r1, k, p) == Walk(m1, r1, l, q) <==> Walk(m2, r2, k, p) == Walk(m2, r2, l, q)
    {
      WayIs(m, r, a, o, key, nilObject, k, p);
      WayIs(m', r', a', o', key, nilObject, k, p);
      WayIs(m, r, a, o, key, nilObject, l, q);
      WayIs(m', r', a', o', key, nilObject, l, q);
      ResolveSame(m, r, a, m', r', a', nilObject, WayOf(key, n, nilObject, k, p), WayOf(key, n, nilObject, l, q));
    }
  }

  /** A root that is replaced by one and the same word, which is no object on either side. */
  lemma WordSame(m: Mem, r: Roots, m': Mem, r': Roots, key: Root, w: Word)
    requires SameGraph(m, r, m', r') && key in r && w !in m && w !in m'
    ensures SameGraph(m, r[key := w], m', r'[key := w])
  {
    hide Walk, Look;
    var r1, r2 := r[key := w], r'[key := w];
    assert r.Keys == r'.Keys && r1.Keys == r.Keys;
    forall k, p | k in r1
      ensures Walk(m, r1, k, p) == if k != key then Walk(m, r, k, p) else if p == [] then Some(w) else None
      ensures Walk(m', r2, k, p) == if k != key then Walk(m', r', k, p) else if p == [] then Some(w) else None
      ensures k != key ==> (Walk(m, r, k, p) == Some(w) <==> Walk(m', r', k, p) == Some(w))
      ensures k != key ==> (Walk(m, r, k, p) == None <==> Walk(m', r', k, p) == None)
      ensures Look(m, Walk(m, r1, k, p)) == Look(m', Walk(m', r2, k, p))
    {
      WordWalk(m, r, key, w, k, p);
      WordWalk(m', r', key, w, k, p);
      if k != key {
        WalkToWord(m, r, m', r', k, p, Some(w));
        WalkToWord(m, r, m', r', k, p, None);
        assert Look(m, Walk(m, r, k, p)) == Look(m', Walk(m', r', k, p));
      } else {
        LookAtWord(m, m', w);
      }
    }
  }

  lemma LookAtWord(m: Mem, m': Mem, w: Word)
    requires w !in m && w !in m'
    ensures Look(m, Some(w)) == Look(m', Some(w)) && Look(m, None) == Look(m', None)
  {
  }

  lemma WordWalk(m: Mem, r: Roots, key: Root, w: Word, k: Root, p: seq<nat>)
    requires key in r && w !in m && k in r
    ensures Walk(m, r[key := w], k, p) == if k != key then Walk(m, r, k, p) else if p == [] then Some(w) else None
  {
  }

  // ---- The heap without end beside a real one.

  /** A word that can not be the address of the next new object. */
  predicate Older(h: Heap, w: Word) {
    IsSmallInteger(w) || w < h.hi
  }

  ghost predicate Endless(h: Heap) {
    && h.hi % WORD_BYTES == 0 && h.staticHi <= h.hi
    && (forall a | a in h.mem :: a < h.hi && !h.InStatic(a))
    && (forall a, i | a in h.mem && 0 <= i < |h.mem[a].data| :: Older(h, h.mem[a].data[i]))
    && (forall s | s in h.statics :: Older(h, h.statics[s]))
    && (forall i | 0 <= i < |h.externals| :: Older(h, h.externals[i]))
  }

  /** The program cannot tell the real heap from the one without end. */
  ghost predicate Mirrors(ideal: Heap, h: Heap) {
    && SameHeapGraph(ideal, h) && Endless(ideal)
    && ideal.staticLo == h.staticLo && ideal.staticHi == h.staticHi
  }

  /** A heap as it is, with endless room above it. */
  function WithoutEnd(h: Heap): Heap {
    h.(hi := WORD_BYTES * (h.hi + h.staticHi + 1))
  }

  lemma StartsAlike(h: Heap)
    requires h.WellFormed()
    ensures Mirrors(WithoutEnd(h), h)
  {
    hide Heap.WellFormed, Endless, SameHeapGraph;
    SameWithoutEnd(h);
    WithoutEndIsEndless(h);
  }

  lemma SameWithoutEnd(h: Heap)
    ensures SameHeapGraph(WithoutEnd(h), h)
  {
    assert WithoutEnd(h).Roots() == h.Roots();
  }

  lemma WithoutEndIsEndless(h: Heap)
    requires h.WellFormed()
    ensures Endless(WithoutEnd(h))
  {
    hide Heap.WellFormed, Heap.GoodWord, Older;
    var ideal := WithoutEnd(h);
    StaticsAreGood(h);
    forall a | a in h.mem
      ensures a < ideal.hi && !ideal.InStatic(a) && forall i | 0 <= i < |h.mem[a].data| ::
                Older(ideal, h.mem[a].data[i])
    {
      ObjectIsOlder(h, a);
    }
    forall s | s in h.statics ensures Older(ideal, h.statics[s]) { GoodIsOlder(h, h.statics[s]); }
    forall i | 0 <= i < |h.externals| ensures Older(ideal, h.externals[i]) { GoodIsOlder(h, h.externals[i]); }
  }

  lemma StaticsAreGood(h: Heap)
    requires h.WellFormed()
    ensures forall s | s in h.statics :: h.GoodWord(h.statics[s])
    ensures forall i | 0 <= i < |h.externals| :: h.GoodWord(h.externals[i])
  {
    hide Obj.ByteSize, Obj.WellShaped, Apart, Heap.ObjectAt, Heap.GoodWord;
  }

  lemma ObjectIsOlder(h: Heap, a: Addr)
    requires h.WellFormed() && a in h.mem
    ensures a < WithoutEnd(h).hi && !h.InStatic(a)
    ensures forall i | 0 <= i < |h.mem[a].data| :: Older(WithoutEnd(h), h.mem[a].data[i])
  {
    MemInside(h, a);
    NoneStatic(h, a);
    hide Obj.ByteSize, Obj.WellShaped, Apart, Older, Heap.GoodWord;
    assert h.ObjectAt(a);
    forall i | 0 <= i < |h.mem[a].data|
      ensures Older(WithoutEnd(h), h.mem[a].data[i])
    {
      GoodIsOlder(h, h.mem[a].data[i]);
    }
  }

  lemma GoodIsOlder(h: Heap, w: Word)
    requires h.WellFormed() && h.GoodWord(w)
    ensures Older(WithoutEnd(h), w)
  {
    hide Obj.ByteSize, Obj.WellShaped, Apart, Heap.ObjectAt;
    if w in h.mem { MemInside(h, w); }
  }

  lemma {:induction false} EndlessWalk(h: Heap, v: Word, q: seq<nat>)
    requires Endless(h) && Older(h, v)
    ensures Follow(h.mem, v, q) != Some(h.hi)
    decreases |q|
  {
    if q != [] && v in h.mem && q[0] < |h.mem[v].data| { EndlessWalk(h, h.mem[v].data[q[0]], q[1..]); }
  }

  lemma EndlessUnreached(h: Heap)
    requires Endless(h)
    ensures Unreached(h.mem, h.Roots(), h.hi)
  {
    forall s, q | s in h.Roots()
      ensures Walk(h.mem, h.Roots(), s, q) != Some(h.hi)
    {
      RootCases(h, s);
      EndlessWalk(h, h.Roots()[s], q);
    }
  }

  lemma FreeUnreached(h: Heap, a: Addr, o: Obj)
    requires h.WellFormed() && a !in h.mem && h.lo <= a < h.hi && a % WORD_BYTES == 0
    ensures Unreached(h.mem, h.Roots(), a)
  {
    hide Heap.WellFormed;
    forall s, q | s in h.Roots()
      ensures Walk(h.mem, h.Roots(), s, q) != Some(a)
    {
      RootGood(h, s);
      FollowPastNew(h, a, o, h.Roots()[s], q);
    }
  }

  lemma NamesIsRoot(h: Heap, r: Root)
    ensures Names(h.statics, h.externals, r) <==> r in h.Roots()
    ensures r in h.Roots() ==> Named(h.statics, h.externals, r) == h.Roots()[r]
  {
    RootCases(h, r);
  }

  lemma NamesAgree(h: Heap, h': Heap, r: Root)
    requires SameHeapGraph(h, h')
    ensures Names(h.statics, h.externals, r) <==> Names(h'.statics, h'.externals, r)
  {
    SameKeys(h, h');
    NamesIsRoot(h, r);
    NamesIsRoot(h', r);
    hide SameHeapGraph, Heap.Roots, Names;
  }

  lemma FieldsAgree(h: Heap, h': Heap, target: Root, index: nat)
    requires SameHeapGraph(h, h')
    ensures HasField(h, target, index) <==> HasField(h', target, index)
  {
    SameKeys(h, h');
    NamesIsRoot(h, target);
    NamesIsRoot(h', target);
    hide Heap.Roots, Names, Named;
    if target in h.Roots() {
      assert Look(h.mem, Walk(h.mem, h.Roots(), target, [])) == Look(h'.mem, Walk(h'.mem, h'.Roots(), target, []));
    }
  }

  lemma BytesAgree(h: Heap, h': Heap, target: Root, index: nat)
    requires SameHeapGraph(h, h')
    ensures HasByte(h, target, index) <==> HasByte(h', target, index)
  {
    SameKeys(h, h');
    NamesIsRoot(h, target);
    NamesIsRoot(h', target);
    hide Heap.Roots, Names, Named;
    if target in h.Roots() {
      assert Look(h.mem, Walk(h.mem, h.Roots(), target, [])) == Look(h'.mem, Walk(h'.mem, h'.Roots(), target, []));
    }
  }

  /** What is overlooked in the heap without end is overlooked in the real one. */
  lemma OverlookedAlike(ideal: Heap, h: Heap, unseen: set<Addr>, op: Op)
    requires Mirrors(ideal, h) && h.WellFormed()
    ensures Overlooked(ideal, unseen, op) <==> Overlooked(h, unseen, op)
    ensures Unseen(ideal, unseen, op) == Unseen(h, unseen, op)
  {
    hide SameHeapGraph, Heap.Roots, Names, Named, Heap.WellFormed, Older;
    if op.Assign? {
      NamesAgree(ideal, h, op.source);
      NamesAgree(ideal, h, StaticSlot(op.slot));
      SlotNames(ideal, op.slot);
      SlotNames(h, op.slot);
      if Names(h.statics, h.externals, op.source) {
        NamesIsRoot(ideal, op.source);
        NamesIsRoot(h, op.source);
        WordAlike(ideal, h, op.source);
        NoneStatic(h, h.Roots()[op.source]);
      }
    }
  }

  lemma SlotNames(h: Heap, slot: Addr)
    ensures Names(h.statics, h.externals, StaticSlot(slot)) <==> slot in h.statics
  {
  }

  // ---- Each operation keeps the two heaps alike.

  /** What the external pointers are called when one more is held. */
  function Unshifted(k: Root): Root {
    if k.External? && k.index > 0 then External(k.index - 1) else k
  }

  lemma HoldRenames(h: Heap, source: Root, path: seq<nat>, w: Word, names: Renaming)
    requires source in h.Roots() && Follow(h.mem, h.Roots()[source], path) == Some(w)
    requires names.Keys == Holding(h, w).Roots().Keys
    requires forall k | k in names :: names[k] == if k == External(0) then (source, path) else (Unshifted(k), [])
    ensures Renames(h.mem, h.Roots(), Holding(h, w).Roots(), names)
  {
    hide Heap.Roots;
    forall k | k in names
      ensures names[k].0 in h.Roots()
      ensures Follow(h.mem, h.Roots()[names[k].0], names[k].1) == Some(Holding(h, w).Roots()[k])
    {
      RootCases(Holding(h, w), k);
      RootCases(h, Unshifted(k));
    }
  }

  lemma HoldSame(h: Heap, h': Heap, source: Root, path: seq<nat>, w: Word, w': Word)
    requires SameHeapGraph(h, h') && source in h.Roots() && source in h'.Roots()
    requires Follow(h.mem, h.Roots()[source], path) == Some(w) && Follow(h'.mem, h'.Roots()[source], path) == Some(w')
    ensures SameHeapGraph(Holding(h, w), Holding(h', w'))
  {
    hide SameGraph, Follow, Heap.Roots;
    var names := map k | k in Holding(h, w).Roots() :: if k == External(0) then (source, path) else (Unshifted(k), []);
    HoldKeys(h, h', w, w');
    HoldRenames(h, source, path, w, names);
    HoldRenames(h', source, path, w', names);
    RenamedSame(h.mem, h.Roots(), h'.mem, h'.Roots(), Holding(h, w).Roots(), Holding(h', w').Roots(), names);
  }

  lemma HoldKeys(h: Heap, h': Heap, w: Word, w': Word)
    requires SameHeapGraph(h, h')
    ensures Holding(h, w).Roots().Keys == Holding(h', w').Roots().Keys
  {
    SameKeys(h, h');
    hide SameHeapGraph, Heap.Roots;
    forall k
      ensures k in Holding(h, w).Roots() <==> k in Holding(h', w').Roots()
    {
      HeldKey(h, w, k);
      HeldKey(h', w', k);
    }
  }

  lemma HeldKey(h: Heap, w: Word, k: Root)
    ensures k in Holding(h, w).Roots() <==> k == External(0) || Unshifted(k) in h.Roots()
  {
    RootCases(Holding(h, w), k);
    RootCases(h, Unshifted(k));
  }

  /** The names of the external pointers when the newest is released. */
  function Shifted(r: Root): Root {
    if r.External? then External(r.index + 1) else r
  }

  /** Releasing the head of the external chain on both sides. */
  lemma DropExternal(h: Heap, h': Heap)
    requires |h.externals| > 0 && |h'.externals| > 0 && SameHeapGraph(h, h')
    ensures SameHeapGraph(h.(externals := h.externals[1..]), h'.(externals := h'.externals[1..]))
  {
    hide Heap.Roots, SameGraph;
    var d, d' := h.(externals := h.externals[1..]), h'.(externals := h'.externals[1..]);
    var names: Renaming := map k | k in d.Roots() :: (Shifted(k), []);
    SameKeys(h, h');
    forall k
      ensures k in d.Roots() <==> k in d'.Roots()
      ensures k in d.Roots() ==> Shifted(k) in h.Roots() && d.Roots()[k] == h.Roots()[Shifted(k)]
      ensures k in d'.Roots() ==> Shifted(k) in h'.Roots() && d'.Roots()[k] == h'.Roots()[Shifted(k)]
    {
      RootCases(h, Shifted(k));
      RootCases(h', Shifted(k));
      RootCases(d, k);
      RootCases(d', k);
    }
    RenamedSame(h.mem, h.Roots(), h'.mem, h'.Roots(), d.Roots(), d'.Roots(), names);
  }

  /** An assignment to a static slot on both sides, whatever is registered. */
  lemma AssignSame(h: Heap, h': Heap, slot: Addr, source: Root, d: Heap, d': Heap)
    requires SameHeapGraph(h, h') && slot in h.statics && slot in h'.statics && source in h.Roots()
    requires source in h'.Roots()
    requires d.mem == h.mem && d.externals == h.externals && d.statics == h.statics[slot := h.Roots()[source]]
    requires d'.mem == h'.mem && d'.externals == h'.externals && d'.statics == h'.statics[slot := h'.Roots()[source]]
    ensures SameHeapGraph(d, d')
  {
    hide Heap.Roots, SameGraph;
    var names: Renaming := map k | k in d.Roots() :: (if k == StaticSlot(slot) then source else k, []);
    SameKeys(h, h');
    forall k
      ensures k in d.Roots() <==> k in d'.Roots()
      ensures k in d.Roots() ==> names[k].0 in h.Roots() && d.Roots()[k] == h.Roots()[names[k].0]
      ensures k in d'.Roots() ==> k in names && names[k].0 in h'.Roots() && d'.Roots()[k] == h'.Roots()[names[k].0]
    {
      RootCases(h, k);
      RootCases(h', k);
      RootCases(d, k);
      RootCases(d', k);
    }
    RenamedSame(h.mem, h.Roots(), h'.mem, h'.Roots(), d.Roots(), d'.Roots(), names);
  }

  lemma FieldStored(h: Heap, h': Heap, target: Root, index: nat, source: Root)
    requires SameHeapGraph(h, h') && HasField(h, target, index) && HasField(h', target, index)
    requires Names(h.statics, h.externals, source) && Names(h'.statics, h'.externals, source)
    ensures SameHeapGraph(WithField(h, Named(h.statics, h.externals, target), index,
                                    Named(h.statics, h.externals, source)),
                          WithField(h', Named(h'.statics, h'.externals, target), index,
                                    Named(h'.statics, h'.externals, source)))
  {
    hide SameGraph, Heap.Roots, Names, Named;
    NamesIsRoot(h, target);
    NamesIsRoot(h', target);
    NamesIsRoot(h, source);
    NamesIsRoot(h', source);
    var d := WithField(h, Named(h.statics, h.externals, target), index, Named(h.statics, h.externals, source));
    var d' := WithField(h', Named(h'.statics, h'.externals, target), index, Named(h'.statics, h'.externals, source));
    RootsOfFields(h, d);
    RootsOfFields(h', d');
    PutSame(h.mem, h.Roots(), h'.mem, h'.Roots(), target, source, index);
  }

  lemma ByteStored(h: Heap, h': Heap, target: Root, index: nat, value: Byte)
    requires SameHeapGraph(h, h') && HasByte(h, target, index) && HasByte(h', target, index)
    ensures SameHeapGraph(WithByte(h, Named(h.statics, h.externals, target), index, value),
                          WithByte(h', Named(h'.statics, h'.externals, target), index, value))
  {
    hide SameGraph, Heap.Roots, Names, Named;
    NamesIsRoot(h, target);
    NamesIsRoot(h', target);
    var d := WithByte(h, Named(h.statics, h.externals, target), index, value);
    var d' := WithByte(h', Named(h'.statics, h'.externals, target), index, value);
    RootsOfFields(h, d);
    RootsOfFields(h', d');
    ByteSame(h.mem, h.Roots(), h'.mem, h'.Roots(), target, index, value);
  }

  lemma HeadReplaced(h: Heap, d: Heap, w: Word)
    requires |h.externals| > 0 && d.statics == h.statics && d.externals == [w] + h.externals[1..]
    ensures External(0) in h.Roots() && h.Roots()[External(0)] == h.externals[0]
    ensures d.Roots() == h.Roots()[External(0) := w]
  {
  }

  /** A creation that fails leaves nil where the class was held. */
  lemma NilHeld(h: Heap, h': Heap, nilObject: Word)
    requires SameHeapGraph(h, h') && |h.externals| > 0 && |h'.externals| > 0 && nilObject !in h.mem
    requires nilObject !in h'.mem
    ensures SameHeapGraph(h.(externals := [nilObject] + h.externals[1..]),
                          h'.(externals := [nilObject] + h'.externals[1..]))
  {
    hide SameGraph, Heap.Roots;
    HeadReplaced(h, h.(externals := [nilObject] + h.externals[1..]), nilObject);
    HeadReplaced(h', h'.(externals := [nilObject] + h'.externals[1..]), nilObject);
    WordSame(h.mem, h.Roots(), h'.mem, h'.Roots(), External(0), nilObject);
  }

  /** A creation that succeeds leaves the new object where the class was held. */
  lemma ObjectHeld(h: Heap, a: Addr, o: Obj, h': Heap, a': Addr, o': Obj, nilObject: Word, d: Heap, d': Heap)
    requires SameHeapGraph(h, h') && |h.externals| > 0 && |h'.externals| > 0 && SameShape(o, o')
    requires Unreached(h.mem, h.Roots(), a) && Unreached(h'.mem, h'.Roots(), a')
    requires NewShape(h.mem, a, o, h.externals[0], nilObject) && NewShape(h'.mem, a', o', h'.externals[0], nilObject)
    requires d.mem == h.mem[a := o] && d.statics == h.statics && d.externals == [a] + h.externals[1..]
    requires d'.mem == h'.mem[a' := o'] && d'.statics == h'.statics && d'.externals == [a'] + h'.externals[1..]
    ensures SameHeapGraph(d, d')
  {
    hide SameGraph, Heap.Roots, Unreached, NewShape, SameShape;
    HeadReplaced(h, d, a);
    HeadReplaced(h', d', a');
    AddSame(h.mem, h.Roots(), a, o, h'.mem, h'.Roots(), a', o', External(0), nilObject);
  }

  // ---- The heap without end stays one.

  lemma NamedIsOlder(h: Heap, r: Root)
    requires Endless(h) && Names(h.statics, h.externals, r)
    ensures Older(h, Named(h.statics, h.externals, r))
  {
  }

  lemma HoldingEndless(h: Heap, w: Word)
    requires Endless(h) && Older(h, w)
    ensures Endless(Holding(h, w))
  {
    hide Older;
    var d := Holding(h, w);
    forall v ensures Older(d, v) <==> Older(h, v) { OlderBound(d, h, v); }
  }

  lemma OlderBound(d: Heap, h: Heap, v: Word)
    requires d.hi >= h.hi
    ensures Older(h, v) ==> Older(d, v)
    ensures d.hi == h.hi ==> (Older(h, v) <==> Older(d, v))
  {
  }

  lemma WithFieldEndless(h: Heap, a: Addr, index: nat, value: Word)
    requires Endless(h) && a in h.mem && index < |h.mem[a].data| && Older(h, value)
    ensures Endless(WithField(h, a, index, value))
  {
    hide Older;
    var d := WithField(h, a, index, value);
    forall v ensures Older(d, v) <==> Older(h, v) { OlderBound(d, h, v); }
  }

  lemma WithByteEndless(h: Heap, a: Addr, index: nat, value: Byte)
    requires Endless(h) && a in h.mem && index < |h.mem[a].bytes|
    ensures Endless(WithByte(h, a, index, value))
  {
    hide Older;
    var d := WithByte(h, a, index, value);
    forall v ensures Older(d, v) <==> Older(h, v) { OlderBound(d, h, v); }
  }

  lemma CreatedEndless(h: Heap, o: Obj)
    requires Endless(h) && forall i | 0 <= i < |o.data| :: Older(h, o.data[i])
    ensures Endless(Created(h, o))
  {
    var d := Created(h, o);
    assert Older(d, h.hi);
    hide Older;
    forall v ensures Older(h, v) ==> Older(d, v) { OlderBound(d, h, v); }
  }

  lemma ReleasedEndless(h: Heap)
    requires Endless(h) && |h.externals| > 0
    ensures Endless(h.(externals := h.externals[1..]))
  {
    hide Older;
    var d := h.(externals := h.externals[1..]);
    forall v ensures Older(d, v) <==> Older(h, v) { OlderBound(d, h, v); }
  }

  lemma AssignedEndless(h: Heap, slot: Addr, w: Word)
    requires Endless(h) && Older(h, w)
    ensures Endless(h.(statics := h.statics[slot := w]))
  {
    hide Older;
    var d := h.(statics := h.statics[slot := w]);
    forall v ensures Older(d, v) <==> Older(h, v) { OlderBound(d, h, v); }
  }

  // ---- What the program means by an operation is what the real heap does.

  lemma MeantCollect(ideal: Heap, h: Heap, h': Heap)
    requires Mirrors(ideal, h) && SameHeapGraph(h, h') && h'.staticLo == h.staticLo && h'.staticHi == h.staticHi
    ensures Mirrors(ideal, h')
  {
    GraphChain(ideal, h, h');
    hide SameHeapGraph, Endless;
  }

  lemma MeantHold(ideal: Heap, h: Heap, source: Root, made: bool, nilObject: Word)
    requires Mirrors(ideal, h)
    ensures Mirrors(Meant(ideal, Hold(source), made, nilObject), Meant(h, Hold(source), made, nilObject))
  {
    hide SameHeapGraph, Endless, Names, Named, Older, Heap.Roots;
    NamesAgree(ideal, h, source);
    if Names(h.statics, h.externals, source) {
      NamesIsRoot(ideal, source);
      NamesIsRoot(h, source);
      assert Follow(ideal.mem, ideal.Roots()[source], []) == Some(ideal.Roots()[source]);
      assert Follow(h.mem, h.Roots()[source], []) == Some(h.Roots()[source]);
      HoldSame(ideal, h, source, [], ideal.Roots()[source], h.Roots()[source]);
      NamedIsOlder(ideal, source);
      HoldingEndless(ideal, ideal.Roots()[source]);
    }
  }

  lemma MeantFetch(ideal: Heap, h: Heap, source: Root, index: nat, made: bool, nilObject: Word)
    requires Mirrors(ideal, h)
    ensures Mirrors(Meant(ideal, Fetch(source, index), made, nilObject),
                    Meant(h, Fetch(source, index), made, nilObject))
  {
    hide SameHeapGraph, Endless, Names, Named, Older, Heap.Roots;
    FieldsAgree(ideal, h, source, index);
    if HasField(h, source, index) {
      NamesIsRoot(ideal, source);
      NamesIsRoot(h, source);
      FieldFollowed(ideal.mem, ideal.Roots()[source], index);
      FieldFollowed(h.mem, h.Roots()[source], index);
      var w, w' := ideal.mem[ideal.Roots()[source]].data[index], h.mem[h.Roots()[source]].data[index];
      FieldIsOlder(ideal, ideal.Roots()[source], index);
      HoldSame(ideal, h, source, [index], w, w');
      HoldingEndless(ideal, w);
    }
  }

  lemma FieldFollowed(m: Mem, a: Addr, index: nat)
    requires a in m && index < |m[a].data|
    ensures Follow(m, a, [index]) == Some(m[a].data[index])
  {
    assert [index][1..] == [];
  }

  lemma FieldIsOlder(h: Heap, a: Addr, index: nat)
    requires Endless(h) && a in h.mem && index < |h.mem[a].data|
    ensures Older(h, h.mem[a].data[index])
  {
    hide Older;
  }

  lemma MeantRelease(ideal: Heap, h: Heap, made: bool, nilObject: Word)
    requires Mirrors(ideal, h)
    ensures Mirrors(Meant(ideal, Release, made, nilObject), Meant(h, Release, made, nilObject))
  {
    SameLength(ideal, h);
    hide SameHeapGraph, Endless;
    if |h.externals| > 0 {
      DropExternal(ideal, h);
      ReleasedEndless(ideal);
    }
  }

  lemma SameLength(h: Heap, h': Heap)
    requires SameHeapGraph(h, h')
    ensures |h.externals| == |h'.externals|
  {
    SameKeys(h, h');
    hide SameHeapGraph, Heap.Roots;
    RootCases(h, External(|h'.externals|));
    RootCases(h', External(|h'.externals|));
    RootCases(h, External(|h.externals|));
    RootCases(h', External(|h.externals|));
  }

  /** Whatever the barrier does with the list of registered slots. */
  lemma MeantAssign(ideal: Heap, h: Heap, slot: Addr, source: Root, made: bool, nilObject: Word, roots: seq<Addr>)
    requires Mirrors(ideal, h)
    ensures Mirrors(Meant(ideal, Assign(slot, source), made, nilObject),
                    Meant(h, Assign(slot, source), made, nilObject).(staticRoots := roots))
  {
    NamesAgree(ideal, h, source);
    NamesAgree(ideal, h, StaticSlot(slot));
    var d := Meant(ideal, Assign(slot, source), made, nilObject);
    var d' := Meant(h, Assign(slot, source), made, nilObject).(staticRoots := roots);
    if slot in h.statics && Names(h.statics, h.externals, source) {
      NamesIsRoot(ideal, source);
      NamesIsRoot(h, source);
      NamedIsOlder(ideal, source);
      hide SameHeapGraph, Endless, Names, Named, Older, Heap.Roots;
      AssignSame(ideal, h, slot, source, d, d');
      AssignedEndless(ideal, slot, ideal.Roots()[source]);
    } else {
      RegisteringSame(ideal, h, roots);
    }
  }

  lemma RegisteringSame(ideal: Heap, h: Heap, roots: seq<Addr>)
    requires SameHeapGraph(ideal, h)
    ensures SameHeapGraph(ideal, h.(staticRoots := roots))
  {
    assert h.(staticRoots := roots).Roots() == h.Roots();
  }

  lemma MeantPut(ideal: Heap, h: Heap, target: Root, index: nat, source: Root, made: bool, nilObject: Word)
    requires Mirrors(ideal, h)
    ensures Mirrors(Meant(ideal, Put(target, index, source), made, nilObject),
                    Meant(h, Put(target, index, source), made, nilObject))
  {
    hide SameHeapGraph, Endless, Names, Named, Older, Heap.Roots;
    FieldsAgree(ideal, h, target, index);
    NamesAgree(ideal, h, source);
    if HasField(h, target, index) && Names(h.statics, h.externals, source) {
      FieldStored(ideal, h, target, index, source);
      NamedIsOlder(ideal, source);
      WithFieldEndless(ideal, Named(ideal.statics, ideal.externals, target), index,
                       Named(ideal.statics, ideal.externals, source));
    }
  }

  lemma MeantPutByte(ideal: Heap, h: Heap, target: Root, index: nat, value: Byte, made: bool, nilObject: Word)
    requires Mirrors(ideal, h)
    ensures Mirrors(Meant(ideal, PutByte(target, index, value), made, nilObject),
                    Meant(h, PutByte(target, index, value), made, nilObject))
  {
    hide SameHeapGraph, Endless, Names, Named, Older, Heap.Roots;
    BytesAgree(ideal, h, target, index);
    if HasByte(h, target, index) {
      ByteStored(ideal, h, target, index, value);
      WithByteEndless(ideal, Named(ideal.statics, ideal.externals, target), index, value);
    }
  }

  /** The class held, the new object made in a free block and held in its place. */
  lemma MeantMade(ideal: Heap, h: Heap, klass: Root, o: Obj, before: Heap, a: Addr, o': Obj, after: Heap,
                  nilObject: Word)
    requires Mirrors(ideal, h) && Names(h.statics, h.externals, klass) && h.InStatic(nilObject)
    requires before.WellFormed() && |before.externals| > 0
    requires SameHeapGraph(Holding(h, Named(h.statics, h.externals, klass)), before)
    requires a !in before.mem && before.lo <= a < before.hi && a % WORD_BYTES == 0
    requires before.staticLo == h.staticLo && before.staticHi == h.staticHi
    requires Names(ideal.statics, ideal.externals, klass) ==>
               SameShape(o, o') && Shaped(o, Named(ideal.statics, ideal.externals, klass), nilObject)
    requires Shaped(o', before.externals[0], nilObject)
    requires after == before.(mem := before.mem[a := o'], externals := [a] + before.externals[1..])
    ensures Names(ideal.statics, ideal.externals, klass) && Mirrors(Created(ideal, o), after)
  {
    hide SameHeapGraph, Endless, Names, Named, Older, Unreached, Heap.WellFormed, Heap.Roots, SameShape;
    var k := Named(h.statics, h.externals, klass);
    MeantHold(ideal, h, klass, true, nilObject);
    NamesAgree(ideal, h, klass);
    var held := Holding(ideal, Named(ideal.statics, ideal.externals, klass));
    GraphChain(held, Holding(h, k), before);
    EndlessUnreached(held);
    FreeUnreached(before, a, o');
    NilIsNone(held, nilObject);
    StaticIsNone(before, a, nilObject);
    OlderSlots(ideal, o, klass, nilObject);
    CreatedEndless(ideal, o);
    ObjectHeld(held, held.hi, o, before, a, o', nilObject, Created(ideal, o), after);
  }

  /** The first slot of a new object holds its class, the others nil. */
  predicate Shaped(o: Obj, klass: Word, nilObject: Word) {
    |o.data| > 0 && o.data[0] == klass && forall i | 1 <= i < |o.data| :: o.data[i] == nilObject
  }

  lemma OlderSlots(h: Heap, o: Obj, klass: Root, nilObject: Word)
    requires Endless(h) && Names(h.statics, h.externals, klass) && h.InStatic(nilObject)
    requires Shaped(o, Named(h.statics, h.externals, klass), nilObject)
    ensures forall i | 0 <= i < |o.data| :: Older(h, o.data[i])
  {
    NamedIsOlder(h, klass);
    assert Older(h, nilObject);
    hide Older, Names, Named;
    forall i | 0 <= i < |o.data| ensures Older(h, o.data[i]) { if i > 0 { assert o.data[i] == nilObject; } }
  }

  lemma NilIsNone(h: Heap, nilObject: Word)
    requires Endless(h) && h.InStatic(nilObject)
    ensures nilObject !in h.mem && nilObject != h.hi
  {
  }

  lemma StaticIsNone(h: Heap, a: Addr, nilObject: Word)
    requires h.WellFormed() && h.lo <= a < h.hi && h.InStatic(nilObject)
    ensures nilObject !in h.mem && nilObject != a
  {
    NoneStatic(h, nilObject);
    hide Obj.ByteSize, Obj.WellShaped, Apart, Heap.ObjectAt, Heap.GoodWord;
  }

  /** A creation that fails: nil is held. */
  lemma MeantUnmade(ideal: Heap, h: Heap, klass: Root, before: Heap, after: Heap, nilObject: Word)
    requires Mirrors(ideal, h) && Names(h.statics, h.externals, klass) && h.InStatic(nilObject)
    requires before.WellFormed() && |before.externals| > 0
    requires SameHeapGraph(Holding(h, Named(h.statics, h.externals, klass)), before)
    requires before.staticLo == h.staticLo && before.staticHi == h.staticHi
    requires after == before.(externals := [nilObject] + before.externals[1..])
    ensures Names(ideal.statics, ideal.externals, klass) && Mirrors(Holding(ideal, nilObject), after)
  {
    hide SameHeapGraph, Endless, Names, Named, Older, Heap.WellFormed, Heap.Roots;
    MeantHold(ideal, h, klass, true, nilObject);
    NamesAgree(ideal, h, klass);
    var held := Holding(ideal, Named(ideal.statics, ideal.externals, klass));
    GraphChain(held, Holding(h, Named(h.statics, h.externals, klass)), before);
    NilIsNone(held, nilObject);
    NoneStatic(before, nilObject);
    NilIsOlder(ideal, nilObject);
    HoldingEndless(ideal, nilObject);
    NilHeld(held, before, nilObject);
  }

  lemma NilIsOlder(h: Heap, nilObject: Word)
    requires Endless(h) && h.InStatic(nilObject)
    ensures Older(h, nilObject)
  {
  }

  // ---- Collections mean nothing.

  /** The operations other than collections, each with its outcome. */
  function Program(ops: seq<Op>, made: seq<bool>): seq<(Op, bool)>
    requires |ops| == |made|
  {
    if ops == [] then []
    else
      var n := |ops| - 1;
      Program(ops[..n], made[..n]) + if ops[n].Collect? then [] else [(ops[n], made[n])]
  }

  /** Runs that differ only in their collections mean the same. */
  lemma {:induction false} CollectionsMeanNothing(h: Heap, ops: seq<Op>, made: seq<bool>, ops': seq<Op>,
                                                  made': seq<bool>, nilObject: Word)
    requires |ops| == |made| && |ops'| == |made'| && Program(ops, made) == Program(ops', made')
    ensures Replay(h, ops, made, nilObject) == Replay(h, ops', made', nilObject)
    decreases |ops| + |ops'|
  {
    var n, n' := |ops| - 1, |ops'| - 1;
    if ops != [] && ops[n].Collect? {
      CollectionsMeanNothing(h, ops[..n], made[..n], ops', made', nilObject);
    } else if ops' != [] && ops'[n'].Collect? {
      CollectionsMeanNothing(h, ops, made, ops'[..n'], made'[..n'], nilObject);
    } else if ops != [] && ops' != [] {
      var p, p' := Program(ops[..n], made[..n]), Program(ops'[..n'], made'[..n']);
      assert (p + [(ops[n], made[n])])[..|p|] == p && (p' + [(ops'[n'], made'[n'])])[..|p'|] == p';
      assert (p + [(ops[n], made[n])])[|p|] == (ops[n], made[n]);
      assert (p' + [(ops'[n'], made'[n'])])[|p'|] == (ops'[n'], made'[n']);
      CollectionsMeanNothing(h, ops[..n], made[..n], ops'[..n'], made'[..n'], nilObject);
    }
  }

  /** Two real heaps that look like the same heap without end look alike. */
  lemma AlikeBoth(ideal: Heap, h: Heap, h': Heap)
    requires Mirrors(ideal, h) && Mirrors(ideal, h')
    ensures SameHeapGraph(h, h')
  {
    Symmetric(ideal, h);
    hide SameHeapGraph, Endless;
    GraphChain(h, ideal, h');
  }

  lemma Symmetric(h: Heap, h': Heap)
    requires SameHeapGraph(h, h')
    ensures SameHeapGraph(h', h)
  {
    hide Look, Walk;
  }
}
