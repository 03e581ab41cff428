/** Machine words, objects and the object graph that the mutator can see. */
module Memory {

  /** A 32-bit slot: a SmallInteger when odd, otherwise an address (0 is null). */
  type Word = nat
  type Addr = nat
  type Byte = b: int | 0 <= b < 256

  const HEADER_BYTES := 8
  const WORD_BYTES := 4

  predicate IsSmallInteger(v: Word) {
    v % 2 == 1
  }

  function CorrectPadding(size: nat): nat {
    (size + WORD_BYTES - 1) / WORD_BYTES * WORD_BYTES
  }

  /** An object in memory.  `data[0]` is the class slot and `data[1..]` are the fields;
      a binary object only has the class slot, and `size` counts its bytes. */
  datatype Obj = Obj(size: nat, binary: bool, relocated: bool, data: seq<Word>, bytes: seq<Byte>) {
    /** The shape of every object outside a collection. */
    predicate WellShaped() {
      && !relocated
      && |data| == (if binary then 1 else size + 1)
      && |bytes| == (if binary then size else 0)
    }

    function ByteSize(): nat {
      HEADER_BYTES + if binary then CorrectPadding(size) else size * WORD_BYTES
    }

    function SetData(i: nat, v: Word): Obj
      requires i < |data|
    {
      this.(data := data[i := v])
    }

    function SetByte(i: nat, v: Byte): Obj
      requires i < |bytes|
    {
      this.(bytes := bytes[i := v])
    }
  }

  /** Two words of header, and then a word for each field, or the bytes rounded up to whole words. */
  lemma SizeInBytes(o: Obj)
    ensures !o.binary ==> o.ByteSize() == 8 + 4 * o.size
    ensures o.binary ==> o.ByteSize() % 4 == 0 && 8 + o.size <= o.ByteSize() < 8 + o.size + 4
  {
  }

  type Mem = map<Addr, Obj>

  predicate Apart(a: Addr, n: nat, b: Addr, m: nat) {
    a + n <= b || b + m <= a
  }

  datatype Option<+T> = None | Some(value: T)

  /** The word found by starting at `v` and following the slots named by `path`;
      None as soon as the path leaves the objects of `m`. */
  ghost function Follow(m: Mem, v: Word, path: seq<nat>): Option<Word>
    decreases |path|
  {
    if path == [] then Some(v)
    else if v in m && path[0] < |m[v].data| then Follow(m, m[v].data[path[0]], path[1..])
    else None
  }

  /** What a reader sees of a word without comparing addresses. */
  datatype View = Nothing | Immediate(word: Word) | Object(size: nat, binary: bool, fields: nat, bytes: seq<Byte>)

  ghost function Look(m: Mem, w: Option<Word>): View {
    match w
    case None => Nothing
    case Some(v) =>
      if v in m then Object(m[v].size, m[v].binary, |m[v].data|, m[v].bytes) else Immediate(v)
  }

  /** Where the mutator can start reading. */
  datatype Root = StaticSlot(slot: Addr) | External(index: nat)
  type Roots = map<Root, Word>

  ghost function Walk(m: Mem, roots: Roots, r: Root, path: seq<nat>): Option<Word>
    requires r in roots
  {
    Follow(m, roots[r], path)
  }

  /** Two memories hold the same graph when no mutator starting from the roots can tell
      them apart: along every path it sees the same immediate words and the same objects,
      and two paths lead to one object in one memory exactly when they do in the other. */
  ghost predicate SameGraph(m: Mem, roots: Roots, m': Mem, roots': Roots) {
    && roots.Keys == roots'.Keys
    && (forall r, p | r in roots ::
          Look(m, Walk(m, roots, r, p)) == Look(m', Walk(m', roots', r, p)))
    && (forall r, p, s, q | r in roots && s in roots ::
          Walk(m, roots, r, p) == Walk(m, roots, s, q) <==> Walk(m', roots', r, p) == Walk(m', roots', s, q))
  }

  ghost predicate Reaches(m: Mem, v: Word, a: Addr) {
    a in m && exists path :: Follow(m, v, path) == Some(a)
  }

  lemma SameGraphTransitive(m0: Mem, r0: Roots, m1: Mem, r1: Roots, m2: Mem, r2: Roots)
    requires SameGraph(m0, r0, m1, r1) && SameGraph(m1, r1, m2, r2)
    ensures SameGraph(m0, r0, m2, r2)
  {
    forall r, p | r in r0
      ensures Look(m0, Walk(m0, r0, r, p)) == Look(m2, Walk(m2, r2, r, p))
    {
      assert r in r1;
      assert Look(m0, Walk(m0, r0, r, p)) == Look(m1, Walk(m1, r1, r, p));
    }
    forall r, p, s, q | r in r0 && s in r0
      ensures Walk(m0, r0, r, p) == Walk(m0, r0, s, q) <==> Walk(m2, r2, r, p) == Walk(m2, r2, s, q)
    {
      assert r in r1 && s in r1;
      assert Walk(m0, r0, r, p) == Walk(m0, r0, s, q) <==> Walk(m1, r1, r, p) == Walk(m1, r1, s, q);
    }
  }

  lemma {:induction false} FollowAppend(m: Mem, v: Word, path: seq<nat>, i: nat)
    requires Follow(m, v, path).Some?
    requires Follow(m, v, path).value in m
    requires i < |m[Follow(m, v, path).value].data|
    ensures Follow(m, v, path + [i]) == Some(m[Follow(m, v, path).value].data[i])
    decreases |path|
  {
    if path == [] {
      assert path + [i] == [i];
      assert [i][1..] == [];
    } else {
      assert (path + [i])[1..] == path[1..] + [i];
      FollowAppend(m, m[v].data[path[0]], path[1..], i);
    }
  }

  lemma ReachesStep(m: Mem, v: Word, a: Addr, i: nat)
    requires Reaches(m, v, a) && i < |m[a].data| && m[a].data[i] in m
    ensures Reaches(m, v, m[a].data[i])
  {
    var path :| Follow(m, v, path) == Some(a);
    FollowAppend(m, v, path, i);
    assert Follow(m, v, path + [i]) == Some(m[a].data[i]);
  }

  predicate Within(x: int, lo: int, hi: int) {
    lo <= x < hi
  }

  ghost function Interval(lo: int, hi: int): set<int> {
    set x: int | lo <= x < hi && Within(x, lo, hi)
  }

  predicate Occupies(m: Mem, a: Addr, x: int) {
    a in m && a <= x < a + m[a].ByteSize()
  }

  /** The addresses from lo up to hi that belong to an object listed in `which`. */
  ghost function Covered(m: Mem, which: set<Addr>, lo: Addr, hi: Addr): set<int> {
    set x: int | lo <= x < hi && Within(x, lo, hi) && exists a :: a in which && Occupies(m, a, x)
  }

  lemma {:induction false} IntervalSize(lo: int, hi: int)
    requires lo <= hi
    ensures |Interval(lo, hi)| == hi - lo
    decreases hi - lo
  {
    if lo < hi {
      assert Interval(lo, hi) == Interval(lo, hi - 1) + {hi - 1};
      IntervalSize(lo, hi - 1);
    } else {
      assert Interval(lo, hi) == {};
    }
  }

  lemma CoveredSplits(m: Mem, which: set<Addr>, a: Addr, lo: Addr, hi: Addr)
    requires a in m && lo <= a && a + m[a].ByteSize() <= hi
    ensures Covered(m, which + {a}, lo, hi) == Covered(m, which, lo, hi) + Interval(a, a + m[a].ByteSize())
  {
    hide Obj.ByteSize;
    var own, after := Interval(a, a + m[a].ByteSize()), Covered(m, which + {a}, lo, hi);
    assert a in which + {a};
    forall x | x in own
      ensures x in after
    {
      assert Within(x, lo, hi) && Occupies(m, a, x);
    }
  }

  lemma CoveredApart(m: Mem, which: set<Addr>, a: Addr, lo: Addr, hi: Addr)
    requires a in m
    requires forall b :: b in which && b in m ==> Apart(a, m[a].ByteSize(), b, m[b].ByteSize())
    ensures Covered(m, which, lo, hi) !! Interval(a, a + m[a].ByteSize())
  {
    hide Obj.ByteSize;
  }

  lemma CoveredWithin(m: Mem, which: set<Addr>, lo: Addr, hi: Addr)
    ensures Covered(m, which, lo, hi) <= Interval(lo, hi)
  {
    hide Occupies;
  }

  /** One more object apart from the others covers exactly its own bytes more, and the
      covered bytes never exceed the interval. */
  lemma CoveredGrows(m: Mem, which: set<Addr>, a: Addr, lo: Addr, hi: Addr)
    requires a in m && a !in which && lo <= a && a + m[a].ByteSize() <= hi
    requires forall b :: b in which && b in m ==> Apart(a, m[a].ByteSize(), b, m[b].ByteSize())
    ensures |Covered(m, which + {a}, lo, hi)| == |Covered(m, which, lo, hi)| + m[a].ByteSize()
    ensures |Covered(m, which + {a}, lo, hi)| <= hi - lo
  {
    hide *;
    var n := m[a].ByteSize();
    var before, own, after := Covered(m, which, lo, hi), Interval(a, a + n), Covered(m, which + {a}, lo, hi);
    CoveredSplits(m, which, a, lo, hi);
    CoveredApart(m, which, a, lo, hi);
    CoveredWithin(m, which + {a}, lo, hi);
    IntervalSize(a, a + n);
    IntervalSize(lo, hi);
    Contained(after, Interval(lo, hi));
  }

  lemma {:induction false} Contained<T>(a: set<T>, b: set<T>)
    requires a <= b
    ensures |a| <= |b|
    decreases |a|
  {
    if a != {} {
      var x :| x in a;
      Contained(a - {x}, b - {x});
    }
  }
}
