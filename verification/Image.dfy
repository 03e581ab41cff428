/** The image file: how an object graph is written as a stream of records, and how it is
    read back into a static heap. */
module Image {
  import opened Arithmetic
  import opened Memory
  import opened Moving

  const WORD_LIMIT := 0x1_0000_0000

  // Record types
  const ORDINARY_OBJECT := 1
  const INLINE_INTEGER := 2
  const BYTE_OBJECT := 3
  const PREVIOUS_OBJECT := 4
  const NIL_OBJECT := 5

  type Stream = seq<Byte>

  // ---- Words.

  function EncodeWord(word: nat): Stream {
    if word >= 0xFF then [0xFF] + EncodeWord(word - 0xFF) else [word]
  }

  /** A word and what follows it; the running sum is a 32-bit number.  None at the end of
      the file. */
  function DecodeWord(s: Stream, sum: nat): (r: Option<(nat, Stream)>)
    ensures r.Some? ==> |r.value.1| < |s|
    decreases |s|
  {
    if s == [] then None
    else if s[0] == 0xFF then DecodeWord(s[1..], (sum + 0xFF) % WORD_LIMIT)
    else Some(((sum + s[0]) % WORD_LIMIT, s[1..]))
  }

  lemma {:induction false} WordRoundTrip(word: nat, sum: nat, rest: Stream)
    requires sum + word < WORD_LIMIT
    ensures DecodeWord(EncodeWord(word) + rest, sum) == Some((sum + word, rest))
    decreases word
  {
    if word >= 0xFF {
      assert (EncodeWord(word) + rest)[1..] == EncodeWord(word - 0xFF) + rest;
      WordRoundTrip(word - 0xFF, sum + 0xFF, rest);
    } else {
      assert ([word] + rest)[1..] == rest;
    }
  }

  function EncodeWords(words: seq<Byte>): Stream {
    if words == [] then [] else EncodeWord(words[0]) + EncodeWords(words[1..])
  }

  // ---- SmallIntegers.

  /** The value of a SmallInteger as the 32 bits that are written. */
  function IntegerBits(v: Word): nat {
    v / 2 + if v >= 0x8000_0000 then 0x8000_0000 else 0
  }

  function NewInteger(bits: nat): Word {
    (2 * bits + 1) % WORD_LIMIT
  }

  function LittleEndian(bits: nat): Stream {
    [bits % 256, bits / 256 % 256, bits / 65536 % 256, bits / 16777216 % 256]
  }

  function FromLittleEndian(b0: Byte, b1: Byte, b2: Byte, b3: Byte): nat {
    b0 + 256 * b1 + 65536 * b2 + 16777216 * b3
  }

  lemma BytesRoundTrip(bits: nat)
    requires bits < WORD_LIMIT
    ensures var s := LittleEndian(bits); FromLittleEndian(s[0], s[1], s[2], s[3]) == bits
  {
    var q1, r0 := bits / 256, bits % 256;
    var q2, r1 := q1 / 256, q1 % 256;
    var q3, r2 := q2 / 256, q2 % 256;
    Quotient(bits, 65536, q2, 256 * r1 + r0);
    Quotient(bits, 16777216, q3, 65536 * r2 + 256 * r1 + r0);
    Quotient(q3, 256, 0, q3);
  }

  lemma IntegerRoundTrip(v: Word)
    requires IsSmallInteger(v) && v < WORD_LIMIT
    ensures IntegerBits(v) < WORD_LIMIT && NewInteger(IntegerBits(v)) == v
  {
  }

  // ---- Graphs that can be written.

  predicate Storable(m: Mem, v: Word) {
    if IsSmallInteger(v) then v < WORD_LIMIT else v in m
  }

  ghost predicate RecordAt(m: Mem, a: Addr)
    requires a in m
  {
    && !IsSmallInteger(a) && m[a].WellShaped() && m[a].size < WORD_LIMIT
    && forall i | 0 <= i < |m[a].data| :: Storable(m, m[a].data[i])
  }

  ghost predicate Graph(m: Mem) {
    |m| < WORD_LIMIT && forall a | a in m :: RecordAt(m, a)
  }

  predicate AllStorable(m: Mem, words: seq<Word>) {
    forall i | 0 <= i < |words| :: Storable(m, words[i])
  }

  lemma Parts(m: Mem, a: Addr)
    requires Graph(m) && a in m
    ensures AllStorable(m, m[a].data) && |m[a].data| > 0 && Storable(m, m[a].data[0]) && !IsSmallInteger(a)
  {
    assert RecordAt(m, a);
  }

  function IndexOf(s: seq<Addr>, a: Addr): (k: nat)
    requires a in s
    ensures k < |s| && s[k] == a
  {
    if s[0] == a then 0 else 1 + IndexOf(s[1..], a)
  }

  // ---- Writing.

  datatype Output = Output(bytes: Stream, objects: seq<Addr>)

  ghost predicate Known(m: Mem, objects: seq<Addr>) {
    && (forall i | 0 <= i < |objects| :: objects[i] in m)
    && (forall i, j | 0 <= i < j < |objects| :: objects[i] != objects[j])
  }

  ghost function Unwritten(m: Mem, objects: seq<Addr>): set<Addr> {
    m.Keys - set a | a in objects
  }

  /** The record of a word when `objects` have been written so far. */
  function Write(m: Mem, objects: seq<Addr>, v: Word): (o: Output)
    requires Graph(m) && Known(m, objects) && Storable(m, v)
    ensures objects <= o.objects && Known(m, o.objects)
    decreases |Unwritten(m, objects)|, 1
  {
    if IsSmallInteger(v) then
      Output(EncodeWord(INLINE_INTEGER) + LittleEndian(IntegerBits(v)), objects)
    else if v in objects then
      var index := IndexOf(objects, v);
      if index == 0 then Output(EncodeWord(NIL_OBJECT), objects)
      else Output(EncodeWord(PREVIOUS_OBJECT) + EncodeWord(index), objects)
    else
      LessUnwritten(m, objects, v);
      Parts(m, v);
      var o := m[v];
      if o.binary then
        var rest := Write(m, objects + [v], o.data[0]);
        Output(EncodeWord(BYTE_OBJECT) + EncodeWord(o.size) + EncodeWords(o.bytes) + rest.bytes, rest.objects)
      else
        var rest := WriteAll(m, objects + [v], o.data);
        Output(EncodeWord(ORDINARY_OBJECT) + EncodeWord(o.size) + rest.bytes, rest.objects)
  }

  function WriteAll(m: Mem, objects: seq<Addr>, words: seq<Word>): (o: Output)
    requires Graph(m) && Known(m, objects) && AllStorable(m, words)
    ensures objects <= o.objects && Known(m, o.objects)
    decreases |Unwritten(m, objects)|, 2, |words|
  {
    if words == [] then Output([], objects)
    else
      var first := Write(m, objects, words[0]);
      NoMoreUnwritten(m, objects, first.objects);
      var rest := WriteAll(m, first.objects, words[1..]);
      Output(first.bytes + rest.bytes, rest.objects)
  }

  lemma LessUnwritten(m: Mem, objects: seq<Addr>, v: Addr)
    requires Known(m, objects) && v in m && v !in objects
    ensures Known(m, objects + [v]) && |Unwritten(m, objects + [v])| < |Unwritten(m, objects)|
  {
    assert v in objects + [v];
    assert Unwritten(m, objects + [v]) == Unwritten(m, objects) - {v};
  }

  lemma NoMoreUnwritten(m: Mem, objects: seq<Addr>, more: seq<Addr>)
    requires objects <= more
    ensures |Unwritten(m, more)| <= |Unwritten(m, objects)|
  {
    assert forall a | a in objects :: a in more;
    Contained(Unwritten(m, more), Unwritten(m, objects));
  }

  // ---- Reading.

  /** The static heap grows down from aligned addresses, and the objects met are in it. */
  ghost predicate Sound(objects: seq<Addr>, mem: Mem, pointer: Addr) {
    && pointer % WORD_BYTES == 0
    && (forall a | a in mem :: pointer <= a && a % WORD_BYTES == 0)
    && (forall i | 0 <= i < |objects| :: objects[i] in mem)
    && (forall i, j | 0 <= i < j < |objects| :: objects[i] != objects[j])
  }

  /** The reader: what is left of the stream, the objects met so far, the static heap and
      the address below which it is free. */
  datatype Reader = Reader(rest: Stream, objects: seq<Addr>, mem: Mem, pointer: Addr) {
    ghost predicate Valid() {
      Sound(objects, mem, pointer)
    }

    /** Space for an object, entered as the next one met. */
    function Place(o: Obj): Reader
      requires o.ByteSize() <= pointer
    {
      var a := pointer - o.ByteSize();
      Reader(rest, objects + [a], mem[a := o], a)
    }
  }

  /** The result of reading; Bad stands for an invalid record, the end of the file, or a
      static heap that is too small. */
  datatype Reading = Bad | Good(value: Word, to: Reader)

  ghost predicate Kept(mem: Mem, mem': Mem, a: Addr) {
    forall b | b in mem :: b in mem' && (b != a ==> mem'[b] == mem[b])
  }

  const NOWHERE: Addr := 1

  function Blank(size: nat): Obj {
    Obj(size, false, false, seq(size + 1, _ => 0), [])
  }

  function BlankBytes(size: nat, bytes: seq<Byte>): Obj {
    Obj(size, true, false, [0], bytes)
  }

  function DecodeWords(s: Stream, count: nat): (r: Option<(seq<Byte>, Stream)>)
    ensures r.Some? ==> |r.value.1| <= |s| && |r.value.0| == count
    decreases count
  {
    if count == 0 then Some(([], s))
    else
      match DecodeWord(s, 0)
      case None => None
      case Some((word, s')) =>
        match DecodeWords(s', count - 1)
        case None => None
        case Some((bytes, s'')) => Some(([word % 256] + bytes, s''))
  }

  function Read(r: Reader, base: Addr): (result: Reading)
    requires r.Valid()
    ensures result.Good? ==> result.to.Valid() && |result.to.rest| < |r.rest| && Kept(r.mem, result.to.mem, NOWHERE)
    decreases |r.rest|, 1
  {
    match DecodeWord(r.rest, 0)
    case None => Bad
    case Some((kind, s)) => ReadRecord(r.(rest := s), base, kind)
  }

  function ReadRecord(r: Reader, base: Addr, kind: nat): (result: Reading)
    requires r.Valid()
    ensures result.Good? ==> result.to.Valid() && |result.to.rest| <= |r.rest| && Kept(r.mem, result.to.mem, NOWHERE)
    decreases |r.rest|, 3
  {
    if kind == ORDINARY_OBJECT then
      match DecodeWord(r.rest, 0)
      case None => Bad
      case Some((fieldsCount, s)) =>
        var o := Blank(fieldsCount);
        if r.pointer < base + o.ByteSize() then Bad
        else
          PlaceValid(r.(rest := s), o);
          ReadSlots(r.(rest := s).Place(o), base, r.pointer - o.ByteSize(), 0)
    else if kind == INLINE_INTEGER then
      if |r.rest| < 4 then Bad
      else Good(NewInteger(FromLittleEndian(r.rest[0], r.rest[1], r.rest[2], r.rest[3])), r.(rest := r.rest[4..]))
    else if kind == BYTE_OBJECT then
      match DecodeWord(r.rest, 0)
      case None => Bad
      case Some((dataSize, s)) =>
        match DecodeWords(s, dataSize)
        case None => Bad
        case Some((bytes, s')) =>
          var o := BlankBytes(dataSize, bytes);
          if r.pointer < base + o.ByteSize() then Bad
          else
            PlaceValid(r.(rest := s'), o);
            ReadSlots(r.(rest := s').Place(o), base, r.pointer - o.ByteSize(), 0)
    else if kind == PREVIOUS_OBJECT then
      match DecodeWord(r.rest, 0)
      case None => Bad
      case Some((index, s)) => if index < |r.objects| then Good(r.objects[index], r.(rest := s)) else Bad
    else if kind == NIL_OBJECT then
      if r.objects == [] then Bad else Good(r.objects[0], r)
    else Bad
  }

  /** Reads the remaining slots of the object at a: its class, then its fields. */
  function ReadSlots(r: Reader, base: Addr, a: Addr, i: nat): (result: Reading)
    requires r.Valid() && a in r.mem && i <= |r.mem[a].data|
    ensures result.Good? ==> result.to.Valid() && |result.to.rest| <= |r.rest| && Kept(r.mem, result.to.mem, a)
    decreases |r.rest|, 2, |r.mem[a].data| - i
  {
    if i == |r.mem[a].data| then Good(a, r)
    else
      match Read(r, base)
      case Bad => Bad
      case Good(value, r') =>
        assert r'.mem[a] == r.mem[a];
        ReadSlots(r'.(mem := r'.mem[a := r'.mem[a].SetData(i, value)]), base, a, i + 1)
  }

  lemma PlaceValid(r: Reader, o: Obj)
    requires r.Valid() && o.ByteSize() <= r.pointer
    ensures r.Place(o).Valid() && r.pointer - o.ByteSize() !in r.mem && Kept(r.mem, r.Place(o).mem, NOWHERE)
  {
    assert o.ByteSize() % WORD_BYTES == 0 && o.ByteSize() >= HEADER_BYTES;
    hide Obj.ByteSize;
  }

  // ---- Reading what was written.

  /** What a word of the written graph has become, given the objects written and read. */
  function Renamed(written: seq<Addr>, read: seq<Addr>, v: Word): Word
    requires |written| == |read|
  {
    if !IsSmallInteger(v) && v in written then read[IndexOf(written, v)] else v
  }

  predicate Met(written: seq<Addr>, v: Word) {
    IsSmallInteger(v) || v in written
  }

  /** The k-th object read is the k-th object written with every slot renamed. */
  ghost predicate Rebuilt(m: Mem, written: seq<Addr>, read: seq<Addr>, mem: Mem, k: nat)
    requires |written| == |read|
  {
    && k < |written| && written[k] in m && read[k] in mem
    && var o, c := m[written[k]], mem[read[k]];
    && c.size == o.size && c.binary == o.binary && !c.relocated && c.bytes == o.bytes && |c.data| == |o.data|
    && forall i | 0 <= i < |o.data| :: Met(written, o.data[i]) && c.data[i] == Renamed(written, read, o.data[i])
  }

  function Footprint(m: Mem, objects: seq<Addr>): nat {
    if objects == [] then 0
    else Footprint(m, objects[..|objects| - 1]) +
         if objects[|objects| - 1] in m then m[objects[|objects| - 1]].ByteSize() else 0
  }

  /** Reading took `written` to `written'` objects, kept everything but the object at a, and
      rebuilt every object met on the way. */
  ghost predicate Progress(m: Mem, written: seq<Addr>, written': seq<Addr>, r: Reader, r': Reader, a: Addr) {
    && |r.objects| == |written| && |r'.objects| == |written'|
    && written <= written' && r.objects <= r'.objects
    && r'.Valid() && Kept(r.mem, r'.mem, a)
    && r'.pointer + Footprint(m, written') == r.pointer + Footprint(m, written)
    && (forall b | b in r'.mem && b !in r.mem :: b in r'.objects[|written|..])
    && (forall k | |written| <= k < |written'| ::
          r'.objects[k] !in r.mem && Rebuilt(m, written', r'.objects, r'.mem, k))
  }

  lemma {:induction false} IndexStable(s: seq<Addr>, s': seq<Addr>, v: Addr)
    requires s <= s' && v in s
    ensures v in s' && IndexOf(s', v) == IndexOf(s, v)
  {
    assert s'[IndexOf(s, v)] == v;
    if s[0] != v {
      assert v in s[1..];
      assert s[1..] <= s'[1..];
      IndexStable(s[1..], s'[1..], v);
    }
  }

  lemma RenamedStable(w: seq<Addr>, w': seq<Addr>, r: seq<Addr>, r': seq<Addr>, v: Word)
    requires |w| == |r| && |w'| == |r'| && w <= w' && r <= r' && Met(w, v)
    ensures Met(w', v) && Renamed(w', r', v) == Renamed(w, r, v)
  {
    if !IsSmallInteger(v) {
      IndexStable(w, w', v);
      assert r'[IndexOf(w, v)] == r[IndexOf(w, v)];
    }
  }

  lemma RebuiltStable(m: Mem, w: seq<Addr>, w': seq<Addr>, r: seq<Addr>, r': seq<Addr>, mem: Mem, mem': Mem, k: nat)
    requires |w| == |r| && |w'| == |r'| && w <= w' && r <= r' && Rebuilt(m, w, r, mem, k)
    requires r[k] in mem' && mem'[r[k]] == mem[r[k]]
    ensures Rebuilt(m, w', r', mem', k)
  {
    var o := m[w[k]];
    assert w'[k] == w[k] && r'[k] == r[k];
    forall i | 0 <= i < |o.data|
      ensures Met(w', o.data[i]) && mem'[r[k]].data[i] == Renamed(w', r', o.data[i])
    {
      RenamedStable(w, w', r, r', o.data[i]);
    }
  }

  lemma ProgressChain(m: Mem, w0: seq<Addr>, w1: seq<Addr>, w2: seq<Addr>, r0: Reader, r1: Reader, r2: Reader, a: Addr)
    requires Progress(m, w0, w1, r0, r1, a) && Progress(m, w1, w2, r1, r2, a)
    requires a in r0.mem || a == NOWHERE
    ensures Progress(m, w0, w2, r0, r2, a)
  {
    forall k | |w0| <= k < |w2|
      ensures r2.objects[k] !in r0.mem && Rebuilt(m, w2, r2.objects, r2.mem, k)
    {
      if k < |w1| { ChainEarlier(m, w0, w1, w2, r0, r1, r2, a, k); }
    }
    hide Rebuilt, Footprint, Sound;
    forall b | b in r2.mem && b !in r0.mem
      ensures b in r2.objects[|w0|..]
    {
      if b in r1.mem {
        assert b in r1.objects[|w0|..];
        assert r1.objects[|w0|..] <= r2.objects[|w0|..];
      } else {
        assert b in r2.objects[|w1|..];
        assert r2.objects[|w1|..] == r2.objects[|w0|..][|w1| - |w0|..];
      }
    }
  }

  /** What the first part rebuilt is still there after the second. */
  lemma ChainEarlier(m: Mem, w0: seq<Addr>, w1: seq<Addr>, w2: seq<Addr>, r0: Reader, r1: Reader, r2: Reader, a: Addr,
                     k: nat)
    requires Progress(m, w0, w1, r0, r1, a) && Progress(m, w1, w2, r1, r2, a)
    requires a in r0.mem || a == NOWHERE
    requires |w0| <= k < |w1|
    ensures r2.objects[k] !in r0.mem && Rebuilt(m, w2, r2.objects, r2.mem, k)
  {
    hide Rebuilt, Footprint;
    assert Rebuilt(m, w1, r1.objects, r1.mem, k);
    assert r2.objects[k] == r1.objects[k] && r1.objects[k] in r1.mem;
    RebuiltStable(m, w1, w2, r1.objects, r2.objects, r1.mem, r2.mem, k);
  }

  lemma FootprintSnoc(m: Mem, w: seq<Addr>, v: Addr)
    requires v in m
    ensures Footprint(m, w + [v]) == Footprint(m, w) + m[v].ByteSize()
  {
    assert (w + [v])[..|w|] == w;
  }

  lemma {:induction false} FootprintGrows(m: Mem, w: seq<Addr>, w': seq<Addr>)
    requires w <= w'
    ensures Footprint(m, w) <= Footprint(m, w')
    decreases |w'|
  {
    if |w| < |w'| {
      FootprintGrows(m, w, w'[..|w'| - 1]);
    } else {
      assert w == w';
    }
  }

  lemma {:induction false} BytesReadBack(bytes: seq<Byte>, rest: Stream)
    ensures DecodeWords(EncodeWords(bytes) + rest, |bytes|) == Some((bytes, rest))
  {
    if bytes == [] {
      assert EncodeWords(bytes) + rest == rest;
    } else {
      assert EncodeWords(bytes) + rest == EncodeWord(bytes[0]) + (EncodeWords(bytes[1..]) + rest);
      WordRoundTrip(bytes[0], 0, EncodeWords(bytes[1..]) + rest);
      BytesReadBack(bytes[1..], rest);
      assert [bytes[0]] + bytes[1..] == bytes;
    }
  }

  /** The slots of the object at a have been read: those below i are as they were. */
  ghost predicate Filled(written: seq<Addr>, r: Reader, r': Reader, a: Addr, i: nat, words: seq<Word>)
    requires |written| == |r'.objects|
  {
    && a in r.mem && a in r'.mem && |r.mem[a].data| == |r'.mem[a].data| == i + |words|
    && r'.mem[a] == r.mem[a].(data := r'.mem[a].data)
    && (forall j | 0 <= j < i :: r'.mem[a].data[j] == r.mem[a].data[j])
    && (forall j | 0 <= j < |words| ::
          Met(written, words[j]) && r'.mem[a].data[i + j] == Renamed(written, r'.objects, words[j]))
  }

  /** Reading the record of a word gives the renamed word and leaves the rest of the stream. */
  ghost predicate ReadBack(m: Mem, w: seq<Addr>, w': seq<Addr>, v: Word, r: Reader, tail: Stream, result: Reading) {
    && result.Good? && result.to.rest == tail
    && Progress(m, w, w', r, result.to, NOWHERE)
    && Met(w', v) && result.value == Renamed(w', result.to.objects, v)
  }

  ghost predicate SlotsReadBack(m: Mem, w: seq<Addr>, w': seq<Addr>, words: seq<Word>, r: Reader, a: Addr, i: nat,
                                tail: Stream, result: Reading) {
    && result.Good? && result.to.rest == tail && result.value == a
    && Progress(m, w, w', r, result.to, a)
    && Filled(w', r, result.to, a, i, words)
  }

  /** The static heap has room for the objects that are still to be read. */
  ghost predicate Fits(m: Mem, w: seq<Addr>, out: Output, r: Reader, base: Addr) {
    base + Footprint(m, out.objects) <= r.pointer + Footprint(m, w)
  }

  /** The stream goes on with the record of v. */
  ghost predicate WordTask(m: Mem, w: seq<Addr>, v: Word, r: Reader, base: Addr, tail: Stream, out: Output) {
    && Graph(m) && Known(m, w) && Storable(m, v) && r.Valid() && |r.objects| == |w|
    && out == Write(m, w, v) && r.rest == out.bytes + tail && base <= r.pointer
  }

  /** The stream goes on with the records of the slots of the object at a from slot i. */
  ghost predicate SlotsTask(m: Mem, w: seq<Addr>, words: seq<Word>, r: Reader, base: Addr, a: Addr, i: nat,
                            tail: Stream, out: Output) {
    && Graph(m) && Known(m, w) && AllStorable(m, words) && r.Valid() && |r.objects| == |w|
    && a in r.mem && |r.mem[a].data| == i + |words|
    && out == WriteAll(m, w, words) && r.rest == out.bytes + tail && base <= r.pointer
  }

  /** ReadSlots, wherever it is defined. */
  ghost function SlotsOf(r: Reader, base: Addr, a: Addr, i: nat): Reading {
    if r.Valid() && a in r.mem && i <= |r.mem[a].data| then ReadSlots(r, base, a, i) else Bad
  }

  ghost function WordOf(r: Reader, base: Addr): Reading {
    if r.Valid() then Read(r, base) else Bad
  }

  lemma {:induction false} ReadsBack(m: Mem, w: seq<Addr>, v: Word, r: Reader, base: Addr, tail: Stream, out: Output)
    requires WordTask(m, w, v, r, base, tail, out)
    ensures if Fits(m, w, out, r, base) then ReadBack(m, w, out.objects, v, r, tail, WordOf(r, base))
            else WordOf(r, base) == Bad
    decreases |Unwritten(m, w)|, 1
  {
    if IsSmallInteger(v) {
      IntegerReadsBack(m, w, v, r, base, tail);
    } else if v in w {
      NoMoreThan(m.Keys, w);
      ReferenceReadsBack(m, w, v, r, base, tail);
    } else {
      hide Unwritten, WordTask, SlotsTask, ReadBack, SlotsReadBack, PlacedFor, WordOf, SlotsOf, Fits;
      var all := RecordShape(m, w, v, r, base, tail, out);
      if r.pointer < base + m[v].ByteSize() {
        NoRoom(m, w, v, r, base, tail, out, all);
      } else {
        var a, r1 := PlaceRecord(m, w, v, r, base, tail, out, all);
        SlotsReadBackAll(m, w + [v], m[v].data, r1, base, a, 0, tail, all);
        if Fits(m, w, out, r, base) { RecordDone(m, w, all.objects, v, r, r1, a, tail, SlotsOf(r1, base, a, 0)); }
      }
    }
  }

  lemma {:induction false} SlotsReadBackAll(m: Mem, w: seq<Addr>, words: seq<Word>, r: Reader, base: Addr, a: Addr,
                                            i: nat, tail: Stream, out: Output)
    requires SlotsTask(m, w, words, r, base, a, i, tail, out)
    ensures if Fits(m, w, out, r, base)
            then SlotsReadBack(m, w, out.objects, words, r, a, i, tail, SlotsOf(r, base, a, i))
            else SlotsOf(r, base, a, i) == Bad
    decreases |Unwritten(m, w)|, 2, |words|
  {
    hide Unwritten, WordTask, SlotsTask, ReadBack, SlotsReadBack, StoredSlot, WordOf, SlotsOf, Known, AllStorable,
         WriteAll, Fits;
    if words == [] {
      NoSlots(m, w, r, base, a, i, tail, out);
    } else {
      var first, rest := SlotShape(m, w, words, r, base, a, i, tail, out);
      ReadsBack(m, w, words[0], r, base, rest.bytes + tail, first);
      if Fits(m, w, first, r, base) {
        var r1, r2 := SlotStored(m, w, words, r, base, a, i, tail, out, first, rest);
        SlotsReadBackAll(m, first.objects, words[1..], r2, base, a, i + 1, tail, rest);
        if Fits(m, w, out, r, base) {
          SlotDone(m, w, first.objects, rest.objects, words, r, r1, r2, a, i, tail, SlotsOf(r2, base, a, i + 1));
        }
      } else {
        SlotBad(m, w, words, r, base, a, i, tail, out);
      }
    }
  }

  lemma RecordShape(m: Mem, w: seq<Addr>, v: Addr, r: Reader, base: Addr, tail: Stream, out: Output)
    returns (all: Output)
    requires WordTask(m, w, v, r, base, tail, out) && !IsSmallInteger(v) && v !in w
    ensures Known(m, w + [v]) && v in m && AllStorable(m, m[v].data) && all == WriteAll(m, w + [v], m[v].data)
    ensures out.objects == all.objects && w + [v] <= all.objects
    ensures r.rest == Header(m[v]) + (all.bytes + tail)
    ensures |Unwritten(m, w + [v])| < |Unwritten(m, w)|
  {
    hide Known, Header, AllStorable, Write, WriteAll, Sound, Footprint, RecordAt;
    LessUnwritten(m, w, v);
    Parts(m, v);
    hide Graph, Unwritten;
    WriteShape(m, w, v);
    all := WriteAll(m, w + [v], m[v].data);
    assert (Header(m[v]) + all.bytes) + tail == Header(m[v]) + (all.bytes + tail);
  }

  /** The object of a full record has been placed, and nothing else has changed. */
  ghost predicate PlacedFor(m: Mem, w: seq<Addr>, v: Addr, r: Reader, r1: Reader, a: Addr) {
    && v in m && v !in w && !IsSmallInteger(v) && m[v].WellShaped()
    && r.Valid() && r1.Valid() && |r.objects| == |w|
    && a + m[v].ByteSize() == r.pointer && a !in r.mem
    && r1 == Reader(r1.rest, r.objects + [a], r.mem[a := BlankFor(m[v])], a)
    && |BlankFor(m[v]).data| == |m[v].data|
  }

  lemma PlaceRecord(m: Mem, w: seq<Addr>, v: Addr, r: Reader, base: Addr, tail: Stream, out: Output, all: Output)
    returns (a: Addr, r1: Reader)
    requires WordTask(m, w, v, r, base, tail, out) && !IsSmallInteger(v) && v !in w
    requires Known(m, w + [v]) && v in m && AllStorable(m, m[v].data) && all == WriteAll(m, w + [v], m[v].data)
    requires out.objects == all.objects && r.rest == Header(m[v]) + (all.bytes + tail)
    requires base + m[v].ByteSize() <= r.pointer
    ensures PlacedFor(m, w, v, r, r1, a) && WordOf(r, base) == SlotsOf(r1, base, a, 0)
    ensures SlotsTask(m, w + [v], m[v].data, r1, base, a, 0, tail, all)
    ensures Fits(m, w, out, r, base) <==> Fits(m, w + [v], all, r1, base)
  {
    hide Write, WriteAll, Header, Storable, AllStorable, Known;
    assert RecordAt(m, v);
    FootprintSnoc(m, w, v);
    BlankSize(m[v]);
    HeaderReadsBack(r, base, m[v], all.bytes + tail);
    PlaceValid(r.(rest := all.bytes + tail), BlankFor(m[v]));
    a, r1 := r.pointer - m[v].ByteSize(), r.(rest := all.bytes + tail).Place(BlankFor(m[v]));
    hide Read, ReadSlots, Graph, Footprint, Sound, Obj.WellShaped, Obj.ByteSize;
  }

  lemma NoRoom(m: Mem, w: seq<Addr>, v: Addr, r: Reader, base: Addr, tail: Stream, out: Output, all: Output)
    requires WordTask(m, w, v, r, base, tail, out) && !IsSmallInteger(v) && v !in w
    requires v in m && out.objects == all.objects && w + [v] <= all.objects
    requires r.rest == Header(m[v]) + (all.bytes + tail)
    requires r.pointer < base + m[v].ByteSize()
    ensures WordOf(r, base) == Bad && !Fits(m, w, out, r, base)
  {
    hide Write, WriteAll, Header, Storable, AllStorable, Known;
    assert RecordAt(m, v);
    FootprintSnoc(m, w, v);
    FootprintGrows(m, w + [v], all.objects);
    BlankSize(m[v]);
    HeaderReadsBack(r, base, m[v], all.bytes + tail);
    hide Read, ReadSlots, Graph, Footprint, Sound, Obj.WellShaped, Obj.ByteSize;
  }

  lemma BlankSize(o: Obj)
    requires o.WellShaped()
    ensures BlankFor(o).ByteSize() == o.ByteSize() && |BlankFor(o).data| == |o.data|
  {
  }

  lemma {:induction false} NoMoreThan(all: set<Addr>, w: seq<Addr>)
    requires forall i | 0 <= i < |w| :: w[i] in all
    requires forall i, j | 0 <= i < j < |w| :: w[i] != w[j]
    ensures |w| <= |all|
    decreases |w|
  {
    if w != [] { NoMoreThan(all - {w[|w| - 1]}, w[..|w| - 1]); }
  }

  lemma NoProgress(m: Mem, w: seq<Addr>, r: Reader, rest: Stream)
    requires r.Valid() && |r.objects| == |w|
    ensures Progress(m, w, w, r, r.(rest := rest), NOWHERE)
  {
    hide Footprint, Rebuilt;
  }

  lemma IntegerReadsBack(m: Mem, w: seq<Addr>, v: Word, r: Reader, base: Addr, tail: Stream)
    requires Graph(m) && Known(m, w) && Storable(m, v) && r.Valid() && |r.objects| == |w| && IsSmallInteger(v)
    requires r.rest == Write(m, w, v).bytes + tail
    ensures ReadBack(m, w, w, v, r, tail, Read(r, base))
  {
    hide Graph, Known, Sound;
    var bits := LittleEndian(IntegerBits(v));
    assert r.rest == EncodeWord(INLINE_INTEGER) + (bits + tail);
    WordRoundTrip(INLINE_INTEGER, 0, bits + tail);
    IntegerRoundTrip(v);
    BytesRoundTrip(IntegerBits(v));
    hide LittleEndian, FromLittleEndian, NewInteger, IntegerBits;
    assert (bits + tail)[4..] == tail && (bits + tail)[..4] == bits;
    NoProgress(m, w, r, tail);
  }

  lemma ReferenceReadsBack(m: Mem, w: seq<Addr>, v: Word, r: Reader, base: Addr, tail: Stream)
    requires Graph(m) && Known(m, w) && Storable(m, v) && r.Valid() && |r.objects| == |w|
    requires !IsSmallInteger(v) && v in w && |w| < WORD_LIMIT
    requires r.rest == Write(m, w, v).bytes + tail
    ensures ReadBack(m, w, w, v, r, tail, Read(r, base))
  {
    hide Graph, Known, Sound;
    var index := IndexOf(w, v);
    if index == 0 {
      WordRoundTrip(NIL_OBJECT, 0, tail);
    } else {
      assert r.rest == EncodeWord(PREVIOUS_OBJECT) + (EncodeWord(index) + tail);
      WordRoundTrip(PREVIOUS_OBJECT, 0, EncodeWord(index) + tail);
      WordRoundTrip(index, 0, tail);
    }
    NoProgress(m, w, r, tail);
  }

  /** The object that is placed before its slots are read. */
  function BlankFor(o: Obj): Obj {
    if o.binary then BlankBytes(o.size, o.bytes) else Blank(o.size)
  }

  /** What comes before the slots in a full record. */
  function Header(o: Obj): Stream {
    if o.binary then EncodeWord(BYTE_OBJECT) + EncodeWord(o.size) + EncodeWords(o.bytes)
    else EncodeWord(ORDINARY_OBJECT) + EncodeWord(o.size)
  }

  lemma WriteShape(m: Mem, w: seq<Addr>, v: Addr)
    requires Graph(m) && Known(m, w) && v in m && v !in w && Storable(m, v) && Known(m, w + [v])
    requires AllStorable(m, m[v].data)
    ensures Write(m, w, v) ==
            Output(Header(m[v]) + WriteAll(m, w + [v], m[v].data).bytes, WriteAll(m, w + [v], m[v].data).objects)
  {
    Parts(m, v);
    if m[v].binary { SingleSlot(m, w + [v], v); }
    hide EncodeWord, EncodeWords, WriteAll, Graph, Known, AllStorable;
  }

  /** A binary object has a single slot, its class. */
  lemma SingleSlot(m: Mem, w: seq<Addr>, v: Addr)
    requires Graph(m) && Known(m, w) && v in m && m[v].binary
    ensures AllStorable(m, m[v].data)
    ensures WriteAll(m, w, m[v].data) == Write(m, w, m[v].data[0])
  {
    Parts(m, v);
    assert RecordAt(m, v);
    var one := Write(m, w, m[v].data[0]);
    assert m[v].data[1..] == [];
    assert WriteAll(m, one.objects, []) == Output([], one.objects);
    assert one.bytes + [] == one.bytes;
  }

  /** The header of a full record makes the reader place an object of the same shape, if
      there is room for it. */
  lemma HeaderReadsBack(r: Reader, base: Addr, o: Obj, rest: Stream)
    requires o.WellShaped() && o.size < WORD_LIMIT && r.Valid() && r.rest == Header(o) + rest
    requires BlankFor(o).ByteSize() == o.ByteSize()
    ensures Read(r, base) == PlaceAndRead(r.(rest := rest), base, BlankFor(o))
  {
    if o.binary { ByteHeader(r, base, o, rest); } else { OrdinaryHeader(r, base, o, rest); }
  }

  ghost function PlaceAndRead(r: Reader, base: Addr, o: Obj): Reading
    requires r.Valid()
  {
    if r.pointer < base + o.ByteSize() then Bad
    else
      PlaceValid(r, o);
      ReadSlots(r.Place(o), base, r.pointer - o.ByteSize(), 0)
  }

  lemma ByteHeader(r: Reader, base: Addr, o: Obj, rest: Stream)
    requires o.WellShaped() && o.binary && o.size < WORD_LIMIT && r.Valid() && r.rest == Header(o) + rest
    ensures Read(r, base) == PlaceAndRead(r.(rest := rest), base, BlankFor(o))
  {
    hide ReadSlots, Obj.ByteSize, Sound, EncodeWord, DecodeWord, EncodeWords, DecodeWords;
    var s2 := EncodeWords(o.bytes) + rest;
    var s1 := EncodeWord(o.size) + s2;
    assert r.rest == EncodeWord(BYTE_OBJECT) + s1;
    WordRoundTrip(BYTE_OBJECT, 0, s1);
    assert Read(r, base) == ReadRecord(r.(rest := s1), base, BYTE_OBJECT);
    hide Read, Header;
    WordRoundTrip(o.size, 0, s2);
    BytesReadBack(o.bytes, rest);
  }

  lemma OrdinaryHeader(r: Reader, base: Addr, o: Obj, rest: Stream)
    requires o.WellShaped() && !o.binary && o.size < WORD_LIMIT && r.Valid() && r.rest == Header(o) + rest
    ensures Read(r, base) == PlaceAndRead(r.(rest := rest), base, BlankFor(o))
  {
    hide ReadSlots, Obj.ByteSize, Sound, EncodeWord, DecodeWord;
    var s1 := EncodeWord(o.size) + rest;
    assert r.rest == EncodeWord(ORDINARY_OBJECT) + s1;
    WordRoundTrip(ORDINARY_OBJECT, 0, s1);
    assert Read(r, base) == ReadRecord(r.(rest := s1), base, ORDINARY_OBJECT);
    hide Read, Header;
    WordRoundTrip(o.size, 0, rest);
  }

  lemma NoSlots(m: Mem, w: seq<Addr>, r: Reader, base: Addr, a: Addr, i: nat, tail: Stream, out: Output)
    requires SlotsTask(m, w, [], r, base, a, i, tail, out)
    ensures Fits(m, w, out, r, base) && SlotsReadBack(m, w, out.objects, [], r, a, i, tail, SlotsOf(r, base, a, i))
  {
    assert [] + tail == tail;
    hide Footprint, Rebuilt;
  }

  lemma SlotShape(m: Mem, w: seq<Addr>, words: seq<Word>, r: Reader, base: Addr, a: Addr, i: nat, tail: Stream,
                  out: Output)
    returns (first: Output, rest: Output)
    requires SlotsTask(m, w, words, r, base, a, i, tail, out) && words != []
    ensures WordTask(m, w, words[0], r, base, rest.bytes + tail, first)
    ensures Known(m, first.objects) && AllStorable(m, words[1..]) && rest == WriteAll(m, first.objects, words[1..])
    ensures out.objects == rest.objects && |Unwritten(m, first.objects)| <= |Unwritten(m, w)|
    ensures Fits(m, w, out, r, base) ==> Fits(m, w, first, r, base)
  {
    first := Write(m, w, words[0]);
    rest := WriteAll(m, first.objects, words[1..]);
    NoMoreUnwritten(m, w, first.objects);
    FootprintGrows(m, first.objects, rest.objects);
    assert out == Output(first.bytes + rest.bytes, rest.objects);
    hide Graph, Known, Write, WriteAll, Footprint;
    assert out.bytes + tail == first.bytes + (rest.bytes + tail);
  }

  /** The first slot has been read and stored; what it held before does not matter. */
  ghost predicate StoredSlot(m: Mem, w: seq<Addr>, w1: seq<Addr>, words: seq<Word>, r: Reader, r1: Reader, r2: Reader,
                             a: Addr, i: nat) {
    && r.Valid() && a in r.mem && a in r1.mem && r1.mem[a] == r.mem[a] && |r1.objects| == |w1|
    && words != [] && |r.mem[a].data| == i + |words|
    && Met(w1, words[0]) && r2.Valid()
    && r2 == r1.(mem := r1.mem[a := r.mem[a].SetData(i, Renamed(w1, r1.objects, words[0]))])
    && Progress(m, w, w1, r, r1, NOWHERE)
  }

  lemma SlotStored(m: Mem, w: seq<Addr>, words: seq<Word>, r: Reader, base: Addr, a: Addr, i: nat, tail: Stream,
                   out: Output, first: Output, rest: Output)
    returns (r1: Reader, r2: Reader)
    requires SlotsTask(m, w, words, r, base, a, i, tail, out) && words != []
    requires Known(m, first.objects) && AllStorable(m, words[1..]) && rest == WriteAll(m, first.objects, words[1..])
    requires out.objects == rest.objects
    requires Fits(m, w, first, r, base)
    requires ReadBack(m, w, first.objects, words[0], r, rest.bytes + tail, WordOf(r, base))
    ensures Fits(m, w, out, r, base) <==> Fits(m, first.objects, rest, r2, base)
    ensures StoredSlot(m, w, first.objects, words, r, r1, r2, a, i)
    ensures SlotsOf(r, base, a, i) == SlotsOf(r2, base, a, i + 1)
    ensures SlotsTask(m, first.objects, words[1..], r2, base, a, i + 1, tail, rest)
  {
    hide Rebuilt, Footprint, Graph, Known, AllStorable, WriteAll;
    r1 := Read(r, base).to;
    assert a % WORD_BYTES == 0;
    assert r1.mem[a] == r.mem[a];
    r2 := r1.(mem := r1.mem[a := r1.mem[a].SetData(i, Read(r, base).value)]);
    hide Read;
  }

  lemma SlotBad(m: Mem, w: seq<Addr>, words: seq<Word>, r: Reader, base: Addr, a: Addr, i: nat, tail: Stream,
                out: Output)
    requires SlotsTask(m, w, words, r, base, a, i, tail, out) && words != [] && WordOf(r, base) == Bad
    ensures SlotsOf(r, base, a, i) == Bad
  {
    hide Read, Sound, WriteAll;
  }

  lemma SlotDone(m: Mem, w: seq<Addr>, w1: seq<Addr>, w': seq<Addr>, words: seq<Word>,
                 r: Reader, r1: Reader, r2: Reader, a: Addr, i: nat, tail: Stream, result: Reading)
    requires StoredSlot(m, w, w1, words, r, r1, r2, a, i)
    requires SlotsReadBack(m, w1, w', words[1..], r2, a, i + 1, tail, result)
    ensures SlotsReadBack(m, w, w', words, r, a, i, tail, result)
  {
    var r' := result.to;
    assert Progress(m, w, w1, r, r2, a) by {
      StoreProgress(m, w, w1, words, r, r1, r2, a, i);
    }
    ProgressChain(m, w, w1, w', r, r2, r', a);
    hide Progress, Sound;
    SlotsFilled(m, w, w1, w', words, r, r1, r2, r', a, i);
  }

  lemma StoreProgress(m: Mem, w: seq<Addr>, w1: seq<Addr>, words: seq<Word>, r: Reader, r1: Reader, r2: Reader, a: Addr,
                      i: nat)
    requires StoredSlot(m, w, w1, words, r, r1, r2, a, i)
    ensures Progress(m, w, w1, r, r2, a)
  {
    hide Footprint;
    assert forall b | b in r2.mem && b != a :: b in r1.mem && r2.mem[b] == r1.mem[b];
    forall k | |w| <= k < |w1|
      ensures r2.objects[k] !in r.mem && Rebuilt(m, w1, r2.objects, r2.mem, k)
    {
      assert Rebuilt(m, w1, r1.objects, r1.mem, k);
      RebuiltStable(m, w1, w1, r1.objects, r2.objects, r1.mem, r2.mem, k);
    }
    hide Rebuilt;
  }

  lemma SlotsFilled(m: Mem, w: seq<Addr>, w1: seq<Addr>, w': seq<Addr>, words: seq<Word>,
                    r: Reader, r1: Reader, r2: Reader, r': Reader, a: Addr, i: nat)
    requires StoredSlot(m, w, w1, words, r, r1, r2, a, i) && |w'| == |r'.objects|
    requires Progress(m, w1, w', r2, r', a) && Filled(w', r2, r', a, i + 1, words[1..])
    ensures Filled(w', r, r', a, i, words)
  {
    hide Rebuilt, Footprint, Sound;
    RenamedStable(w1, w', r1.objects, r'.objects, words[0]);
    hide Progress, Renamed, Met;
    forall j | 0 <= j < |words|
      ensures Met(w', words[j]) && r'.mem[a].data[i + j] == Renamed(w', r'.objects, words[j])
    {
      if j > 0 {
        assert words[1..][j - 1] == words[j] && i + 1 + (j - 1) == i + j;
      } else {
        assert r'.mem[a].data[i] == r2.mem[a].data[i];
      }
    }
    forall j | 0 <= j < i
      ensures r'.mem[a].data[j] == r.mem[a].data[j]
    {
      assert r'.mem[a].data[j] == r2.mem[a].data[j];
    }
  }

  lemma RecordDone(m: Mem, w: seq<Addr>, w': seq<Addr>, v: Addr, r: Reader, r1: Reader, a: Addr, tail: Stream,
                   result: Reading)
    requires PlacedFor(m, w, v, r, r1, a)
    requires w + [v] <= w' && SlotsReadBack(m, w + [v], w', m[v].data, r1, a, 0, tail, result)
    ensures ReadBack(m, w, w', v, r, tail, result)
  {
    var r' := result.to;
    assert w'[|w|] == v && r'.objects[|w|] == a by {
      assert (w + [v])[|w|] == v && r1.objects[|w|] == a;
    }
    assert Rebuilt(m, w', r'.objects, r'.mem, |w|);
    IndexFirst(w', |w|, w);
    RecordProgress(m, w, w', v, r, r1, a, r');
    hide Progress, Filled, PlacedFor, Rebuilt;
  }

  lemma {:induction false} IndexFirst(s: seq<Addr>, k: nat, before: seq<Addr>)
    requires k < |s| && before == s[..k] && s[k] !in before
    ensures IndexOf(s, s[k]) == k
  {
    if k > 0 {
      assert s[0] == before[0];
      assert s[1..][k - 1] == s[k] && s[1..][..k - 1] == before[1..];
      IndexFirst(s[1..], k - 1, before[1..]);
    }
  }

  lemma RecordProgress(m: Mem, w: seq<Addr>, w': seq<Addr>, v: Addr, r: Reader, r1: Reader, a: Addr, r': Reader)
    requires PlacedFor(m, w, v, r, r1, a) && w + [v] <= w' && |w'| == |r'.objects|
    requires Progress(m, w + [v], w', r1, r', a)
    requires Rebuilt(m, w', r'.objects, r'.mem, |w|)
    ensures Progress(m, w, w', r, r', NOWHERE)
  {
    hide Rebuilt, Footprint, Obj.ByteSize, Obj.WellShaped, Sound, BlankFor;
    FootprintSnoc(m, w, v);
    RecordNew(m, w, w', v, r, r1, a, r');
    assert r.objects <= r1.objects && w <= w + [v];
    forall k | |w| <= k < |w'|
      ensures r'.objects[k] !in r.mem && Rebuilt(m, w', r'.objects, r'.mem, k)
    {
      if k == |w| { assert r'.objects[k] == r1.objects[k]; }
    }
  }

  lemma RecordNew(m: Mem, w: seq<Addr>, w': seq<Addr>, v: Addr, r: Reader, r1: Reader, a: Addr, r': Reader)
    requires PlacedFor(m, w, v, r, r1, a) && Progress(m, w + [v], w', r1, r', a)
    ensures forall b | b in r'.mem && b !in r.mem :: b in r'.objects[|w|..]
    ensures Kept(r.mem, r'.mem, NOWHERE)
  {
    hide Rebuilt, Footprint, Obj.ByteSize, Obj.WellShaped, Sound, BlankFor;
    var added := r'.objects[|w|..];
    assert added[0] == r1.objects[|w|] == a;
    assert r'.objects[|w + [v]|..] == added[1..];
    hide Known;
    forall b | b in r'.mem && b !in r.mem
      ensures b in added
    {
      if b != a { assert b in added[1..]; }
    }
  }

  // ---- A whole image.

  /** Reads `count` words one after the other. */
  function ReadMany(r: Reader, base: Addr, count: nat): (result: Option<(seq<Word>, Reader)>)
    requires r.Valid()
    ensures result.Some? ==> result.value.1.Valid() && |result.value.0| == count
    decreases count
  {
    if count == 0 then Some(([], r))
    else
      match Read(r, base)
      case Bad => None
      case Good(v, r') =>
        match ReadMany(r', base, count - 1)
        case None => None
        case Some((vs, r'')) => Some(([v] + vs, r''))
  }

  ghost predicate ManyReadBack(m: Mem, w: seq<Addr>, w': seq<Addr>, words: seq<Word>, r: Reader, tail: Stream,
                               result: Option<(seq<Word>, Reader)>) {
    && result.Some? && |result.value.0| == |words| && result.value.1.rest == tail
    && Progress(m, w, w', r, result.value.1, NOWHERE)
    && forall j | 0 <= j < |words| ::
      Met(w', words[j]) && result.value.0[j] == Renamed(w', result.value.1.objects, words[j])
  }

  /** The stream goes on with the records of the words. */
  ghost predicate ManyTask(m: Mem, w: seq<Addr>, words: seq<Word>, r: Reader, base: Addr, tail: Stream, out: Output) {
    && Graph(m) && Known(m, w) && AllStorable(m, words) && r.Valid() && |r.objects| == |w|
    && out == WriteAll(m, w, words) && r.rest == out.bytes + tail && base <= r.pointer
  }

  ghost function ManyOf(r: Reader, base: Addr, count: nat): Option<(seq<Word>, Reader)> {
    if r.Valid() then ReadMany(r, base, count) else None
  }

  lemma {:induction false} ManyReadsBack(m: Mem, w: seq<Addr>, words: seq<Word>, r: Reader, base: Addr, tail: Stream,
                                         out: Output)
    requires ManyTask(m, w, words, r, base, tail, out)
    ensures if Fits(m, w, out, r, base) then ManyReadBack(m, w, out.objects, words, r, tail, ManyOf(r, base, |words|))
            else ManyOf(r, base, |words|) == None
    decreases |words|
  {
    hide WordTask, ManyTask, ReadBack, ManyReadBack, WordOf, ManyOf, Known, AllStorable, WriteAll, Fits;
    if words == [] {
      NothingReadsBack(m, w, r, base, tail, out);
    } else {
      var first, rest := ManyShape(m, w, words, r, base, tail, out);
      ReadsBack(m, w, words[0], r, base, rest.bytes + tail, first);
      if Fits(m, w, first, r, base) {
        var r1 := ManyNext(m, w, words, r, base, tail, out, first, rest);
        ManyReadsBack(m, first.objects, words[1..], r1, base, tail, rest);
        if Fits(m, w, out, r, base) {
          ManyDone(m, w, first.objects, rest.objects, words, r, r1, base, rest.bytes + tail, tail);
        } else {
          ManyBad(r, base, |words|);
        }
      } else {
        ManyBad(r, base, |words|);
      }
    }
  }

  lemma NothingReadsBack(m: Mem, w: seq<Addr>, r: Reader, base: Addr, tail: Stream, out: Output)
    requires ManyTask(m, w, [], r, base, tail, out)
    ensures Fits(m, w, out, r, base) && ManyReadBack(m, w, out.objects, [], r, tail, ManyOf(r, base, 0))
  {
    assert [] + tail == tail;
    NoProgress(m, w, r, r.rest);
    hide Progress, Footprint;
  }

  lemma ManyShape(m: Mem, w: seq<Addr>, words: seq<Word>, r: Reader, base: Addr, tail: Stream, out: Output)
    returns (first: Output, rest: Output)
    requires ManyTask(m, w, words, r, base, tail, out) && words != []
    ensures WordTask(m, w, words[0], r, base, rest.bytes + tail, first)
    ensures Known(m, first.objects) && AllStorable(m, words[1..]) && rest == WriteAll(m, first.objects, words[1..])
    ensures out.objects == rest.objects
    ensures Fits(m, w, out, r, base) ==> Fits(m, w, first, r, base)
  {
    first := Write(m, w, words[0]);
    rest := WriteAll(m, first.objects, words[1..]);
    FootprintGrows(m, first.objects, rest.objects);
    assert out == Output(first.bytes + rest.bytes, rest.objects);
    hide Graph, Known, Write, WriteAll, Footprint;
    assert out.bytes + tail == first.bytes + (rest.bytes + tail);
  }

  lemma ManyNext(m: Mem, w: seq<Addr>, words: seq<Word>, r: Reader, base: Addr, tail: Stream, out: Output,
                 first: Output, rest: Output)
    returns (r1: Reader)
    requires ManyTask(m, w, words, r, base, tail, out) && words != []
    requires Known(m, first.objects) && AllStorable(m, words[1..]) && rest == WriteAll(m, first.objects, words[1..])
    requires out.objects == rest.objects
    requires Fits(m, w, first, r, base)
    requires ReadBack(m, w, first.objects, words[0], r, rest.bytes + tail, WordOf(r, base))
    ensures Fits(m, w, out, r, base) <==> Fits(m, first.objects, rest, r1, base)
    ensures WordOf(r, base).Good? && r1 == WordOf(r, base).to
    ensures ManyTask(m, first.objects, words[1..], r1, base, tail, rest)
  {
    hide Rebuilt, Footprint, Graph, Known, AllStorable, WriteAll, Read;
    r1 := WordOf(r, base).to;
  }

  lemma ManyBad(r: Reader, base: Addr, count: nat)
    requires count > 0
    requires WordOf(r, base) == Bad || ManyOf(WordOf(r, base).to, base, count - 1) == None
    ensures ManyOf(r, base, count) == None
  {
  }

  lemma ManyDone(m: Mem, w: seq<Addr>, w1: seq<Addr>, w': seq<Addr>, words: seq<Word>, r: Reader, r1: Reader,
                 base: Addr, tail1: Stream, tail: Stream)
    requires words != [] && ReadBack(m, w, w1, words[0], r, tail1, WordOf(r, base)) && r1 == WordOf(r, base).to
    requires ManyReadBack(m, w1, w', words[1..], r1, tail, ManyOf(r1, base, |words| - 1))
    ensures ManyReadBack(m, w, w', words, r, tail, ManyOf(r, base, |words|))
  {
    var r2 := ManyOf(r1, base, |words| - 1).value.1;
    ProgressChain(m, w, w1, w', r, r1, r2, NOWHERE);
    RenamedStable(w1, w', r1.objects, r2.objects, words[0]);
    hide Progress, Renamed, Met, Sound, Read;
    var result := ManyOf(r, base, |words|);
    forall j | 0 <= j < |words|
      ensures Met(w', words[j]) && result.value.0[j] == Renamed(w', r2.objects, words[j])
    {
      if j > 0 { assert words[1..][j - 1] == words[j]; }
    }
  }

  /** The roots of an image by position. */
  ghost function ImageRoots(words: seq<Word>): Roots {
    map i: nat | i < |words| :: External(i) := words[i]
  }

  ghost function RenamingOf(written: seq<Addr>, read: seq<Addr>): Forwarding
    requires |written| == |read|
  {
    map a | a in written :: read[IndexOf(written, a)]
  }

  lemma {:induction false} BoundAbove(s: set<Addr>) returns (top: Addr)
    ensures forall a | a in s :: a < top
    decreases |s|
  {
    top := 0;
    if s != {} {
      var a :| a in s;
      var rest := s - {a};
      top := BoundAbove(rest);
      top := if top <= a then a + 1 else top;
      assert forall b | b in s && b != a :: b in rest;
    }
  }

  /** A whole image has been read: memory holds exactly the rebuilt objects. */
  ghost predicate AllRebuilt(m: Mem, written: seq<Addr>, read: seq<Addr>, mem: Mem) {
    && |read| == |written| && Known(m, written)
    && (forall i, j | 0 <= i < j < |read| :: read[i] != read[j])
    && (forall b :: b in mem <==> b in read)
    && (forall b | b in mem :: b % WORD_BYTES == 0)
    && (forall k | 0 <= k < |written| :: Rebuilt(m, written, read, mem, k))
  }

  lemma WholeImage(m: Mem, written: seq<Addr>, r: Reader, r': Reader)
    requires Known(m, written) && Progress(m, [], written, r, r', NOWHERE) && r.mem == map[]
    ensures AllRebuilt(m, written, r'.objects, r'.mem)
  {
    hide Rebuilt, Footprint, Known;
    assert r'.objects[0..] == r'.objects;
  }

  lemma RenamingAt(written: seq<Addr>, read: seq<Addr>, k: nat)
    requires |read| == |written| && k < |written| && forall i, j | 0 <= i < j < |written| :: written[i] != written[j]
    ensures written[k] in RenamingOf(written, read) && RenamingOf(written, read)[written[k]] == read[k]
  {
    IndexFirst(written, k, written[..k]);
  }

  lemma RebuiltIsCopy(m: Mem, written: seq<Addr>, read: seq<Addr>, mem: Mem, g: Spaces, k: nat)
    requires Graph(m) && AllRebuilt(m, written, read, mem) && g.from == m && k < |written|
    ensures read[k] in mem && written[k] in m && IsCopy(g, RenamingOf(written, read), m[written[k]], mem[read[k]])
  {
    var fwd, o, c := RenamingOf(written, read), m[written[k]], mem[read[k]];
    assert Rebuilt(m, written, read, mem, k);
    assert RecordAt(m, written[k]);
    hide AllRebuilt, Obj.WellShaped;
    forall i | 0 <= i < |o.data|
      ensures Settled(g, fwd, o.data[i]) && c.data[i] == Forward(fwd, o.data[i])
    {
      WordRenamed(m, written, read, g, o.data[i]);
    }
  }

  lemma WordRenamed(m: Mem, written: seq<Addr>, read: seq<Addr>, g: Spaces, v: Word)
    requires Graph(m) && |read| == |written| && Known(m, written) && g.from == m && Storable(m, v) && Met(written, v)
    ensures Settled(g, RenamingOf(written, read), v)
    ensures Renamed(written, read, v) == Forward(RenamingOf(written, read), v)
  {
    if v in m { assert RecordAt(m, v); }
  }

  /** The renaming is an isomorphism from the objects written onto the objects read. */
  lemma RebuiltMoved(m: Mem, written: seq<Addr>, read: seq<Addr>, mem: Mem) returns (g: Spaces)
    requires Graph(m) && AllRebuilt(m, written, read, mem)
    ensures g.from == m && Moved(g, RenamingOf(written, read), mem)
  {
    hide AllRebuilt, IsCopy, RenamingOf, Graph;
    var top := BoundAbove(mem.Keys);
    g := Spaces(m, 0, 0, 0, top);
    RenamingOnto(m, written, read, mem);
    var fwd := RenamingOf(written, read);
    forall a | a in fwd
      ensures fwd[a] in mem && IsCopy(g, fwd, m[a], mem[fwd[a]])
    {
      RenamingFrom(m, written, read, mem, a);
      RebuiltIsCopy(m, written, read, mem, g, IndexOf(written, a));
    }
  }

  lemma RenamingFrom(m: Mem, written: seq<Addr>, read: seq<Addr>, mem: Mem, a: Addr)
    requires AllRebuilt(m, written, read, mem) && a in RenamingOf(written, read)
    ensures a in written && RenamingOf(written, read)[a] == read[IndexOf(written, a)] && |read| == |written|
  {
  }

  lemma RenamingOnto(m: Mem, written: seq<Addr>, read: seq<Addr>, mem: Mem)
    requires AllRebuilt(m, written, read, mem)
    ensures |written| == |read|
    ensures RenamingOf(written, read).Keys <= m.Keys && mem.Keys == RenamingOf(written, read).Values
    ensures forall a | a in mem :: a % WORD_BYTES == 0
    ensures forall a, b | a in RenamingOf(written, read) && b in RenamingOf(written, read) && a != b ::
              RenamingOf(written, read)[a] != RenamingOf(written, read)[b]
  {
    hide Rebuilt;
    var fwd := RenamingOf(written, read);
    forall b | b in mem
      ensures b in fwd.Values
    {
      var k :| 0 <= k < |read| && read[k] == b;
      RenamingAt(written, read, k);
      assert fwd[written[k]] == b;
    }
    forall b | b in fwd.Values
      ensures b in mem
    {
      var a :| a in fwd && fwd[a] == b;
      assert b == read[IndexOf(written, a)];
    }
  }

  /** Reading what the writer wrote for the roots succeeds exactly when the static heap has
      room for the objects, and then gives back the same graph, sharing and cycles included. */
  lemma ImageRoundTrip(m: Mem, roots: seq<Word>, base: Addr, top: Addr)
    requires Graph(m) && AllStorable(m, roots) && base <= top && top % WORD_BYTES == 0
    ensures var out := WriteAll(m, [], roots);
            var result := ReadMany(Reader(out.bytes, [], map[], top), base, |roots|);
            && (result.Some? <==> base + Footprint(m, out.objects) <= top)
            && (result.Some? ==> var (values, r') := result.value;
                 && |values| == |roots| && r'.rest == [] && r'.mem.Keys == (set a | a in r'.objects)
                 && SameGraph(m, ImageRoots(roots), r'.mem, ImageRoots(values)))
  {
    var out := WriteAll(m, [], roots);
    var r := Reader(out.bytes, [], map[], top);
    assert out.bytes + [] == out.bytes;
    ManyReadsBack(m, [], roots, r, base, [], out);
    var result := ManyOf(r, base, |roots|);
    if Fits(m, [], out, r, base) {
      var values, r' := result.value.0, result.value.1;
      WholeImage(m, out.objects, r, r');
      hide Progress, Footprint, ReadMany, WriteAll, Known, Graph;
      var g := RebuiltMoved(m, out.objects, r'.objects, r'.mem);
      RootsRenamed(m, roots, values, out.objects, r'.objects, g);
      hide Moved, Settled, Forward, AllStorable, Met, Renamed, SameGraph;
      MovedSameGraph(g, RenamingOf(out.objects, r'.objects), r'.mem, ImageRoots(roots), ImageRoots(values));
    }
  }

  lemma RootsRenamed(m: Mem, roots: seq<Word>, values: seq<Word>, written: seq<Addr>, read: seq<Addr>, g: Spaces)
    requires Graph(m) && AllStorable(m, roots) && |values| == |roots| && |read| == |written| && Known(m, written)
    requires g.from == m
    requires forall j | 0 <= j < |roots| :: Met(written, roots[j]) && values[j] == Renamed(written, read, roots[j])
    ensures forall r | r in ImageRoots(roots) ::
              r in ImageRoots(values) && Settled(g, RenamingOf(written, read), ImageRoots(roots)[r])
              && ImageRoots(values)[r] == Forward(RenamingOf(written, read), ImageRoots(roots)[r])
    ensures ImageRoots(roots).Keys == ImageRoots(values).Keys
  {
    forall r | r in ImageRoots(roots)
      ensures Settled(g, RenamingOf(written, read), ImageRoots(roots)[r])
      ensures ImageRoots(values)[r] == Forward(RenamingOf(written, read), ImageRoots(roots)[r])
    {
      WordRenamed(m, written, read, g, roots[r.index]);
    }
  }

  // ---- What is written in full.

  lemma ReachesThrough(m: Mem, v: Addr, i: nat, a: Addr)
    requires v in m && i < |m[v].data| && Reaches(m, m[v].data[i], a)
    ensures Reaches(m, v, a)
  {
    var path :| Follow(m, m[v].data[i], path) == Some(a);
    assert ([i] + path)[1..] == path;
    assert Follow(m, v, [i] + path) == Some(a);
  }

  ghost predicate ReachedFromOne(m: Mem, words: seq<Word>, a: Addr) {
    exists i :: 0 <= i < |words| && Reaches(m, words[i], a)
  }

  /** Only what a word reaches is written for it. */
  lemma {:induction false} WriteReached(m: Mem, w: seq<Addr>, v: Word, a: Addr)
    requires Graph(m) && Known(m, w) && Storable(m, v) && a in Write(m, w, v).objects && a !in w
    ensures Reaches(m, v, a)
    decreases |Unwritten(m, w)|, 1
  {
    if !IsSmallInteger(v) && v !in w {
      LessUnwritten(m, w, v);
      Parts(m, v);
      WriteShape(m, w, v);
      hide Graph, Known, Unwritten, Write, WriteAll, Storable, AllStorable, Header;
      if a == v {
        assert Follow(m, v, []) == Some(v);
      } else {
        assert a !in w + [v];
        WriteAllReached(m, w + [v], m[v].data, a);
        var i :| 0 <= i < |m[v].data| && Reaches(m, m[v].data[i], a);
        ReachesThrough(m, v, i, a);
      }
    }
  }

  lemma {:induction false} WriteAllReached(m: Mem, w: seq<Addr>, words: seq<Word>, a: Addr)
    requires Graph(m) && Known(m, w) && AllStorable(m, words) && a in WriteAll(m, w, words).objects && a !in w
    ensures ReachedFromOne(m, words, a)
    decreases |Unwritten(m, w)|, 2, |words|
  {
    if words != [] {
      var first := Write(m, w, words[0]);
      NoMoreUnwritten(m, w, first.objects);
      assert WriteAll(m, w, words).objects == WriteAll(m, first.objects, words[1..]).objects;
      hide Graph, Known, Unwritten, Write, WriteAll, Reaches;
      if a in first.objects {
        WriteReached(m, w, words[0], a);
      } else {
        WriteAllReached(m, first.objects, words[1..], a);
        var i :| 0 <= i < |words[1..]| && Reaches(m, words[1..][i], a);
        assert words[i + 1] == words[1..][i];
      }
    }
  }

  lemma {:induction false} MetFollow(m: Mem, written: seq<Addr>, v: Word, path: seq<nat>)
    requires forall k, i | 0 <= k < |written| && written[k] in m && 0 <= i < |m[written[k]].data| ::
               Met(written, m[written[k]].data[i])
    requires Met(written, v) && Graph(m)
    ensures Follow(m, v, path).Some? ==> Met(written, Follow(m, v, path).value)
    decreases |path|
  {
    if path != [] && v in m && path[0] < |m[v].data| {
      assert RecordAt(m, v);
      var k := IndexOf(written, v);
      assert Met(written, m[written[k]].data[path[0]]);
      MetFollow(m, written, m[v].data[path[0]], path[1..]);
    }
  }

  /** The objects written in full are exactly those the roots reach, each once. */
  lemma WrittenExactly(m: Mem, roots: seq<Word>)
    requires Graph(m) && AllStorable(m, roots)
    ensures var objects := WriteAll(m, [], roots).objects;
            && (forall i, j | 0 <= i < j < |objects| :: objects[i] != objects[j])
            && forall a :: a in objects <==> a in m && ReachedFromOne(m, roots, a)
  {
    var objects := WriteAll(m, [], roots).objects;
    AllMet(m, roots);
    hide WriteAll, Reaches, Follow;
    forall a | a in objects ensures a in m && ReachedFromOne(m, roots, a) {
      WriteAllReached(m, [], roots, a);
    }
    forall a | a in m && ReachedFromOne(m, roots, a) ensures a in objects {
      var i :| 0 <= i < |roots| && Reaches(m, roots[i], a);
      ReachedMet(m, objects, roots[i], a);
    }
  }

  lemma ReachedMet(m: Mem, written: seq<Addr>, v: Word, a: Addr)
    requires forall k, i | 0 <= k < |written| && written[k] in m && 0 <= i < |m[written[k]].data| ::
               Met(written, m[written[k]].data[i])
    requires Met(written, v) && Graph(m) && Reaches(m, v, a)
    ensures a in written
  {
    var path :| Follow(m, v, path) == Some(a);
    MetFollow(m, written, v, path);
    assert RecordAt(m, a);
  }

  lemma AllMet(m: Mem, roots: seq<Word>)
    requires Graph(m) && AllStorable(m, roots)
    ensures var objects := WriteAll(m, [], roots).objects;
            && (forall k, i | 0 <= k < |objects| && objects[k] in m && 0 <= i < |m[objects[k]].data| ::
                  Met(objects, m[objects[k]].data[i]))
            && (forall i | 0 <= i < |roots| :: Met(objects, roots[i]))
  {
    var out := WriteAll(m, [], roots);
    var r := Reader(out.bytes, [], map[], WORD_BYTES * Footprint(m, out.objects));
    assert out.bytes + [] == out.bytes;
    ManyReadsBack(m, [], roots, r, 0, [], out);
    var r' := ManyOf(r, 0, |roots|).value.1;
    WholeImage(m, out.objects, r, r');
    hide Progress, Footprint, ReadMany, WriteAll, Known, Graph, Renamed, Met;
    forall k, i | 0 <= k < |out.objects| && out.objects[k] in m && 0 <= i < |m[out.objects[k]].data|
      ensures Met(out.objects, m[out.objects[k]].data[i])
    {
      assert Rebuilt(m, out.objects, r'.objects, r'.mem, k);
    }
  }

  // ---- The format, byte by byte.

  /** A word is written as so many bytes 255 as it has 255s, and the rest. */
  lemma {:induction false} WordInBytes(word: nat)
    ensures EncodeWord(word) == seq(word / 255, _ => 255 as Byte) + [word % 255]
    decreases word
  {
    if word >= 255 {
      WordInBytes(word - 255);
      assert (word - 255) / 255 == word / 255 - 1 && (word - 255) % 255 == word % 255;
    }
  }

  /** Four bytes, low one first, as a signed number. */
  function SignedWord(b0: Byte, b1: Byte, b2: Byte, b3: Byte): int {
    (b0 as int) + 256 * (b1 as int) + 65536 * (b2 as int) + 16777216 * (b3 as int) -
    if b3 >= 128 then 0x1_0000_0000 else 0
  }

  /** The word that holds the number n: twice n and 1, in 32 bits. */
  predicate IsInteger(v: Word, n: int) {
    -0x4000_0000 <= n < 0x4000_0000 && v == if n >= 0 then 2 * n + 1 else 0x1_0000_0000 + 2 * n + 1
  }

  /** 2 and four bytes: a number, of which 31 bits are kept. */
  lemma ReadsInteger(r: Reader, base: Addr, b0: Byte, b1: Byte, b2: Byte, b3: Byte, rest: Stream)
    requires r.Valid() && r.rest == [2, b0, b1, b2, b3] + rest
    ensures var n := SignedWord(b0, b1, b2, b3);
      exists v :: Read(r, base) == Good(v, r.(rest := rest)) &&
        IsInteger(v, if n >= 0x4000_0000 then n - 0x8000_0000 else if n < -0x4000_0000 then n + 0x8000_0000 else n)
  {
    hide Sound;
    var n := SignedWord(b0, b1, b2, b3);
    var bits := FromLittleEndian(b0, b1, b2, b3);
    assert r.rest[1..] == [b0, b1, b2, b3] + rest && r.rest[1..][4..] == rest;
    assert Read(r, base) == Good(NewInteger(bits), r.(rest := rest));
    IntegerOfBits(bits, n);
  }

  lemma IntegerOfBits(bits: nat, n: int)
    requires -0x8000_0000 <= n < 0x8000_0000 && bits == if n < 0 then n + 0x1_0000_0000 else n
    ensures IsInteger(NewInteger(bits),
                      if n >= 0x4000_0000 then n - 0x8000_0000 else if n < -0x4000_0000 then n + 0x8000_0000 else n)
  {
  }

  /** 5: the first object of the image. */
  lemma ReadsNil(r: Reader, base: Addr, rest: Stream)
    requires r.Valid() && r.rest == [5] + rest
    ensures Read(r, base) == if r.objects == [] then Bad else Good(r.objects[0], r.(rest := rest))
  {
    hide Sound;
    assert r.rest[1..] == rest;
  }

  /** 4 and a word k: the k-th object of the image. */
  lemma ReadsPrevious(r: Reader, base: Addr, k: nat, rest: Stream)
    requires r.Valid() && k < WORD_LIMIT && r.rest == [4] + EncodeWord(k) + rest
    ensures Read(r, base) == if k < |r.objects| then Good(r.objects[k], r.(rest := rest)) else Bad
  {
    hide Sound;
    assert r.rest[1..] == EncodeWord(k) + rest;
    WordRoundTrip(k, 0, rest);
  }

  /** 1 and a word k: an object of k fields, entered as the next one of the image before its class
      and then its fields are read; the static heap must have room for 8 + 4 * k bytes. */
  lemma ReadsOrdinary(r: Reader, base: Addr, k: nat, rest: Stream)
    requires r.Valid() && k < WORD_LIMIT && r.rest == [1] + EncodeWord(k) + rest
    ensures
      if r.pointer < base + 8 + 4 * k then Read(r, base) == Bad
      else
        var a := r.pointer - 8 - 4 * k;
        var o := Obj(k, false, false, seq(k + 1, _ => 0), []);
        && Sound(r.objects + [a], r.mem[a := o], a)
        && Read(r, base) == ReadSlots(Reader(rest, r.objects + [a], r.mem[a := o], a), base, a, 0)
  {
    hide Sound, ReadSlots;
    assert r.rest[1..] == EncodeWord(k) + rest;
    WordRoundTrip(k, 0, rest);
    if r.pointer >= base + Blank(k).ByteSize() { PlaceValid(r.(rest := rest), Blank(k)); }
  }

  /** 3, a word k and k words: an object of these k bytes, whose class is read last. */
  lemma ReadsBytes(r: Reader, base: Addr, bytes: seq<Byte>, rest: Stream)
    requires r.Valid() && |bytes| < WORD_LIMIT && r.rest == [3] + EncodeWord(|bytes|) + EncodeWords(bytes) + rest
    ensures
      if r.pointer < base + 8 + CorrectPadding(|bytes|) then Read(r, base) == Bad
      else
        var a := r.pointer - 8 - CorrectPadding(|bytes|);
        var o := Obj(|bytes|, true, false, [0], bytes);
        && Sound(r.objects + [a], r.mem[a := o], a)
        && Read(r, base) == ReadSlots(Reader(rest, r.objects + [a], r.mem[a := o], a), base, a, 0)
  {
    hide Sound, ReadSlots, CorrectPadding, EncodeWord, EncodeWords, DecodeWords, DecodeWord, ReadRecord, Read,
         Obj.ByteSize;
    var k, words := |bytes|, EncodeWords(bytes) + rest;
    Regrouped(EncodeWord(k), EncodeWords(bytes), rest);
    KindIs(r, base, 3, EncodeWord(k) + words);
    WordRoundTrip(k, 0, words);
    BytesReadBack(bytes, rest);
    RecordOfBytes(r, EncodeWord(k) + words, base, bytes, words, rest);
  }

  lemma Regrouped(a: Stream, b: Stream, rest: Stream)
    ensures [3] + a + b + rest == [3] + (a + (b + rest))
  {
  }

  lemma BytesTake(bytes: seq<Byte>)
    ensures BlankBytes(|bytes|, bytes).ByteSize() == 8 + CorrectPadding(|bytes|)
  {
    hide CorrectPadding;
  }

  lemma KindIs(r: Reader, base: Addr, kind: Byte, tail: Stream)
    requires r.Valid() && kind < 255 && r.rest == [kind] + tail
    ensures Read(r, base) == ReadRecord(r.(rest := tail), base, kind)
  {
    hide Sound, ReadRecord;
    assert r.rest[1..] == tail;
  }

  lemma RecordOfBytes(r: Reader, s: Stream, base: Addr, bytes: seq<Byte>, words: Stream, rest: Stream)
    requires r.Valid() && DecodeWord(s, 0) == Some((|bytes|, words))
    requires DecodeWords(words, |bytes|) == Some((bytes, rest))
    ensures
      if r.pointer < base + 8 + CorrectPadding(|bytes|) then ReadRecord(r.(rest := s), base, 3) == Bad
      else
        var a := r.pointer - 8 - CorrectPadding(|bytes|);
        var o := Obj(|bytes|, true, false, [0], bytes);
        && Sound(r.objects + [a], r.mem[a := o], a)
        && ReadRecord(r.(rest := s), base, 3) ==
           ReadSlots(Reader(rest, r.objects + [a], r.mem[a := o], a), base, a, 0)
  {
    hide Sound, ReadSlots, CorrectPadding, DecodeWords, DecodeWord;
    var o := BlankBytes(|bytes|, bytes);
    BytesTake(bytes);
    if r.pointer >= base + o.ByteSize() { PlaceValid(r.(rest := rest), o); }
  }

  /** Any other first byte but 255, with which a longer word begins: an invalid record. */
  lemma ReadsNothingElse(r: Reader, base: Addr)
    requires r.Valid() && (r.rest == [] || r.rest[0] == 0 || 5 < r.rest[0] < 255)
    ensures Read(r, base) == Bad
  {
    hide Sound;
  }

  /** The slots of an object come one after the other: the record read at the i-th turn goes into the
      i-th slot, of which the one at 0 is the class. */
  lemma {:induction false} SlotsInOrder(r: Reader, base: Addr, a: Addr, i: nat) returns (turns: seq<Reader>)
    requires r.Valid() && a in r.mem && i <= |r.mem[a].data| && ReadSlots(r, base, a, i).Good?
    ensures var end := ReadSlots(r, base, a, i);
      && end.value == a && |turns| == |r.mem[a].data| - i + 1 && turns[0] == r && turns[|turns| - 1] == end.to
      && (forall j | 0 <= j < |turns| - 1 :: TakesSlot(turns[j], base, a, i + j, turns[j + 1]))
    decreases |r.mem[a].data| - i
  {
    hide Sound, Read;
    if i == |r.mem[a].data| {
      turns := [r];
    } else {
      var now := Read(r, base);
      RecordKeeps(r, base, a, i);
      var next := now.to.(mem := now.to.mem[a := now.to.mem[a].SetData(i, now.value)]);
      var rest := SlotsInOrder(next, base, a, i + 1);
      turns := [r] + rest;
      assert TakesSlot(r, base, a, i, next);
      hide ReadSlots, TakesSlot;
      forall j | 0 <= j < |turns| - 1
        ensures TakesSlot(turns[j], base, a, i + j, turns[j + 1])
      {
        if j > 0 { assert TakesSlot(rest[j - 1], base, a, i + 1 + (j - 1), rest[j - 1 + 1]); }
      }
    }
  }

  /** Reading a record leaves the objects there are alone. */
  lemma RecordKeeps(r: Reader, base: Addr, a: Addr, i: nat)
    requires r.Valid() && a in r.mem && i < |r.mem[a].data| && Read(r, base).Good?
    ensures var now := Read(r, base);
      && a in now.to.mem && now.to.mem[a] == r.mem[a]
      && now.to.(mem := now.to.mem[a := now.to.mem[a].SetData(i, now.value)]).Valid()
  {
    hide Read;
  }

  /** One record is read, and its word goes into the i-th slot of the object at a. */
  ghost predicate TakesSlot(r: Reader, base: Addr, a: Addr, i: nat, after: Reader) {
    && r.Valid() && Read(r, base).Good?
    && var now := Read(r, base).to;
      && a in now.mem && i < |now.mem[a].data|
      && after == Reader(now.rest, now.objects,
                         now.mem[a := now.mem[a].(data := now.mem[a].data[i := Read(r, base).value])], now.pointer)
  }

  /** What the writer writes for each kind of word. */
  lemma WritesRecord(m: Mem, objects: seq<Addr>, v: Word)
    requires Graph(m) && Known(m, objects) && Storable(m, v)
    ensures var o := Write(m, objects, v);
      && (v % 2 == 1 ==>
            exists b0, b1, b2, b3 ::
              IsInteger(v, SignedWord(b0, b1, b2, b3)) && o == Output([2, b0, b1, b2, b3], objects))
      && (v % 2 == 0 && v in objects && objects[0] == v ==> o == Output([5], objects))
      && (forall k | 0 < k < |objects| && v % 2 == 0 && objects[k] == v :: o == Output([4] + EncodeWord(k), objects))
      && (v % 2 == 0 && v !in objects ==>
            && v in m && |m[v].data| > 0 && Known(m, objects + [v]) && AllStorable(m, m[v].data)
            && var rest := WriteAll(m, objects + [v], m[v].data);
              o == Output((if m[v].binary then [3] + EncodeWord(m[v].size) + EncodeWords(m[v].bytes)
                           else [1] + EncodeWord(m[v].size)) + rest.bytes, rest.objects))
  {
    hide Graph, WriteAll, EncodeWords;
    if v % 2 == 1 {
      WritesInteger(v);
    } else if v in objects {
      forall k | 0 <= k < |objects| && objects[k] == v
        ensures IndexOf(objects, v) == k
      {
      }
    } else {
      LessUnwritten(m, objects, v);
      Parts(m, v);
      WriteShape(m, objects, v);
    }
  }

  lemma WritesInteger(v: Word)
    requires v % 2 == 1 && v < WORD_LIMIT
    ensures |LittleEndian(IntegerBits(v))| == 4
    ensures var s := LittleEndian(IntegerBits(v)); IsInteger(v, SignedWord(s[0], s[1], s[2], s[3]))
  {
    var bits := IntegerBits(v);
    BytesRoundTrip(bits);
    var s := LittleEndian(bits);
    assert FromLittleEndian(s[0], s[1], s[2], s[3]) == bits;
    HighByte(bits);
  }

  lemma HighByte(bits: nat)
    requires bits < WORD_LIMIT
    ensures bits / 16777216 % 256 >= 128 <==> bits >= 0x8000_0000
  {
  }

  /** Several records in a row: the i-th one read gives the i-th word. */
  lemma {:induction false} ManyInOrder(r: Reader, base: Addr, count: nat) returns (turns: seq<Reader>)
    requires r.Valid() && ReadMany(r, base, count).Some?
    ensures var (words, end) := ReadMany(r, base, count).value;
      && |words| == count && |turns| == count + 1 && turns[0] == r && turns[count] == end
      && forall j | 0 <= j < count :: TakesWord(turns[j], base, words[j], turns[j + 1])
    decreases count
  {
    hide Sound, Read;
    if count == 0 {
      turns := [r];
    } else {
      var now := Read(r, base);
      var rest := ManyInOrder(now.to, base, count - 1);
      turns := [r] + rest;
      assert TakesWord(r, base, now.value, now.to);
      hide TakesWord;
      var words := ReadMany(r, base, count).value.0;
      var later := ReadMany(now.to, base, count - 1).value.0;
      assert words == [now.value] + later;
      forall j | 0 <= j < count
        ensures TakesWord(turns[j], base, words[j], turns[j + 1])
      {
        if j > 0 { assert TakesWord(rest[j - 1], base, later[j - 1], rest[j - 1 + 1]); }
      }
    }
  }

  ghost predicate TakesWord(r: Reader, base: Addr, word: Word, after: Reader) {
    r.Valid() && Read(r, base) == Good(word, after)
  }
}
