/** The image writer and loader as they run: streams are consumed and extended in place. */
module ImageFiles {
  import opened Memory
  import opened Image

  /** The objects the virtual machine itself refers to. */
  datatype Globals = Globals(
    nilObject: Word, trueObject: Word, falseObject: Word, globalsObject: Word,
    smallIntClass: Word, integerClass: Word, arrayClass: Word, blockClass: Word, contextClass: Word, stringClass: Word,
    initialMethod: Word, lessMessage: Word, lessOrEqualMessage: Word, plusMessage: Word, badMethodSymbol: Word)
  {
    /** The order in which an image holds them. */
    function InOrder(): seq<Word> {
      [nilObject, trueObject, falseObject, globalsObject,
       smallIntClass, integerClass, arrayClass, blockClass, contextClass, stringClass,
       initialMethod, lessMessage, lessOrEqualMessage, plusMessage, badMethodSymbol]
    }
  }

  class ImageWriter {
    var os: Stream
    var writtenObjects: seq<Addr>

    constructor ()
      ensures os == [] && writtenObjects == []
    {
      os, writtenObjects := [], [];
    }

    method WriteWord(word: nat)
      modifies `os
      ensures os == old(os) + EncodeWord(word)
    {
      var rest := word;
      while rest >= 0xFF
        invariant os + EncodeWord(rest) == old(os) + EncodeWord(word)
      {
        assert os + EncodeWord(rest) == (os + [0xFF]) + EncodeWord(rest - 0xFF);
        rest := rest - 0xFF;
        os := os + [0xFF];
      }
      os := os + [rest];
    }

    /** The position of an object among those written, or their number. */
    method Find(item: Addr) returns (index: nat)
      ensures index <= |writtenObjects|
      ensures if item in writtenObjects then index < |writtenObjects| && index == IndexOf(writtenObjects, item)
              else index == |writtenObjects|
    {
      index := 0;
      while index < |writtenObjects| && writtenObjects[index] != item
        invariant index <= |writtenObjects| && item !in writtenObjects[..index]
      {
        index := index + 1;
      }
      if index < |writtenObjects| {
        IndexFirst(writtenObjects, index, writtenObjects[..index]);
      } else {
        assert writtenObjects[..index] == writtenObjects;
      }
    }

    method GetObjectType(m: Mem, item: Word) returns (kind: nat)
      requires Storable(m, item)
      ensures kind == if IsSmallInteger(item) then INLINE_INTEGER
                      else if item in writtenObjects then
                        (if IndexOf(writtenObjects, item) == 0 then NIL_OBJECT else PREVIOUS_OBJECT)
                      else if m[item].binary then BYTE_OBJECT else ORDINARY_OBJECT
      ensures kind == if item % 2 == 1 then 2
                      else if item in writtenObjects then (if writtenObjects[0] == item then 5 else 4)
                      else if m[item].binary then 3 else 1
    {
      if IsSmallInteger(item) {
        return INLINE_INTEGER;
      }
      var index := Find(item);
      if index != |writtenObjects| {
        return if index == 0 then NIL_OBJECT else PREVIOUS_OBJECT;
      }
      return if m[item].binary then BYTE_OBJECT else ORDINARY_OBJECT;
    }

    method WriteObject(m: Mem, item: Word)
      requires Graph(m) && Known(m, writtenObjects) && Storable(m, item)
      modifies this
      ensures os == old(os) + Write(m, old(writtenObjects), item).bytes
      ensures writtenObjects == Write(m, old(writtenObjects), item).objects
      decreases |Unwritten(m, writtenObjects)|, 0
    {
      hide Graph, Known, Unwritten, WriteAll, EncodeWord, EncodeWords, AllStorable, LittleEndian, IntegerBits;
      ghost var os0, written0 := os, writtenObjects;
      var kind := GetObjectType(m, item);
      WriteWord(kind);
      if kind == ORDINARY_OBJECT || kind == BYTE_OBJECT {
        LessUnwritten(m, writtenObjects, item);
        Parts(m, item);
        WriteShape(m, writtenObjects, item);
        writtenObjects := writtenObjects + [item];
      }
      if kind == INLINE_INTEGER {
        os := os + LittleEndian(IntegerBits(item));
      } else if kind == BYTE_OBJECT {
        WriteWord(m[item].size);
        WriteBytes(m[item].bytes);
        SingleSlot(m, writtenObjects, item);
        WriteObject(m, m[item].data[0]);
      } else if kind == ORDINARY_OBJECT {
        WriteWord(m[item].size);
        WriteSlots(m, m[item].data);
      } else if kind == PREVIOUS_OBJECT {
        var index := Find(item);
        WriteWord(index);
      }
    }

    method WriteBytes(bytes: seq<Byte>)
      modifies `os
      ensures os == old(os) + EncodeWords(bytes)
    {
      for i := 0 to |bytes|
        invariant os + EncodeWords(bytes[i..]) == old(os) + EncodeWords(bytes)
      {
        assert EncodeWords(bytes[i..]) == EncodeWord(bytes[i]) + EncodeWords(bytes[i..][1..]);
        assert bytes[i..][1..] == bytes[i + 1..];
        WriteWord(bytes[i]);
      }
    }

    /** The class and the fields of an ordinary object. */
    method WriteSlots(m: Mem, slots: seq<Word>)
      requires Graph(m) && Known(m, writtenObjects) && AllStorable(m, slots)
      modifies this
      ensures os == old(os) + WriteAll(m, old(writtenObjects), slots).bytes
      ensures writtenObjects == WriteAll(m, old(writtenObjects), slots).objects
      decreases |Unwritten(m, writtenObjects)|, 1
    {
      hide Graph, Unwritten, Write;
      for i := 0 to |slots|
        invariant Known(m, writtenObjects) && old(writtenObjects) <= writtenObjects
        invariant os + WriteAll(m, writtenObjects, slots[i..]).bytes ==
                  old(os) + WriteAll(m, old(writtenObjects), slots).bytes
        invariant WriteAll(m, writtenObjects, slots[i..]).objects == WriteAll(m, old(writtenObjects), slots).objects
      {
        NoMoreUnwritten(m, old(writtenObjects), writtenObjects);
        assert slots[i..][1..] == slots[i + 1..];
        WriteObject(m, slots[i]);
      }
    }

    /** Writes an image that starts with the virtual machine's own objects. */
    method WriteTo(m: Mem, globals: Globals)
      requires Graph(m) && AllStorable(m, globals.InOrder())
      modifies this
      ensures os == old(os) + WriteAll(m, [], globals.InOrder()).bytes
      ensures os == old(os) + WriteAll(m, [],
        [globals.nilObject, globals.trueObject, globals.falseObject, globals.globalsObject, globals.smallIntClass,
         globals.integerClass, globals.arrayClass, globals.blockClass, globals.contextClass, globals.stringClass,
         globals.initialMethod, globals.lessMessage, globals.lessOrEqualMessage, globals.plusMessage,
         globals.badMethodSymbol]).bytes
      ensures writtenObjects == []
    {
      hide Graph, AllStorable, WriteAll;
      writtenObjects := [];
      WriteSlots(m, globals.InOrder());
      writtenObjects := [];
    }
  }

  class ImageReader {
    var input: Stream
    var indirects: seq<Addr>
    var mem: Mem                    // the objects of the static heap
    var staticHeapPointer: Addr
    const staticHeapBase: Addr

    constructor (file: Stream, base: Addr, top: Addr)
      requires top % WORD_BYTES == 0
      ensures input == file && indirects == [] && mem == map[] && staticHeapPointer == top && staticHeapBase == base
      ensures State().Valid()
    {
      input, indirects, mem, staticHeapPointer, staticHeapBase := file, [], map[], top, base;
    }

    function State(): Reader
      reads this
    {
      Reader(input, indirects, mem, staticHeapPointer)
    }

    /** The running sum of 0xFF bytes up to the first smaller one. */
    method ReadWord() returns (ok: bool, value: nat)
      modifies `input
      ensures match DecodeWord(old(input), 0)
              case None => !ok
              case Some((word, rest)) => ok && value == word && input == rest
    {
      value := 0;
      var byte := 0xFF;
      while byte == 0xFF
        invariant value < WORD_LIMIT
        invariant byte == 0xFF ==> DecodeWord(input, value) == DecodeWord(old(input), 0)
        invariant byte != 0xFF ==> DecodeWord(old(input), 0) == Some((value, input))
        decreases byte == 0xFF, |input|
      {
        if input == [] {
          return false, 0;
        }
        byte := input[0];
        input := input[1..];
        value := (value + byte) % WORD_LIMIT;
      }
      return true, value;
    }

    /** Space for an object in the static heap, from the top down. */
    method StaticAllocate(o: Obj) returns (ok: bool, a: Addr)
      requires State().Valid()
      modifies `mem, `staticHeapPointer, `indirects
      ensures ok <==> staticHeapBase + o.ByteSize() <= old(staticHeapPointer)
      ensures ok ==>
                State() == old(State()).Place(o) && State().Valid() && a == staticHeapPointer && a in mem && mem[a] == o
      ensures !ok ==> State() == old(State())
    {
      ghost var r := State();
      if staticHeapPointer < staticHeapBase + o.ByteSize() {
        return false, 0;
      }
      PlaceValid(r, o);
      hide Obj.ByteSize;
      a := staticHeapPointer - o.ByteSize();
      staticHeapPointer := a;
      mem := mem[a := o];
      indirects := indirects + [a];
      ok := true;
    }

    method ReadObject() returns (ok: bool, value: Word)
      requires State().Valid()
      modifies this
      ensures ok ==> State().Valid() && |input| < |old(input)|
      ensures ok ==> Read(old(State()), staticHeapBase) == Good(value, State())
      ensures !ok ==> Read(old(State()), staticHeapBase) == Bad
      decreases |input|, 1
    {
      hide Sound, Obj.ByteSize, ReadSlots, FromLittleEndian, NewInteger;
      ghost var r := State();
      var kind;
      ok, kind := ReadWord();
      if !ok { return false, 0; }
      if kind == ORDINARY_OBJECT {
        ok, value := ReadOrdinaryObject();
      } else if kind == INLINE_INTEGER {
        if |input| < 4 { return false, 0; }
        value := NewInteger(FromLittleEndian(input[0], input[1], input[2], input[3]));
        input := input[4..];
      } else if kind == BYTE_OBJECT {
        ok, value := ReadByteObject();
      } else if kind == PREVIOUS_OBJECT {
        var index;
        ok, index := ReadWord();
        if !ok || index >= |indirects| { return false, 0; }
        value := indirects[index];
      } else if kind == NIL_OBJECT {
        if indirects == [] { return false, 0; }
        value := indirects[0];
      } else {
        return false, 0;
      }
    }

    method ReadOrdinaryObject() returns (ok: bool, value: Word)
      requires State().Valid()
      modifies this
      ensures ok ==> State().Valid() && |input| <= |old(input)|
      ensures ok ==> ReadRecord(old(State()), staticHeapBase, ORDINARY_OBJECT) == Good(value, State())
      ensures !ok ==> ReadRecord(old(State()), staticHeapBase, ORDINARY_OBJECT) == Bad
      decreases |input|, 3
    {
      hide Sound, Obj.ByteSize, ReadSlots, DecodeWord;
      var fieldsCount, a;
      ok, fieldsCount := ReadWord();
      if !ok { return false, 0; }
      ok, a := StaticAllocate(Blank(fieldsCount));
      if !ok { return false, 0; }
      ok := ReadSlotsInto(a);
      value := a;
    }

    method ReadByteObject() returns (ok: bool, value: Word)
      requires State().Valid()
      modifies this
      ensures ok ==> State().Valid() && |input| <= |old(input)|
      ensures ok ==> ReadRecord(old(State()), staticHeapBase, BYTE_OBJECT) == Good(value, State())
      ensures !ok ==> ReadRecord(old(State()), staticHeapBase, BYTE_OBJECT) == Bad
      decreases |input|, 3
    {
      hide Sound, CorrectPadding, ReadSlots, DecodeWord, DecodeWords;
      var dataSize, a;
      ok, dataSize := ReadWord();
      if !ok { return false, 0; }
      ok, a := ReadBytes(dataSize);
      if !ok { return false, 0; }
      ok := ReadSlotsInto(a);
      value := a;
    }

    method ReadValues(count: nat) returns (ok: bool, values: seq<Word>)
      requires State().Valid()
      modifies this
      ensures match ReadMany(old(State()), staticHeapBase, count)
              case None => !ok
              case Some((words, r)) => ok && values == words && State() == r
    {
      hide Sound, Read;
      ghost var r := State();
      values := [];
      assert forall words: seq<Word> :: [] + words == words;
      while |values| < count
        invariant |values| <= count && State().Valid()
        invariant match ReadMany(State(), staticHeapBase, count - |values|)
                  case None => ReadMany(r, staticHeapBase, count) == None
                  case Some((words, r')) => ReadMany(r, staticHeapBase, count) == Some((values + words, r'))
      {
        ghost var before := values;
        var value;
        ok, value := ReadObject();
        if !ok { return; }
        values := values + [value];
        assert forall words :: values + words == before + ([value] + words);
      }
      assert values + [] == values;
      ok := true;
    }

    /** Loads an image: the virtual machine's own objects, one after the other. */
    method LoadImage() returns (ok: bool, globals: Globals)
      requires State().Valid()
      modifies this
      ensures match ReadMany(old(State()), staticHeapBase, 15)
              case None => !ok
              case Some((values, r)) => ok && globals.InOrder() == values && State() == r
      ensures ok ==>
        var values := ReadMany(old(State()), staticHeapBase, 15).value.0;
        && globals.nilObject == values[0] && globals.trueObject == values[1] && globals.falseObject == values[2]
        && globals.globalsObject == values[3] && globals.smallIntClass == values[4]
        && globals.integerClass == values[5] && globals.arrayClass == values[6] && globals.blockClass == values[7]
        && globals.contextClass == values[8] && globals.stringClass == values[9]
        && globals.initialMethod == values[10] && globals.lessMessage == values[11]
        && globals.lessOrEqualMessage == values[12] && globals.plusMessage == values[13]
        && globals.badMethodSymbol == values[14]
    {
      hide Sound, ReadMany;
      var values;
      ok, values := ReadValues(15);
      globals := Globals(0, 0, 0, 0, 0, 0, 0, 0, 0, 0, 0, 0, 0, 0, 0);
      if ok {
        globals := Globals(values[0], values[1], values[2], values[3], values[4], values[5], values[6], values[7],
                           values[8], values[9], values[10], values[11], values[12], values[13], values[14]);
      }
    }

    /** Space for a byte object and its bytes, one word each. */
    method ReadBytes(dataSize: nat) returns (ok: bool, a: Addr)
      requires State().Valid()
      modifies this
      ensures ok ==> DecodeWords(old(input), dataSize).Some?
      ensures ok ==> var (bytes, rest) := DecodeWords(old(input), dataSize).value;
                     && staticHeapBase + BlankBytes(dataSize, bytes).ByteSize() <= old(staticHeapPointer)
                     && State() == old(State()).(rest := rest).Place(BlankBytes(dataSize, bytes))
                     && State().Valid() && a == staticHeapPointer && a in mem && mem[a] == BlankBytes(dataSize, bytes)
      ensures !ok ==> DecodeWords(old(input), dataSize) == None ||
                      old(staticHeapPointer) < staticHeapBase + BlankBytes(dataSize, []).ByteSize()
    {
      hide Sound, CorrectPadding, DecodeWord, DecodeWords;
      ghost var r := State();
      ok, a := StaticAllocate(BlankBytes(dataSize, seq(dataSize, _ => 0)));
      if !ok { return; }
      ghost var r1 := State();
      ok := FillBytes(a);
      if !ok { return; }
      SoundUpdate(r1, a, mem[a]);
    }

    /** The bytes of the object at a, one word each. */
    method FillBytes(a: Addr) returns (ok: bool)
      requires a in mem
      modifies `input, `mem
      ensures ok <==> DecodeWords(old(input), |old(mem)[a].bytes|).Some?
      ensures ok ==> var (bytes, rest) := DecodeWords(old(input), |old(mem)[a].bytes|).value;
                     input == rest && mem == old(mem)[a := old(mem)[a].(bytes := bytes)]
    {
      hide DecodeWord, DecodeWords;
      var dataSize := |mem[a].bytes|;
      ghost var start, m := input, mem;
      NothingDecoded(start, dataSize);
      var i := 0;
      while i < dataSize
        invariant 0 <= i <= dataSize && a in mem && |mem[a].bytes| == dataSize
        invariant mem == m[a := m[a].(bytes := mem[a].bytes)]
        invariant DecodedFrom(start, dataSize, mem[a].bytes[..i], input)
      {
        var word;
        ghost var before, rest := mem[a].bytes[..i], input;
        ok, word := ReadWord();
        OneDecoded(start, dataSize, before, rest);
        if !ok { return; }
        mem := mem[a := mem[a].(bytes := mem[a].bytes[i := word % 256])];
        i := i + 1;
        assert mem[a].bytes[..i] == before + [word % 256];
      }
      AllDecoded(start, dataSize, mem[a].bytes[..i], input);
      assert mem[a].bytes[..i] == mem[a].bytes;
      ok := true;
    }

    /** The class and the fields of the object at a, in order. */
    method ReadSlotsInto(a: Addr) returns (ok: bool)
      requires State().Valid() && a in mem
      modifies this
      ensures ok ==> State().Valid() && |input| <= |old(input)|
      ensures ok ==> ReadSlots(old(State()), staticHeapBase, a, 0) == Good(a, State())
      ensures !ok ==> ReadSlots(old(State()), staticHeapBase, a, 0) == Bad
      decreases |input|, 2
    {
      hide Read, Sound;
      ghost var r := State();
      var count, i := |mem[a].data|, 0;
      while i < count
        invariant 0 <= i <= count && State().Valid() && |input| <= |old(input)|
        invariant a in mem && |mem[a].data| == count
        invariant ReadSlots(State(), staticHeapBase, a, i) == ReadSlots(r, staticHeapBase, a, 0)
      {
        ghost var before := State();
        var value;
        ok, value := ReadObject();
        if !ok { return false; }
        StoreValid(State(), before, a, i, value);
        mem := mem[a := mem[a].SetData(i, value)];
        i := i + 1;
      }
      ok := true;
    }
  }

  /** The static heap that the loader sets aside for a file. */
  function StaticHeapFor(file: Stream): nat {
    CorrectPadding(|file| * 3 / 2)
  }

  /** One and a half times the file, rounded up to a multiple of 4. */
  lemma StaticHeapIs(file: Stream)
    ensures StaticHeapFor(file) % 4 == 0
    ensures 3 * |file| - 1 <= 2 * StaticHeapFor(file) < 3 * |file| + 8
    ensures forall n: nat | n % 4 == 0 && 2 * n >= 3 * |file| - 1 :: n >= StaticHeapFor(file)
  {
  }

  /** Writes an image and loads it.  Loading succeeds exactly when one and a half times the
      file is room enough, and then the loaded graph is the one that was written. */
  method SaveAndLoad(m: Mem, globals: Globals, base: Addr) returns (ok: bool, loaded: Globals, reader: ImageReader)
    requires Graph(m) && AllStorable(m, globals.InOrder()) && base % WORD_BYTES == 0
    ensures var out := WriteAll(m, [], globals.InOrder());
            && (ok <==> Footprint(m, out.objects) <= StaticHeapFor(out.bytes))
            && (ok ==> SameGraph(m, ImageRoots(globals.InOrder()), reader.mem, ImageRoots(loaded.InOrder())))
  {
    hide SameGraph, Graph, AllStorable, WriteAll, Footprint, Globals.InOrder, ReadMany;
    var writer := new ImageWriter();
    writer.WriteTo(m, globals);
    var file := writer.os;
    assert file == WriteAll(m, [], globals.InOrder()).bytes;
    HeapAligned(base, file);
    reader := new ImageReader(file, base, base + StaticHeapFor(file));
    ImageRoundTrip(m, globals.InOrder(), base, base + StaticHeapFor(file));
    Fifteen(globals);
    ok, loaded := reader.LoadImage();
  }

  lemma Fifteen(globals: Globals)
    ensures |globals.InOrder()| == 15
  {
  }

  lemma HeapAligned(base: Addr, file: Stream)
    requires base % WORD_BYTES == 0
    ensures (base + StaticHeapFor(file)) % WORD_BYTES == 0
  {
  }

  /** The stream held these bytes first, and what it holds now still has to be decoded. */
  ghost predicate DecodedFrom(start: Stream, count: nat, done: seq<Byte>, rest: Stream) {
    |done| <= count &&
    match DecodeWords(rest, count - |done|)
    case None => DecodeWords(start, count) == None
    case Some((bytes, end)) => DecodeWords(start, count) == Some((done + bytes, end))
  }

  lemma NothingDecoded(start: Stream, count: nat)
    ensures DecodedFrom(start, count, [], start)
  {
    match DecodeWords(start, count)
    case None =>
    case Some((bytes, end)) => assert [] + bytes == bytes;
  }

  lemma OneDecoded(start: Stream, count: nat, done: seq<Byte>, rest: Stream)
    requires DecodedFrom(start, count, done, rest) && |done| < count
    ensures match DecodeWord(rest, 0)
            case None => DecodeWords(start, count) == None
            case Some((word, rest')) => DecodedFrom(start, count, done + [word % 256], rest')
  {
    hide DecodeWord, DecodeWords;
    DecodesOne(rest, count - |done|);
    match DecodeWord(rest, 0)
    case None =>
    case Some((word, rest')) =>
      match DecodeWords(rest', count - |done| - 1)
      case None =>
      case Some((bytes, end)) => assert done + ([word % 256] + bytes) == (done + [word % 256]) + bytes;
  }

  lemma DecodesOne(s: Stream, count: nat)
    requires count > 0
    ensures DecodeWords(s, count) ==
            match DecodeWord(s, 0)
            case None => None
            case Some((word, s')) =>
              match DecodeWords(s', count - 1)
              case None => None
              case Some((bytes, s'')) => Some(([word % 256] + bytes, s''))
  {
    hide DecodeWord;
  }

  lemma AllDecoded(start: Stream, count: nat, done: seq<Byte>, rest: Stream)
    requires DecodedFrom(start, count, done, rest) && |done| == count
    ensures DecodeWords(start, count) == Some((done, rest))
  {
    assert DecodeWords(rest, 0) == Some(([], rest)) && done + [] == done;
  }

  lemma SoundUpdate(r: Reader, a: Addr, o: Obj)
    requires r.Valid() && a in r.mem
    ensures r.(mem := r.mem[a := o]).Valid()
  {
  }

  lemma StoreValid(r: Reader, before: Reader, a: Addr, i: nat, value: Word)
    requires before.Valid() && r.Valid() && a in before.mem && i < |before.mem[a].data|
    requires Kept(before.mem, r.mem, NOWHERE)
    ensures a in r.mem && r.mem[a] == before.mem[a] && r.(mem := r.mem[a := r.mem[a].SetData(i, value)]).Valid()
  {
  }

  // ---- One and a half times the file is not always room enough.

  /** An image whose only object is nil, with all its slots referring to itself. */
  function NilImage(fields: nat): Mem {
    map[4 := Obj(fields, false, false, seq(fields + 1, _ => 4), [])]
  }

  const NIL_GLOBALS := Globals(4, 4, 4, 4, 4, 4, 4, 4, 4, 4, 4, 4, 4, 4, 4)

  lemma {:induction false} NilSlots(m: Mem, words: seq<Word>)
    requires Graph(m) && 4 in m && forall i | 0 <= i < |words| :: words[i] == 4
    ensures |WriteAll(m, [4], words).bytes| == |words| && WriteAll(m, [4], words).objects == [4]
  {
    if words != [] {
      assert Write(m, [4], 4) == Output([NIL_OBJECT], [4]);
      NilSlots(m, words[1..]);
    }
  }

  lemma NilImageIsGraph(fields: nat)
    requires fields < 254
    ensures Graph(NilImage(fields)) && AllStorable(NilImage(fields), NIL_GLOBALS.InOrder())
  {
    var m := NilImage(fields);
    assert |m| == 1 by { assert m.Keys == {4}; assert |m.Keys| == |m|; }
    assert RecordAt(m, 4);
  }

  lemma NilImageBytes(fields: nat)
    requires fields < 254 && Graph(NilImage(fields)) && AllStorable(NilImage(fields), NIL_GLOBALS.InOrder())
    ensures |WriteAll(NilImage(fields), [], NIL_GLOBALS.InOrder()).bytes| == fields + 17
    ensures WriteAll(NilImage(fields), [], NIL_GLOBALS.InOrder()).objects == [4]
  {
    var m, roots := NilImage(fields), NIL_GLOBALS.InOrder();
    Fifteen(NIL_GLOBALS);
    assert roots[0] == 4 && forall i | 0 <= i < 15 :: roots[i] == 4;
    hide Globals.InOrder;
    FirstNil(fields);
    hide Write, Graph, AllStorable, NilImage;
    NilSlots(m, roots[1..]);
  }

  lemma FirstNil(fields: nat)
    requires fields < 254 && Graph(NilImage(fields))
    ensures |Write(NilImage(fields), [], 4).bytes| == fields + 3 && Write(NilImage(fields), [], 4).objects == [4]
  {
    var m := NilImage(fields);
    var slots := m[4].data;
    LessUnwritten(m, [], 4);
    Parts(m, 4);
    assert [] + [4] == [4];
    NilSlots(m, slots);
    WriteShape(m, [], 4);
    hide Write, WriteAll, Graph, AllStorable;
  }

  /** A reference to nil takes one byte in the file and four in memory. */
  lemma EstimateTooSmall(fields: nat)
    requires 12 <= fields < 254
    ensures Graph(NilImage(fields)) && AllStorable(NilImage(fields), NIL_GLOBALS.InOrder())
    ensures var out := WriteAll(NilImage(fields), [], NIL_GLOBALS.InOrder());
            |out.bytes| == fields + 17 && Footprint(NilImage(fields), out.objects) > StaticHeapFor(out.bytes)
  {
    NilImageIsGraph(fields);
    NilImageBytes(fields);
    hide WriteAll, Graph, AllStorable, Globals.InOrder;
    var m := NilImage(fields);
    assert Footprint(m, []) == 0;
    assert Footprint(m, [4]) == Footprint(m, [4][..0]) + m[4].ByteSize();
  }
}
