/** Method lookup: the walk up the class chain over sorted dictionaries, and the cache in front of it. */
module MethodCache {
  import opened Lexicographic

  /** Addresses of classes, symbols and methods; 0 is no object. */
  type Address = bv32

  datatype Dictionary = Dictionary(keys: seq<Address>, values: seq<Address>)

  datatype Class = Class(parentClass: Address, methods: Dictionary)

  /** The objects that lookup reads: symbols with their bytes, classes, and nil above the topmost class. */
  datatype Image = Image(symbols: map<Address, string>, classes: map<Address, Class>, nilObject: Address)

  // ---- Dictionaries ----

  /** Keys are symbols in the order of their bytes, each with a value. */
  ghost predicate Sorted(image: Image, d: Dictionary) {
    && |d.keys| == |d.values|
    && (forall i | 0 <= i < |d.keys| :: d.keys[i] in image.symbols && d.values[i] != 0)
    && forall i, j | 0 <= i < j < |d.keys| :: Less(image.symbols[d.keys[i]], image.symbols[d.keys[j]])
  }

  /** The value found under a name: 0 if no key has it. */
  ghost predicate FoundIn(image: Image, d: Dictionary, name: string, value: Address)
    requires Sorted(image, d)
  {
    if value == 0 then forall i | 0 <= i < |d.keys| :: image.symbols[d.keys[i]] != name
    else exists i :: 0 <= i < |d.keys| && image.symbols[d.keys[i]] == name && d.values[i] == value
  }

  /** The binary search of the dictionary. */
  method Find(image: Image, d: Dictionary, key: Address) returns (value: Address)
    requires Sorted(image, d) && key in image.symbols
    ensures FoundIn(image, d, image.symbols[key], value)
  {
    var name := image.symbols[key];
    var first, count := 0, |d.keys|;
    while count > 0
      invariant 0 <= first && 0 <= count && first + count <= |d.keys|
      invariant forall i | 0 <= i < first :: Less(image.symbols[d.keys[i]], name)
      invariant forall i | first + count <= i < |d.keys| :: !Less(image.symbols[d.keys[i]], name)
    {
      var half := count / 2;
      var middle := first + half;
      if Less(image.symbols[d.keys[middle]], name) {
        forall i | 0 <= i < middle
          ensures Less(image.symbols[d.keys[i]], name)
        {
          LessTransitive(image.symbols[d.keys[i]], image.symbols[d.keys[middle]], name);
        }
        first, count := middle + 1, count - half - 1;
      } else {
        forall i | middle < i < |d.keys|
          ensures !Less(image.symbols[d.keys[i]], name)
        {
          if Less(image.symbols[d.keys[i]], name) {
            LessTransitive(image.symbols[d.keys[middle]], image.symbols[d.keys[i]], name);
          }
        }
        count := half;
      }
    }
    if first < |d.keys| && !Less(name, image.symbols[d.keys[first]]) {
      LessTrichotomy(name, image.symbols[d.keys[first]]);
      return d.values[first];
    }
    forall i | 0 <= i < |d.keys|
      ensures image.symbols[d.keys[i]] != name
    {
      LessTrichotomy(name, name);
      if first < i { LessTrichotomy(image.symbols[d.keys[first]], image.symbols[d.keys[i]]); }
    }
    value := 0;
  }

  // ---- The class chain ----

  /** The class k steps up from a class; nil stays nil. */
  ghost function ClassAt(image: Image, klass: Address, k: nat): Address
    decreases k
  {
    if k == 0 || klass !in image.classes then klass
    else ClassAt(image, image.classes[klass].parentClass, k - 1)
  }

  /** Every class has a sorted dictionary and a chain of parents that ends at nil. */
  ghost predicate WellFormed(image: Image) {
    && image.nilObject !in image.classes && 0 !in image.classes && 0 !in image.symbols
    && (forall c | c in image.classes :: Sorted(image, image.classes[c].methods))
    && (forall c | c in image.classes :: exists k :: ClassAt(image, c, k) == image.nilObject)
  }

  /** The method is that of the first class up the chain whose dictionary has the selector; 0 if no class has it. */
  ghost predicate Answers(image: Image, klass: Address, selector: Address, found: Address)
    requires WellFormed(image) && selector in image.symbols
  {
    var name := image.symbols[selector];
    if found == 0 then
      forall k: nat :: Holds(image, ClassAt(image, klass, k), name, 0)
    else
      exists k: nat :: FirstAt(image, klass, name, found, k)
  }

  /** What a class's own dictionary answers; what is no class answers nothing. */
  ghost predicate Holds(image: Image, klass: Address, name: string, value: Address)
    requires WellFormed(image)
  {
    if klass in image.classes then FoundIn(image, image.classes[klass].methods, name, value) else value == 0
  }

  lemma {:induction false} ClassAtNext(image: Image, klass: Address, k: nat)
    ensures var c := ClassAt(image, klass, k);
      ClassAt(image, klass, k + 1) == if c in image.classes then image.classes[c].parentClass else c
    decreases k
  {
    if k > 0 && klass in image.classes { ClassAtNext(image, image.classes[klass].parentClass, k - 1); }
  }

  lemma {:induction false} NilStays(image: Image, klass: Address, k: nat, j: nat)
    requires ClassAt(image, klass, k) !in image.classes && k <= j
    ensures ClassAt(image, klass, j) == ClassAt(image, klass, k)
    decreases j
  {
    if k < j {
      NilStays(image, klass, k, j - 1);
      ClassAtNext(image, klass, j - 1);
    }
  }

  /** The k-th class up the chain is the first that has the name, and holds the method. */
  ghost predicate FirstAt(image: Image, klass: Address, name: string, found: Address, k: nat)
    requires WellFormed(image)
  {
    && ClassAt(image, klass, k) in image.classes
    && Holds(image, ClassAt(image, klass, k), name, found)
    && forall j: nat | j < k :: Holds(image, ClassAt(image, klass, j), name, 0)
  }

  /** There is one answer. */
  lemma AnswerUnique(image: Image, klass: Address, selector: Address, a: Address, b: Address)
    requires WellFormed(image) && selector in image.symbols
    requires Answers(image, klass, selector, a) && Answers(image, klass, selector, b)
    ensures a == b
  {
    hide WellFormed, Holds;
    var name := image.symbols[selector];
    if a != 0 {
      var i: nat :| FirstAt(image, klass, name, a, i);
      if b != 0 {
        var k: nat :| FirstAt(image, klass, name, b, k);
        if i < k { HoldsUnique(image, ClassAt(image, klass, i), name, a, 0); }
        if k < i { HoldsUnique(image, ClassAt(image, klass, k), name, b, 0); }
        HoldsUnique(image, ClassAt(image, klass, i), name, a, b);
      } else {
        HoldsUnique(image, ClassAt(image, klass, i), name, a, 0);
      }
    } else if b != 0 {
      var k: nat :| FirstAt(image, klass, name, b, k);
      HoldsUnique(image, ClassAt(image, klass, k), name, b, 0);
    }
  }

  lemma HoldsUnique(image: Image, klass: Address, name: string, a: Address, b: Address)
    requires WellFormed(image) && klass in image.classes && Holds(image, klass, name, a) && Holds(image, klass, name, b)
    ensures a == b
  {
    var d := image.classes[klass].methods;
    if a != 0 && b != 0 {
      var i :| 0 <= i < |d.keys| && image.symbols[d.keys[i]] == name && d.values[i] == a;
      var j :| 0 <= j < |d.keys| && image.symbols[d.keys[j]] == name && d.values[j] == b;
      LessTrichotomy(name, name);
    }
  }

  lemma ChainLength(image: Image, klass: Address) returns (end: nat)
    requires WellFormed(image) && (klass in image.classes || klass == image.nilObject)
    ensures ClassAt(image, klass, end) == image.nilObject
  {
    if klass in image.classes {
      end :| ClassAt(image, klass, end) == image.nilObject;
    } else {
      end := 0;
    }
  }

  /** Short of its end the chain is of classes. */
  lemma OnTheChain(image: Image, klass: Address, k: nat, end: nat)
    requires WellFormed(image) && ClassAt(image, klass, end) == image.nilObject && k <= end
    requires ClassAt(image, klass, k) != image.nilObject
    ensures k < end && ClassAt(image, klass, k) in image.classes && klass in image.classes
    ensures Sorted(image, image.classes[ClassAt(image, klass, k)].methods)
  {
    if ClassAt(image, klass, k) !in image.classes { NilStays(image, klass, k, end); }
  }

  lemma AboveNil(image: Image, klass: Address, k: nat, name: string)
    requires WellFormed(image) && ClassAt(image, klass, k) == image.nilObject
    requires forall j: nat | j < k :: Holds(image, ClassAt(image, klass, j), name, 0)
    ensures forall j: nat :: Holds(image, ClassAt(image, klass, j), name, 0)
  {
    forall j: nat
      ensures Holds(image, ClassAt(image, klass, j), name, 0)
    {
      if j >= k { NilStays(image, klass, k, j); }
    }
  }

  // ---- The one answer ----

  lemma HoldsSome(image: Image, klass: Address, name: string) returns (value: Address)
    requires WellFormed(image)
    ensures Holds(image, klass, name, value)
  {
    value := 0;
    if klass in image.classes {
      var d := image.classes[klass].methods;
      if i :| 0 <= i < |d.keys| && image.symbols[d.keys[i]] == name { value := d.values[i]; }
    }
  }

  /** Below k no class has the name, or there is a first one that has it. */
  lemma {:induction false} FirstOrNone(image: Image, klass: Address, name: string, k: nat)
    returns (value: Address, first: nat)
    requires WellFormed(image)
    ensures value != 0 ==> FirstAt(image, klass, name, value, first)
    ensures value == 0 ==> forall j: nat | j < k :: Holds(image, ClassAt(image, klass, j), name, 0)
  {
    hide WellFormed, Holds, ClassAt;
    if k == 0 {
      value, first := 0, 0;
    } else {
      value, first := FirstOrNone(image, klass, name, k - 1);
      if value == 0 {
        value := HoldsSome(image, ClassAt(image, klass, k - 1), name);
        first := k - 1;
        if value != 0 { OnlyClassesHold(image, ClassAt(image, klass, first), name, value); }
      }
    }
  }

  lemma OnlyClassesHold(image: Image, klass: Address, name: string, value: Address)
    requires WellFormed(image) && Holds(image, klass, name, value) && value != 0
    ensures klass in image.classes
  {
  }

  /** What the class chain answers; 0 as well for a selector that is no symbol. */
  ghost function TheAnswer(image: Image, klass: Address, selector: Address): Address {
    if WellFormed(image) && selector in image.symbols && exists v :: v != 0 && Answers(image, klass, selector, v)
    then var v :| v != 0 && Answers(image, klass, selector, v); v
    else 0
  }

  lemma FirstAnswers(image: Image, klass: Address, selector: Address, value: Address, k: nat)
    requires WellFormed(image) && selector in image.symbols && value != 0
    requires FirstAt(image, klass, image.symbols[selector], value, k)
    ensures Answers(image, klass, selector, value)
  {
  }

  lemma TheAnswerIs(image: Image, klass: Address, selector: Address)
    requires WellFormed(image) && selector in image.symbols
    ensures Answers(image, klass, selector, TheAnswer(image, klass, selector))
  {
    hide WellFormed, Holds, ClassAt;
    if forall v :: v != 0 ==> !Answers(image, klass, selector, v) {
      var name := image.symbols[selector];
      forall k: nat
        ensures Holds(image, ClassAt(image, klass, k), name, 0)
      {
        var value, first := FirstOrNone(image, klass, name, k + 1);
        if value != 0 { FirstAnswers(image, klass, selector, value, first); }
      }
    }
  }

  // ---- The cache ----

  const LOOKUP_CACHE_SIZE := 512

  datatype CacheEntry = CacheEntry(methodName: Address, receiverClass: Address, found: Address)

  function Slot(selector: Address, klass: Address): (s: nat)
    ensures s < LOOKUP_CACHE_SIZE
  {
    ((selector ^ klass) as nat) % LOOKUP_CACHE_SIZE
  }

  /** The cache and the image it speaks of. */
  datatype Vm = Vm(cache: seq<CacheEntry>, image: Image)

  /** A program can ask for this selector and this class. */
  predicate Askable(image: Image, selector: Address, klass: Address) {
    selector in image.symbols && klass != 0 && (klass in image.classes || klass == image.nilObject)
  }

  /** Every entry in use is in its slot and holds a method. */
  ghost predicate Slotted(cache: seq<CacheEntry>) {
    && |cache| == LOOKUP_CACHE_SIZE
    && forall i | 0 <= i < |cache| && cache[i].methodName != 0 ::
         cache[i].found != 0 && Slot(cache[i].methodName, cache[i].receiverClass) == i
  }

  ghost predicate Sound(vm: Vm) {
    Slotted(vm.cache) && WellFormed(vm.image)
  }

  /** The last method cached in the slot of this selector and class is theirs. */
  predicate Remembered(cache: seq<CacheEntry>, selector: Address, klass: Address) {
    && |cache| == LOOKUP_CACHE_SIZE
    && cache[Slot(selector, klass)].methodName == selector && cache[Slot(selector, klass)].receiverClass == klass
  }

  /** Every entry in use that a program can ask for tells the truth about the image. */
  ghost predicate StillTrue(cache: seq<CacheEntry>, image: Image) {
    forall i | 0 <= i < |cache| && cache[i].methodName != 0 :: EntryTrue(image, cache[i])
  }

  ghost predicate EntryTrue(image: Image, e: CacheEntry) {
    WellFormed(image) && Askable(image, e.methodName, e.receiverClass) ==>
      Answers(image, e.receiverClass, e.methodName, e.found)
  }

  /** What a lookup returns: the entry of its slot if that is its own, else the chain's answer. */
  ghost function Looked(vm: Vm, selector: Address, klass: Address): Address {
    if Remembered(vm.cache, selector, klass) then vm.cache[Slot(selector, klass)].found
    else TheAnswer(vm.image, klass, selector)
  }

  /** The lookup returns what the class chain answers. */
  ghost predicate Right(vm: Vm, selector: Address, klass: Address) {
    WellFormed(vm.image) && selector in vm.image.symbols ==>
      Answers(vm.image, klass, selector, Looked(vm, selector, klass))
  }

  /** Whatever a program asks next, it gets the right answer. */
  ghost predicate AlwaysRight(vm: Vm) {
    forall selector, klass | Askable(vm.image, selector, klass) :: Right(vm, selector, klass)
  }

  /** Every lookup is right exactly if every entry in use is true. */
  lemma RightIffTrue(vm: Vm)
    requires Sound(vm)
    ensures AlwaysRight(vm) <==> StillTrue(vm.cache, vm.image)
  {
    hide WellFormed, Answers, Slot, TheAnswer;
    if StillTrue(vm.cache, vm.image) {
      forall selector, klass | Askable(vm.image, selector, klass)
        ensures Right(vm, selector, klass)
      {
        TrueIsRight(vm, selector, klass);
      }
    }
    if AlwaysRight(vm) {
      forall i | 0 <= i < |vm.cache| && vm.cache[i].methodName != 0
        ensures EntryTrue(vm.image, vm.cache[i])
      {
        var e := vm.cache[i];
        if Askable(vm.image, e.methodName, e.receiverClass) {
          assert Right(vm, e.methodName, e.receiverClass);
        }
      }
    }
  }

  lemma TrueIsRight(vm: Vm, selector: Address, klass: Address)
    requires Sound(vm) && StillTrue(vm.cache, vm.image) && Askable(vm.image, selector, klass)
    ensures Right(vm, selector, klass)
  {
    hide Answers;
    if Remembered(vm.cache, selector, klass) {
      assert EntryTrue(vm.image, vm.cache[Slot(selector, klass)]);
    } else {
      TheAnswerIs(vm.image, klass, selector);
    }
  }

  /** What happens to the cache: a lookup, or an allocation.  An allocation can collect, and
      then leaves the image `moved`; only one that succeeds flushes the cache after that. */
  datatype Event = Lookup(selector: Address, klass: Address) | Allocated(moved: Image, collected: bool, ok: bool)

  function Flushed(cache: seq<CacheEntry>): seq<CacheEntry> {
    seq(|cache|, i requires 0 <= i < |cache| => cache[i].(methodName := 0))
  }

  ghost function Next(vm: Vm, event: Event): Vm {
    match event
    case Lookup(selector, klass) =>
      var answer := TheAnswer(vm.image, klass, selector);
      if |vm.cache| != LOOKUP_CACHE_SIZE || Remembered(vm.cache, selector, klass) || answer == 0 then vm
      else vm.(cache := vm.cache[Slot(selector, klass) := CacheEntry(selector, klass, answer)])
    case Allocated(moved, collected, ok) =>
      Vm(if collected && ok then Flushed(vm.cache) else vm.cache, if collected then moved else vm.image)
  }

  ghost function VmAt(vm: Vm, events: seq<Event>, i: nat): Vm
    requires i <= |events|
    decreases i
  {
    if i == 0 then vm else Next(VmAt(vm, events, i - 1), events[i - 1])
  }

  /** Lookups ask for symbols and classes of their time; collections leave well-formed images. */
  ghost predicate Fits(vm: Vm, events: seq<Event>) {
    forall i | 0 <= i < |events| ::
      match events[i]
      case Lookup(selector, klass) => Askable(VmAt(vm, events, i).image, selector, klass)
      case Allocated(moved, collected, ok) => WellFormed(moved)
  }

  /** The allocation failed after it had collected: the cache was not flushed. */
  predicate Unflushed(event: Event) {
    event.Allocated? && event.collected && !event.ok
  }

  lemma NextSound(vm: Vm, event: Event)
    requires Sound(vm) && (event.Allocated? ==> WellFormed(event.moved))
    requires (event.Lookup? ==> event.selector in vm.image.symbols)
    ensures Sound(Next(vm, event))
  {
    hide Slot, TheAnswer, WellFormed;
    if event.Lookup? { ZeroIsNoSymbol(vm.image); }
  }

  lemma ZeroIsNoSymbol(image: Image)
    requires WellFormed(image)
    ensures 0 !in image.symbols && 0 !in image.classes && image.nilObject !in image.classes
  {
  }

  /** Only an unflushed collection can make an entry untrue, and it does exactly if the entry
      does not tell the truth about the moved image. */
  lemma NextTrue(vm: Vm, event: Event)
    requires Sound(vm) && StillTrue(vm.cache, vm.image)
    requires (event.Allocated? ==> WellFormed(event.moved)) && (event.Lookup? ==> event.selector in vm.image.symbols)
    ensures StillTrue(Next(vm, event).cache, Next(vm, event).image) <==>
            (Unflushed(event) ==> StillTrue(vm.cache, event.moved))
  {
    hide EntryTrue, TheAnswer, Slot;
    if event.Lookup? { AnswerIsTrue(vm.image, event.klass, event.selector); }
  }

  lemma AnswerIsTrue(image: Image, klass: Address, selector: Address)
    requires WellFormed(image) && selector in image.symbols
    ensures EntryTrue(image, CacheEntry(selector, klass, TheAnswer(image, klass, selector)))
  {
    TheAnswerIs(image, klass, selector);
  }

  lemma {:induction false} SoundAt(vm: Vm, events: seq<Event>, i: nat)
    requires Sound(vm) && Fits(vm, events) && i <= |events|
    ensures Sound(VmAt(vm, events, i))
    decreases i
  {
    hide Sound, WellFormed, Next;
    if i > 0 {
      SoundAt(vm, events, i - 1);
      assert events[i - 1].Lookup? ==>
        Askable(VmAt(vm, events, i - 1).image, events[i - 1].selector, events[i - 1].klass);
      NextSound(VmAt(vm, events, i - 1), events[i - 1]);
    }
  }

  /** No failed allocation of the run collects and thereby makes an entry in use untrue. */
  ghost predicate Harmless(vm: Vm, events: seq<Event>) {
    forall i | 0 <= i < |events| && Unflushed(events[i]) :: StillTrue(VmAt(vm, events, i).cache, events[i].moved)
  }

  lemma {:induction false} TrueAt(vm: Vm, events: seq<Event>, i: nat)
    requires Sound(vm) && StillTrue(vm.cache, vm.image) && Fits(vm, events) && Harmless(vm, events) && i <= |events|
    ensures StillTrue(VmAt(vm, events, i).cache, VmAt(vm, events, i).image)
    decreases i
  {
    hide Sound, WellFormed, Next, StillTrue;
    if i > 0 {
      TrueAt(vm, events, i - 1);
      SoundAt(vm, events, i - 1);
      var before := VmAt(vm, events, i - 1);
      assert events[i - 1].Lookup? ==> Askable(before.image, events[i - 1].selector, events[i - 1].klass);
      assert Unflushed(events[i - 1]) ==> StillTrue(before.cache, events[i - 1].moved);
      NextTrue(before, events[i - 1]);
    }
  }

  /** Whatever a program asks at any time of the run, it gets the right answer. */
  ghost predicate RightThroughout(vm: Vm, events: seq<Event>) {
    forall i | 0 <= i <= |events| :: AlwaysRight(VmAt(vm, events, i))
  }

  /** A program gets only right answers throughout a run exactly if no allocation of the run
      that fails after a collection makes an entry in use untrue. */
  lemma RunRightIff(vm: Vm, events: seq<Event>)
    requires Sound(vm) && StillTrue(vm.cache, vm.image) && Fits(vm, events)
    ensures RightThroughout(vm, events) <==> Harmless(vm, events)
  {
    hide Sound, Fits, StillTrue, AlwaysRight, VmAt;
    if Harmless(vm, events) {
      forall i | 0 <= i <= |events|
        ensures AlwaysRight(VmAt(vm, events, i))
      {
        TrueAt(vm, events, i);
        SoundAt(vm, events, i);
        RightIffTrue(VmAt(vm, events, i));
      }
    }
    if RightThroughout(vm, events) {
      forall i | 0 <= i < |events| && Unflushed(events[i])
        ensures StillTrue(VmAt(vm, events, i).cache, events[i].moved)
      {
        assert AlwaysRight(VmAt(vm, events, i + 1));
        SoundAt(vm, events, i + 1);
        RightIffTrue(VmAt(vm, events, i + 1));
        UnflushedKeeps(vm, events, i);
      }
    }
  }

  lemma UnflushedKeeps(vm: Vm, events: seq<Event>, i: nat)
    requires i < |events| && Unflushed(events[i])
    ensures VmAt(vm, events, i + 1) == Vm(VmAt(vm, events, i).cache, events[i].moved)
  {
  }

  // ---- A run with a wrong answer ----

  function Only(a: Address): set<Address> {
    {a}
  }

  /** One class directly under nil, whose dictionary has one symbol. */
  function Library(selector: Address, klass: Address, nilObject: Address, theMethod: Address): Image {
    Image(map s | s in Only(selector) :: "size",
          map c | c in Only(klass) :: Class(nilObject, Dictionary([selector], [theMethod])),
          nilObject)
  }

  /** Static objects at addresses of their own. */
  predicate Placed(selector: Address, klass: Address, nilObject: Address) {
    selector != 0 && klass != 0 && klass != nilObject
  }

  lemma LibraryAnswers(selector: Address, klass: Address, nilObject: Address, theMethod: Address)
    requires Placed(selector, klass, nilObject) && theMethod != 0
    ensures var image := Library(selector, klass, nilObject, theMethod);
            WellFormed(image) && Answers(image, klass, selector, theMethod)
  {
    var image := Library(selector, klass, nilObject, theMethod);
    assert ClassAt(image, nilObject, 0) == nilObject;
    assert ClassAt(image, klass, 1) == image.nilObject;
    assert image.symbols[image.classes[klass].methods.keys[0]] == "size";
    assert Holds(image, klass, "size", theMethod);
    assert FirstAt(image, klass, "size", theMethod, 0);
  }

  lemma LibraryDiffers(selector: Address, klass: Address, nilObject: Address, theMethod: Address, other: Address)
    requires Placed(selector, klass, nilObject) && theMethod != 0 && theMethod != other
    ensures var image := Library(selector, klass, nilObject, theMethod);
            && WellFormed(image) && TheAnswer(image, klass, selector) == theMethod
            && !Answers(image, klass, selector, other)
  {
    hide Answers, WellFormed, TheAnswer;
    var image := Library(selector, klass, nilObject, theMethod);
    LibraryAnswers(selector, klass, nilObject, theMethod);
    TheAnswerIs(image, klass, selector);
    AnswerUnique(image, klass, selector, theMethod, TheAnswer(image, klass, selector));
    if Answers(image, klass, selector, other) { AnswerUnique(image, klass, selector, theMethod, other); }
  }

  /** The method is looked up, and an allocation collects, moves the method and fails. */
  function StaleRun(selector: Address, klass: Address, nilObject: Address, there: Address): seq<Event> {
    [Lookup(selector, klass), Allocated(Library(selector, klass, nilObject, there), true, false)]
  }

  /** After such a run from an empty cache the next lookup of the method is wrong. */
  lemma StaleAnswer(cache: seq<CacheEntry>, selector: Address, klass: Address, nilObject: Address, here: Address,
                    there: Address)
    requires Slotted(cache) && forall i | 0 <= i < |cache| :: cache[i].methodName == 0
    requires Placed(selector, klass, nilObject) && here != 0 && there != 0 && here != there
    ensures
      var vm := Vm(cache, Library(selector, klass, nilObject, here));
      var events := StaleRun(selector, klass, nilObject, there);
      var last := VmAt(vm, events, 2);
      && Sound(vm) && StillTrue(cache, vm.image) && Fits(vm, events) && !Harmless(vm, events)
      && last.image == Library(selector, klass, nilObject, there)
      && Askable(last.image, selector, klass) && Looked(last, selector, klass) == here && !Right(last, selector, klass)
  {
    hide Answers, WellFormed, TheAnswer, Slot, Harmless, AlwaysRight;
    var vm, events := Vm(cache, Library(selector, klass, nilObject, here)), StaleRun(selector, klass, nilObject, there);
    LibraryDiffers(selector, klass, nilObject, here, there);
    LibraryDiffers(selector, klass, nilObject, there, here);
    assert !Remembered(cache, selector, klass);
    var vm1 := Vm(cache[Slot(selector, klass) := CacheEntry(selector, klass, here)], vm.image);
    assert VmAt(vm, events, 0) == vm;
    assert VmAt(vm, events, 1) == vm1;
    assert VmAt(vm, events, 2) == Vm(vm1.cache, Library(selector, klass, nilObject, there));
    NotAlwaysRight(VmAt(vm, events, 2), selector, klass);
    RunRightIff(vm, events);
  }

  lemma NotAlwaysRight(vm: Vm, selector: Address, klass: Address)
    requires Askable(vm.image, selector, klass) && !Right(vm, selector, klass)
    ensures !AlwaysRight(vm)
  {
  }

  class SmalltalkVM {
    var image: Image
    const lookupCache: array<CacheEntry>
    var cacheHits: nat
    var cacheMisses: nat

    ghost function State(): Vm
      reads this, lookupCache
    {
      Vm(lookupCache[..], image)
    }

    ghost predicate Valid()
      reads this, lookupCache
    {
      lookupCache.Length == LOOKUP_CACHE_SIZE && Sound(State())
    }

    /** No entry is in use at the start. */
    constructor (image: Image)
      requires WellFormed(image)
      ensures Valid() && this.image == image && fresh(lookupCache)
      ensures StillTrue(State().cache, image) && forall i | 0 <= i < lookupCache.Length ::
                lookupCache[i].methodName == 0
    {
      this.image := image;
      cacheHits, cacheMisses := 0, 0;
      lookupCache := new CacheEntry[LOOKUP_CACHE_SIZE](_ => CacheEntry(0, 0, 0));
      new;
      FlushMethodCache();
    }

    method FlushMethodCache()
      requires lookupCache.Length == LOOKUP_CACHE_SIZE && WellFormed(image)
      modifies lookupCache
      ensures Valid() && StillTrue(State().cache, image) && State().cache == Flushed(old(lookupCache[..]))
      ensures forall i | 0 <= i < lookupCache.Length :: lookupCache[i] == old(lookupCache[i]).(methodName := 0)
    {
      for i := 0 to LOOKUP_CACHE_SIZE
        invariant forall j | 0 <= j < i :: lookupCache[j] == old(lookupCache[j]).(methodName := 0)
        invariant forall j | i <= j < lookupCache.Length :: lookupCache[j] == old(lookupCache[j])
      {
        lookupCache[i] := lookupCache[i].(methodName := 0);
      }
    }

    method LookupMethodInCache(selector: Address, klass: Address) returns (found: Address)
      requires Valid() && selector in image.symbols
      modifies `cacheHits, `cacheMisses
      ensures found != 0 <==> Remembered(lookupCache[..], selector, klass)
      ensures var entry := lookupCache[((selector ^ klass) as nat) % 512];
        found == if entry.methodName == selector && entry.receiverClass == klass then entry.found else 0
      ensures found != 0 ==> found == Looked(State(), selector, klass)
      ensures if found != 0 then cacheHits == old(cacheHits) + 1 && cacheMisses == old(cacheMisses)
              else cacheMisses == old(cacheMisses) + 1 && cacheHits == old(cacheHits)
    {
      hide WellFormed, TheAnswer;
      ZeroIsNoSymbol(image);
      var entry := lookupCache[Slot(selector, klass)];
      if entry.methodName == selector && entry.receiverClass == klass {
        cacheHits := cacheHits + 1;
        return entry.found;
      } else {
        cacheMisses := cacheMisses + 1;
        return 0;
      }
    }

    method UpdateMethodCache(selector: Address, klass: Address, found: Address)
      requires Valid() && found != 0
      modifies lookupCache
      ensures Valid()
      ensures State().cache == old(State()).cache[Slot(selector, klass) := CacheEntry(selector, klass, found)]
      ensures lookupCache[((selector ^ klass) as nat) % 512] == CacheEntry(selector, klass, found)
    {
      hide WellFormed;
      lookupCache[Slot(selector, klass)] := CacheEntry(selector, klass, found);
    }

    /** The full search from a class up to nil. */
    method SearchChain(selector: Address, klass: Address) returns (found: Address)
      requires WellFormed(image) && selector in image.symbols && (klass in image.classes || klass == image.nilObject)
      ensures Answers(image, klass, selector, found) && (found != 0 ==> klass in image.classes)
    {
      hide WellFormed, FoundIn, Sorted;
      ghost var end := ChainLength(image, klass);
      ghost var name := image.symbols[selector];
      var currentClass := klass;
      ghost var k: nat := 0;
      while currentClass != image.nilObject
        invariant currentClass == ClassAt(image, klass, k) && k <= end
        invariant forall j: nat | j < k :: Holds(image, ClassAt(image, klass, j), name, 0)
        decreases end - k
      {
        OnTheChain(image, klass, k, end);
        found := Find(image, image.classes[currentClass].methods, selector);
        assert Holds(image, ClassAt(image, klass, k), name, found);
        if found != 0 {
          assert FirstAt(image, klass, name, found, k);
          return;
        }
        ClassAtNext(image, klass, k);
        currentClass := image.classes[currentClass].parentClass;
        k := k + 1;
      }
      AboveNil(image, klass, k, name);
      found := 0;
    }

    /** The entry of the slot if it is this selector's and class's own; else the method of the
        first class on the parent chain that has the selector, or 0 if there is none.  So the
        answer is right if no entry is used or the one that is used is true, and if all
        entries are true they stay so. */
    method LookupMethod(selector: Address, klass: Address) returns (found: Address)
      requires Valid() && Askable(image, selector, klass)
      modifies `cacheHits, `cacheMisses, lookupCache
      ensures Valid() && found == Looked(old(State()), selector, klass)
      ensures State() == Next(old(State()), Lookup(selector, klass))
      ensures Answers(image, klass, selector, found) <==> Right(old(State()), selector, klass)
      ensures old(StillTrue(lookupCache[..], image)) ==>
                Answers(image, klass, selector, found) && StillTrue(lookupCache[..], image)
    {
      hide WellFormed, Answers, TheAnswer, Slot, StillTrue;
      ghost var vm := State();
      if StillTrue(vm.cache, vm.image) {
        TrueIsRight(vm, selector, klass);
        NextTrue(vm, Lookup(selector, klass));
      }
      found := LookupMethodInCache(selector, klass);
      if found != 0 { return; }
      found := SearchChain(selector, klass);
      TheAnswerIs(image, klass, selector);
      AnswerUnique(image, klass, selector, found, TheAnswer(image, klass, selector));
      if found != 0 { UpdateMethodCache(selector, klass, found); }
    }

    /** What the allocation of an object does to the cache. */
    method NoteAllocation(moved: Image, collected: bool, ok: bool)
      requires Valid() && WellFormed(moved)
      modifies this, lookupCache
      ensures Valid() && State() == Next(old(State()), Allocated(moved, collected, ok))
    {
      hide WellFormed, Slot;
      if collected { image := moved; }
      if !ok { return; }
      if collected { FlushMethodCache(); }
    }

    /** Any run of lookups and allocations.  If no allocation that fails after a collection
        makes an entry in use untrue, each lookup answers for the image of its time. */
    method Run(events: seq<Event>) returns (answers: seq<Address>)
      requires Valid() && Fits(State(), events)
      modifies this, lookupCache
      ensures Valid() && |answers| == |events| && State() == VmAt(old(State()), events, |events|)
      ensures forall i | 0 <= i < |events| && events[i].Lookup? ::
                answers[i] == Looked(VmAt(old(State()), events, i), events[i].selector, events[i].klass)
      ensures old(StillTrue(lookupCache[..], image)) && Harmless(old(State()), events) ==>
                forall i | 0 <= i < |events| && events[i].Lookup? ::
                  Answered(VmAt(old(State()), events, i).image, events[i], answers[i])
    {
      hide Sound, WellFormed, StillTrue, Next, Looked, Harmless, Answered;
      ghost var vm := State();
      answers := [];
      var i := 0;
      while i < |events|
        invariant 0 <= i <= |events| && |answers| == i && Valid() && State() == VmAt(vm, events, i)
        invariant forall j | 0 <= j < i && events[j].Lookup? ::
                    answers[j] == Looked(VmAt(vm, events, j), events[j].selector, events[j].klass)
      {
        var answer: Address := 0;
        match events[i] {
          case Lookup(selector, klass) =>
            assert Askable(VmAt(vm, events, i).image, selector, klass);
            answer := LookupMethod(selector, klass);
          case Allocated(moved, collected, ok) =>
            NoteAllocation(moved, collected, ok);
        }
        answers := answers + [answer];
        i := i + 1;
      }
      if StillTrue(vm.cache, vm.image) && Harmless(vm, events) {
        RightAnswers(vm, events, answers);
      }
    }
  }

  /** The lookup was answered as the class chain of the image says. */
  ghost predicate Answered(image: Image, event: Event, answer: Address) {
    && event.Lookup? && WellFormed(image) && event.selector in image.symbols
    && Answers(image, event.klass, event.selector, answer)
  }

  lemma RightAnswers(vm: Vm, events: seq<Event>, answers: seq<Address>)
    requires Sound(vm) && StillTrue(vm.cache, vm.image) && Fits(vm, events) && Harmless(vm, events)
    requires |answers| == |events|
    requires forall i | 0 <= i < |events| && events[i].Lookup? ::
               answers[i] == Looked(VmAt(vm, events, i), events[i].selector, events[i].klass)
    ensures forall i | 0 <= i < |events| && events[i].Lookup? ::
              Answered(VmAt(vm, events, i).image, events[i], answers[i])
  {
    hide WellFormed, StillTrue, Answers, Looked, Harmless, Slotted, VmAt;
    forall i | 0 <= i < |events| && events[i].Lookup?
      ensures Answered(VmAt(vm, events, i).image, events[i], answers[i])
    {
      TrueAt(vm, events, i);
      SoundAt(vm, events, i);
      TrueIsRight(VmAt(vm, events, i), events[i].selector, events[i].klass);
    }
  }
}
